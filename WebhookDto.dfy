/** The request and response shapes of the webhook endpoints. */
module WebhookDto {
  import opened Wrappers
  import opened Json
  import opened Webhooks

  /** `CreateWebhookDto`. */
  datatype CreateWebhookDto = CreateWebhookDto(source: string, event: string, payload: Json)

  /** `WebhookResponseDto`: a webhook without its id. */
  datatype WebhookResponse = WebhookResponse(source: string, event: string, payload: Json, receivedAt: int)

  /** `CreateWebhookResponseDto`: only the id. */
  datatype CreateWebhookResponse = CreateWebhookResponse(id: string)

  /** `PaginationMetadata(page, limit, totalItems)`, whose own fields and
      arithmetic live in a file that is not part of this model. */
  datatype PaginationMetadata = PaginationMetadata(page: int, limit: int, totalItems: int)

  datatype GetAllWebhooksResponse = GetAllWebhooksResponse(data: seq<WebhookResponse>, pagination: PaginationMetadata)

  /** The declared rules of `CreateWebhookDto`: `source` and `event` are
      non-empty strings, `payload` is anything but '', null and undefined. */
  function ParseCreateWebhook(body: map<string, Json>): (r: Option<CreateWebhookDto>)
    ensures r.Some? <==> IsNonEmptyString(Field(body, "source")) && IsNonEmptyString(Field(body, "event"))
                         && IsNotEmpty(Field(body, "payload"))
    ensures r.Some? ==> body["source"] == JStr(r.value.source) && body["event"] == JStr(r.value.event)
                        && body["payload"] == r.value.payload
  {
    match (StringField(body, "source"), StringField(body, "event"), Field(body, "payload"))
    case (Some(src), Some(ev), Some(p)) => if p == JNull || p == JStr("") then None else Some(CreateWebhookDto(src, ev, p))
    case _ => None
  }

  /** An empty JSON object is a valid payload: `@IsNotEmpty()` does not look
      inside objects. */
  lemma EmptyObjectPayloadAccepted(source: string, event: string)
    requires source != "" && event != ""
    ensures ParseCreateWebhook(map["source" := JStr(source), "event" := JStr(event), "payload" := JObj(map[])])
            == Some(CreateWebhookDto(source, event, JObj(map[])))
  {
    var body := map["source" := JStr(source), "event" := JStr(event), "payload" := JObj(map[])];
    assert StringField(body, "source") == Some(source);
    assert StringField(body, "event") == Some(event);
  }

  /** `WebhookResponseDto.fromModel`. */
  function WebhookResponseFromModel(w: Webhook): (r: WebhookResponse)
    ensures r.source == w.source && r.event == w.event && r.payload == w.payload && r.receivedAt == w.receivedAt
  {
    WebhookResponse(w.source, w.event, w.payload, w.receivedAt)
  }

  /** The response does not depend on the webhook's id. */
  lemma WebhookResponseHidesId(w1: Webhook, w2: Webhook)
    requires w1.source == w2.source && w1.event == w2.event && w1.payload == w2.payload && w1.receivedAt == w2.receivedAt
    ensures WebhookResponseFromModel(w1) == WebhookResponseFromModel(w2)
  {
  }

  /** `CreateWebhookResponseDto.fromModel`. */
  function CreateWebhookResponseFromModel(w: Webhook): (r: CreateWebhookResponse)
    ensures r.id == w.id
  {
    CreateWebhookResponse(w.id)
  }

  /** `webhooks.map(WebhookResponseDto.fromModel)`. */
  function ResponsesOf(webhooks: seq<Webhook>): (r: seq<WebhookResponse>)
    ensures |r| == |webhooks|
    ensures forall i :: 0 <= i < |r| ==> r[i] == WebhookResponseFromModel(webhooks[i])
  {
    if webhooks == [] then [] else [WebhookResponseFromModel(webhooks[0])] + ResponsesOf(webhooks[1..])
  }

  /** `new GetAllWebhooksResponseDto(webhooks, totalItems, page, limit)`. */
  function GetAllWebhooksResponseOf(webhooks: seq<Webhook>, totalItems: int, page: int, limit: int): (r: GetAllWebhooksResponse)
    ensures |r.data| == |webhooks|
    ensures forall i :: 0 <= i < |webhooks| ==> r.data[i] == WebhookResponseFromModel(webhooks[i])
    ensures r.pagination == PaginationMetadata(page, limit, totalItems)
  {
    GetAllWebhooksResponse(ResponsesOf(webhooks), PaginationMetadata(page, limit, totalItems))
  }
}
