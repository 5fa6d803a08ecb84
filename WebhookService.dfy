/** `WebhookService`: thin delegations to the webhook repository. */
module WebhookService {
  import opened Wrappers
  import opened Failures
  import opened Webhooks
  import opened WebhookDto

  class WebhookService {
    const repo: WebhookRepository

    constructor (repo: WebhookRepository)
      ensures this.repo == repo
    {
      this.repo := repo;
    }

    /** `createWebhook`: hands exactly the three input fields to `create`
        and returns what it returns. */
    method CreateWebhook(input: CreateWebhookDto, freshId: string, now: int) returns (r: Result<Webhook, Failure>)
      requires repo.Valid()
      modifies repo
      ensures repo.Valid()
      ensures FindById(old(repo.rows), freshId).Some? ==> r == Err(UniqueViolation("id")) && repo.rows == old(repo.rows)
      ensures FindById(old(repo.rows), freshId).None? ==>
                r == Ok(Webhook(freshId, input.source, input.event, input.payload, now))
                && repo.rows == old(repo.rows) + [r.value]
    {
      r := repo.Create(input.source, input.event, input.payload, freshId, now);
    }

    /** `getAllWebhooks`: `findAll()` with no page and no limit, which is the
        whole table, most recent first. */
    method GetAllWebhooks() returns (all: seq<Webhook>)
      ensures all == FindAll(repo.rows, None, None)
      ensures SortedDesc(all) && multiset(all) == multiset(repo.rows)
    {
      all := FindAll(repo.rows, None, None);
    }

    /** `getWebhookById`: the repository's answer, nothing when the id is
        unknown, otherwise the first stored record with that id. */
    method GetWebhookById(id: string) returns (r: Option<Webhook>)
      ensures r == FindById(repo.rows, id)
      ensures r.None? <==> forall w :: w in repo.rows ==> w.id != id
      ensures r.Some? ==> r.value in repo.rows && r.value.id == id
    {
      r := FindById(repo.rows, id);
    }

    /** `getWebhookCount`. */
    method GetWebhookCount() returns (n: nat)
      ensures n == |repo.rows|
    {
      n := repo.Count();
    }
  }

  /** Listing without paging arguments is the same as any page whose size
      covers the whole table. */
  lemma {:induction false} UnpagedIsFirstFullPage(rows: seq<Webhook>, limit: nat)
    requires limit >= |rows|
    ensures FindAll(rows, None, None) == FindAll(rows, Some(1), Some(limit))
  {
    var all := SortDesc(rows);
    assert SkipOf(Some(1), Some(limit)) == 0;
    assert Window(all, 0, Some(limit)) == all;
  }
}
