/** `StorageRepository`: an in-memory list of webhooks, grown at the end and
    emptied by `clear`. */
module Storage {
  import opened Wrappers
  import opened Webhooks

  class StorageRepository {
    var webhooks: seq<Webhook>

    constructor ()
      ensures webhooks == []
    {
      webhooks := [];
    }

    /** `save`: appends, leaving earlier entries where they were. */
    method Save(webhook: Webhook)
      modifies this
      ensures webhooks == old(webhooks) + [webhook]
      ensures |webhooks| == |old(webhooks)| + 1
      ensures forall i :: 0 <= i < |old(webhooks)| ==> webhooks[i] == old(webhooks)[i]
      ensures webhooks[|webhooks| - 1] == webhook
    {
      webhooks := webhooks + [webhook];
    }

    /** `getAll`: the entries in insertion order. */
    method GetAll() returns (all: seq<Webhook>)
      ensures all == webhooks
    {
      all := webhooks;
    }

    /** `getById`: the first saved entry with that id. */
    method GetById(id: string) returns (r: Option<Webhook>)
      ensures r.None? <==> forall w :: w in webhooks ==> w.id != id
      ensures r.Some? ==> r.value.id == id &&
                          exists i :: 0 <= i < |webhooks| && webhooks[i] == r.value &&
                                      forall j :: 0 <= j < i ==> webhooks[j].id != id
    {
      r := FindById(webhooks, id);
    }

    /** `count`. */
    method Count() returns (n: nat)
      ensures n == |webhooks|
    {
      n := |webhooks|;
    }

    /** `clear`. */
    method Clear()
      modifies this
      ensures webhooks == []
      ensures forall id :: FindById(webhooks, id).None?
    {
      webhooks := [];
    }
  }

  /** Lookup by id does not depend on what was saved after the first entry
      with that id. */
  lemma {:induction false} FirstSavedWins(before: seq<Webhook>, w: Webhook, after: seq<Webhook>)
    requires forall v :: v in before ==> v.id != w.id
    ensures FindById(before + [w] + after, w.id) == Some(w)
  {
    var s := before + [w] + after;
    assert s[|before|] == w;
    assert forall j :: 0 <= j < |before| ==> s[j] == before[j];
  }
}
