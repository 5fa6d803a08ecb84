/** The webhook table behind `WebhookRepository`, as a sequence of records in
    insertion order, and the listing queries over it. */
module Webhooks {
  import opened Wrappers
  import opened Failures
  import opened Json

  datatype Webhook = Webhook(id: string, source: string, event: string, payload: Json, receivedAt: int)

  /** Ordered by `receivedAt`, most recent first. */
  predicate SortedDesc(s: seq<Webhook>)
  {
    forall i, j :: 0 <= i < j < |s| ==> s[i].receivedAt >= s[j].receivedAt
  }

  predicate UniqueIds(s: seq<Webhook>)
  {
    forall i, j :: 0 <= i < j < |s| ==> s[i].id != s[j].id
  }

  /** Places `w` in a most-recent-first list, ahead of every record that is
      not more recent than it. */
  function Insert(w: Webhook, s: seq<Webhook>): (r: seq<Webhook>)
    ensures multiset(r) == multiset(s) + multiset{w}
    ensures |r| == |s| + 1
    ensures forall k :: 0 <= k < |r| ==> r[k] == w || r[k] in s
  {
    if s == [] || s[0].receivedAt <= w.receivedAt then
      [w] + s
    else
      assert s == [s[0]] + s[1..];
      [s[0]] + Insert(w, s[1..])
  }

  lemma {:induction false} InsertSorted(w: Webhook, s: seq<Webhook>)
    requires SortedDesc(s)
    ensures SortedDesc(Insert(w, s))
  {
    if s == [] || s[0].receivedAt <= w.receivedAt {
    } else {
      var tail := Insert(w, s[1..]);
      InsertSorted(w, s[1..]);
      forall k | 0 <= k < |tail| ensures tail[k].receivedAt <= s[0].receivedAt {
        if tail[k] != w {
          var m :| 0 <= m < |s[1..]| && s[1..][m] == tail[k];
          assert s[m + 1] == tail[k];
        }
      }
      var r := [s[0]] + tail;
      assert forall k :: 0 < k < |r| ==> r[k] == tail[k - 1];
    }
  }

  lemma {:induction false} InsertUnique(w: Webhook, s: seq<Webhook>)
    requires UniqueIds(s)
    requires forall v :: v in s ==> v.id != w.id
    ensures UniqueIds(Insert(w, s))
  {
    if s == [] || s[0].receivedAt <= w.receivedAt {
    } else {
      var tail := Insert(w, s[1..]);
      InsertUnique(w, s[1..]);
      assert forall k :: 0 <= k < |tail| ==> tail[k].id != s[0].id;
    }
  }

  /** `orderBy: { receivedAt: 'desc' }`. Records with equal `receivedAt` keep
      their insertion order. */
  function SortDesc(s: seq<Webhook>): (r: seq<Webhook>)
    ensures multiset(r) == multiset(s)
    ensures |r| == |s|
  {
    if s == [] then []
    else
      assert s == [s[0]] + s[1..];
      Insert(s[0], SortDesc(s[1..]))
  }

  /** The listing order is most recent first. */
  lemma {:induction false} SortDescSorted(s: seq<Webhook>)
    ensures SortedDesc(SortDesc(s))
  {
    if s != [] {
      SortDescSorted(s[1..]);
      InsertSorted(s[0], SortDesc(s[1..]));
    }
  }

  /** Sorting a table of distinct ids keeps them distinct. */
  lemma {:induction false} SortDescUnique(s: seq<Webhook>)
    requires UniqueIds(s)
    ensures UniqueIds(SortDesc(s))
  {
    if s != [] {
      var rest := SortDesc(s[1..]);
      assert UniqueIds(s[1..]) by {
        forall i, j | 0 <= i < j < |s[1..]| ensures s[1..][i].id != s[1..][j].id {
          assert s[1..][i] == s[i + 1] && s[1..][j] == s[j + 1];
        }
      }
      SortDescUnique(s[1..]);
      assert forall v :: v in rest ==> v in multiset(s[1..]);
      forall v | v in rest ensures v.id != s[0].id {
        assert v in s[1..];
        var k :| 0 <= k < |s[1..]| && s[1..][k] == v;
        assert s[k + 1] == v;
      }
      InsertUnique(s[0], rest);
    }
  }

  /** The `skip` of `findAll`: `(page - 1) * limit` when both are given and
      non-zero (truthy), otherwise 0. */
  function SkipOf(page: Option<nat>, limit: Option<nat>): nat
  {
    if page.Some? && page.value != 0 && limit.Some? && limit.value != 0 then (page.value - 1) * limit.value else 0
  }

  /** `skip`/`take` over an ordered list: drop `skip` records, then keep `take`
      of them, or all that remain when `take` is undefined. */
  function Window(s: seq<Webhook>, skip: nat, take: Option<nat>): (r: seq<Webhook>)
    ensures |r| == if skip >= |s| then 0 else if take.None? || skip + take.value > |s| then |s| - skip else take.value
    ensures forall k :: 0 <= k < |r| ==> r[k] == s[skip + k]
  {
    if skip >= |s| then []
    else if take.None? || skip + take.value > |s| then s[skip..]
    else s[skip..skip + take.value]
  }

  /** `findAll(page?, limit?)`: the `[skip, skip + limit)` window of the whole
      table ordered most recent first. */
  function FindAll(rows: seq<Webhook>, page: Option<nat>, limit: Option<nat>): (r: seq<Webhook>)
    ensures SortedDesc(r)
    ensures limit.Some? ==> |r| <= limit.value
    ensures limit.Some? && SkipOf(page, limit) + limit.value <= |rows| ==> |r| == limit.value
    ensures SkipOf(page, limit) < |rows| && (limit.None? || SkipOf(page, limit) + limit.value > |rows|) ==>
              |r| == |rows| - SkipOf(page, limit)
    ensures SkipOf(page, limit) >= |rows| ==> r == []
    ensures limit.None? ==> r == SortDesc(rows)
    ensures |r| == 0 || SkipOf(page, limit) + |r| <= |rows|
    ensures forall k :: 0 <= k < |r| ==> r[k] == SortDesc(rows)[SkipOf(page, limit) + k]
  {
    var all := SortDesc(rows);
    var skip := SkipOf(page, limit);
    var r := Window(all, skip, limit);
    assert |r| == 0 || skip + |r| <= |all|;
    SortDescSorted(rows);
    WindowSorted(all, skip, limit);
    r
  }

  lemma WindowSorted(s: seq<Webhook>, skip: nat, take: Option<nat>)
    requires SortedDesc(s)
    ensures SortedDesc(Window(s, skip, take))
  {
    var r := Window(s, skip, take);
    forall i, j | 0 <= i < j < |r| ensures r[i].receivedAt >= r[j].receivedAt {
      assert r[i] == s[skip + i] && r[j] == s[skip + j];
    }
  }

  lemma MulSucc(n: nat, limit: nat)
    ensures (n + 1) * limit == n * limit + limit
  {
  }

  /** Page `p2` starts at least `limit` records after page `p1` starts. */
  lemma {:induction false} PageStarts(p1: nat, p2: nat, limit: nat)
    requires 1 <= p1 < p2
    ensures (p1 - 1) * limit + limit <= (p2 - 1) * limit
  {
    if p2 == p1 + 1 {
      MulSucc(p1 - 1, limit);
    } else {
      PageStarts(p1, p2 - 1, limit);
      MulSucc(p2 - 2, limit);
    }
  }

  lemma PageSkips(p1: nat, p2: nat, limit: nat)
    requires 1 <= p1 < p2 && limit >= 1
    ensures SkipOf(Some(p1), Some(limit)) + limit <= SkipOf(Some(p2), Some(limit))
  {
    PageStarts(p1, p2, limit);
  }

  /** Two records read from a window at `s1` of at most `limit` records and
      from one at `s2 >= s1 + limit` are distinct records of the table. */
  lemma WindowsApart(all: seq<Webhook>, w1: seq<Webhook>, s1: nat, w2: seq<Webhook>, s2: nat, limit: nat)
    requires UniqueIds(all)
    requires |w1| <= limit && s1 + limit <= s2
    requires forall k :: 0 <= k < |w1| ==> s1 + k < |all| && w1[k] == all[s1 + k]
    requires forall k :: 0 <= k < |w2| ==> s2 + k < |all| && w2[k] == all[s2 + k]
    ensures forall a, b :: a in w1 && b in w2 ==> a.id != b.id
  {
    forall a, b | a in w1 && b in w2 ensures a.id != b.id {
      var i :| 0 <= i < |w1| && w1[i] == a;
      var j :| 0 <= j < |w2| && w2[j] == b;
      assert s1 + i < s2 + j;
    }
  }

  /** Every record of a page sits in the sorted table at the page's skip
      plus its position. */
  lemma PageInTable(rows: seq<Webhook>, page: Option<nat>, limit: Option<nat>)
    ensures var r := FindAll(rows, page, limit);
            forall k :: 0 <= k < |r| ==> SkipOf(page, limit) + k < |SortDesc(rows)| && r[k] == SortDesc(rows)[SkipOf(page, limit) + k]
  {
  }

  /** Pages of one size never share a record: for distinct page numbers, no
      id appears on both (ids being unique in the table). */
  lemma PagesDisjoint(rows: seq<Webhook>, p1: nat, p2: nat, limit: nat)
    requires UniqueIds(rows)
    requires 1 <= p1 < p2 && limit >= 1
    ensures var page1 := FindAll(rows, Some(p1), Some(limit)); var page2 := FindAll(rows, Some(p2), Some(limit));
            forall a, b :: a in page1 && b in page2 ==> a.id != b.id
  {
    var all, s1, s2 := SortDesc(rows), SkipOf(Some(p1), Some(limit)), SkipOf(Some(p2), Some(limit));
    var page1, page2 := FindAll(rows, Some(p1), Some(limit)), FindAll(rows, Some(p2), Some(limit));
    SortDescUnique(rows);
    PageSkips(p1, p2, limit);
    PageInTable(rows, Some(p1), Some(limit));
    PageInTable(rows, Some(p2), Some(limit));
    WindowsApart(all, page1, s1, page2, s2, limit);
  }

  /** Page number 0 is falsy in the skip computation, so it reads the same
      records as page 1: the two overlap whenever that page is non-empty. */
  lemma PageZeroIsPageOne(rows: seq<Webhook>, limit: nat)
    ensures FindAll(rows, Some(0), Some(limit)) == FindAll(rows, Some(1), Some(limit))
    ensures rows != [] && limit >= 1 ==> FindAll(rows, Some(0), Some(limit))[0] in FindAll(rows, Some(1), Some(limit))
  {
    assert SkipOf(Some(0), Some(limit)) == 0 == SkipOf(Some(1), Some(limit));
  }

  /** The records with a given source, in table order. */
  function WithSource(s: seq<Webhook>, source: string): (r: seq<Webhook>)
    ensures forall w :: w in r <==> w in s && w.source == source
    ensures multiset(r) <= multiset(s)
    ensures forall w :: multiset(r)[w] == if w.source == source then multiset(s)[w] else 0
  {
    if s == [] then []
    else
      assert s == [s[0]] + s[1..];
      (if s[0].source == source then [s[0]] else []) + WithSource(s[1..], source)
  }

  /** The records with a given event, in table order. */
  function WithEvent(s: seq<Webhook>, event: string): (r: seq<Webhook>)
    ensures forall w :: w in r <==> w in s && w.event == event
    ensures multiset(r) <= multiset(s)
    ensures forall w :: multiset(r)[w] == if w.event == event then multiset(s)[w] else 0
  {
    if s == [] then []
    else
      assert s == [s[0]] + s[1..];
      (if s[0].event == event then [s[0]] else []) + WithEvent(s[1..], event)
  }

  /** `findBySource`: exactly the records with that source, most recent first. */
  function FindBySource(rows: seq<Webhook>, source: string): (r: seq<Webhook>)
    ensures SortedDesc(r)
    ensures forall w :: w in r <==> w in rows && w.source == source
    ensures multiset(r) == multiset(WithSource(rows, source))
    ensures forall w :: multiset(r)[w] == if w.source == source then multiset(rows)[w] else 0
  {
    var r := SortDesc(WithSource(rows, source));
    SortDescSorted(WithSource(rows, source));
    assert forall w :: w in r <==> w in multiset(WithSource(rows, source));
    r
  }

  /** `findByEvent`: exactly the records with that event, most recent first. */
  function FindByEvent(rows: seq<Webhook>, event: string): (r: seq<Webhook>)
    ensures SortedDesc(r)
    ensures forall w :: w in r <==> w in rows && w.event == event
    ensures multiset(r) == multiset(WithEvent(rows, event))
    ensures forall w :: multiset(r)[w] == if w.event == event then multiset(rows)[w] else 0
  {
    var r := SortDesc(WithEvent(rows, event));
    SortDescSorted(WithEvent(rows, event));
    assert forall w :: w in r <==> w in multiset(WithEvent(rows, event));
    r
  }

  /** The position of the first record with that id, `|s|` when there is none. */
  function FirstIndex(s: seq<Webhook>, id: string): (i: nat)
    ensures i <= |s|
    ensures i < |s| ==> s[i].id == id
    ensures forall j :: 0 <= j < i ==> s[j].id != id
  {
    if s == [] then 0
    else if s[0].id == id then 0
    else 1 + FirstIndex(s[1..], id)
  }

  /** The first record with that id, or nothing: `findById` (whose id is the
      table's key) and the in-memory store's `find`. */
  function FindById(s: seq<Webhook>, id: string): (r: Option<Webhook>)
    ensures r.None? <==> forall w :: w in s ==> w.id != id
    ensures r.Some? ==> r.value.id == id &&
                        exists i :: 0 <= i < |s| && s[i] == r.value && forall j :: 0 <= j < i ==> s[j].id != id
  {
    var i := FirstIndex(s, id);
    if i < |s| then Some(s[i]) else None
  }

  /** The table without the records carrying that id. */
  function Without(s: seq<Webhook>, id: string): (r: seq<Webhook>)
    ensures forall w :: w in r <==> w in s && w.id != id
    ensures UniqueIds(s) ==> UniqueIds(r)
    ensures UniqueIds(s) && (exists w :: w in s && w.id == id) ==> |r| == |s| - 1
    ensures (forall w :: w in s ==> w.id != id) ==> r == s
  {
    if s == [] then []
    else
      assert s == [s[0]] + s[1..];
      var rest := Without(s[1..], id);
      if s[0].id == id then rest else [s[0]] + rest
  }

  /** The table after `delete(id)`: the store refuses an id it does not hold. */
  function Deleted(rows: seq<Webhook>, id: string): (r: Result<seq<Webhook>, Failure>)
    ensures r.Err? <==> forall w :: w in rows ==> w.id != id
    ensures r.Err? ==> r.error == RecordNotFound
    ensures r.Ok? ==> forall w :: w in r.value <==> w in rows && w.id != id
  {
    if FindById(rows, id).None? then Err(RecordNotFound) else Ok(Without(rows, id))
  }

  /** The repository object: `create`, `delete` and `deleteAll` change the
      table, the queries are the functions above applied to `rows`. */
  class WebhookRepository {
    var rows: seq<Webhook>

    ghost predicate Valid()
      reads this
    {
      UniqueIds(rows)
    }

    constructor ()
      ensures Valid() && rows == []
    {
      rows := [];
    }

    /** `create`: the store assigns the id (`freshId`) and `receivedAt`
        (`now`) and refuses an id it already holds. */
    method Create(source: string, event: string, payload: Json, freshId: string, now: int)
      returns (r: Result<Webhook, Failure>)
      requires Valid()
      modifies this
      ensures Valid()
      ensures FindById(old(rows), freshId).Some? ==> r == Err(UniqueViolation("id")) && rows == old(rows)
      ensures FindById(old(rows), freshId).None? ==>
                r == Ok(Webhook(freshId, source, event, payload, now)) && rows == old(rows) + [r.value]
    {
      if FindById(rows, freshId).Some? {
        return Err(UniqueViolation("id"));
      }
      var w := Webhook(freshId, source, event, payload, now);
      rows := rows + [w];
      r := Ok(w);
    }

    /** `delete(id)`: removes the record with that id, or fails when there is
        none. */
    method Delete(id: string) returns (r: Result<(), Failure>)
      requires Valid()
      modifies this
      ensures Valid()
      ensures match Deleted(old(rows), id)
              case Ok(rows') => rows == rows' && |rows| == |old(rows)| - 1 && r == Ok(())
              case Err(e) => rows == old(rows) && r == Err(e)
    {
      var next := Deleted(rows, id);
      if next.Err? {
        return Err(next.error);
      }
      rows := next.value;
      r := Ok(());
    }

    /** `count`. */
    function Count(): (n: nat)
      reads this
      ensures n == |rows|
    {
      |rows|
    }

    /** `deleteAll`. */
    method DeleteAll()
      modifies this
      ensures Valid() && rows == [] && |rows| == 0
    {
      rows := [];
    }
  }
}
