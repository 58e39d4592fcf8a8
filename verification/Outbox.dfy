/** The outbox table as the relay sees it (outbox/outbox.go): committed rows, the ordered batch a
    fetch returns, and the mark that takes a row out of it. */
module Outbox {
  import opened Results
  import opened SweepSchedules

  /** A row's id within its tenant, standing for the unique event id stored with it. */
  datatype EventId = EventId(tenant: Tenant, id: int)

  /** `notifier` is the process whose commit of this row runs the wake hook; None for rows of a
      transaction that never marked itself. */
  datatype Row = Row(published: bool, notifier: Option<int>)

  type Table = map<EventId, Row>

  predicate IsPending(rows: Table, e: EventId) {
    e in rows && !rows[e].published
  }

  function PendingIds(rows: Table, t: Tenant): (ids: set<int>)
    ensures forall x :: x in ids <==> IsPending(rows, EventId(t, x))
  {
    var ids := set e | e in rows && e.tenant == t && !rows[e].published :: e.id;
    assert forall x :: IsPending(rows, EventId(t, x)) ==> EventId(t, x).id in ids;
    ids
  }

  ghost predicate IsAscending(xs: seq<int>) {
    forall i, j :: 0 <= i < j < |xs| ==> xs[i] < xs[j]
  }

  lemma Member<T>(s: set<T>) returns (a: T)
    requires s != {}
    ensures a in s
  {
    a :| a in s;
  }

  lemma HeadIsMember<T>(xs: seq<T>)
    ensures xs == [] || xs[0] in xs
  {
  }

  predicate IsLeast(m: int, s: set<int>) {
    m in s && forall x :: x in s ==> m <= x
  }

  lemma {:induction false} LeastOf(s: set<int>) returns (m: int)
    requires s != {}
    ensures IsLeast(m, s)
    decreases |s|
  {
    m := Member(s);
    var rest := s - {m};
    assert forall x :: x in s ==> x == m || x in rest;
    if rest != {} {
      var least := LeastOf(rest);
      m := if m <= least then m else least;
    }
  }

  lemma LeastExists(s: set<int>)
    requires s != {}
    ensures exists m :: IsLeast(m, s)
  {
    var m := LeastOf(s);
  }

  function Least(s: set<int>): (m: int)
    requires s != {}
    ensures m in s && forall x :: x in s ==> m <= x
  {
    LeastExists(s);
    var m :| IsLeast(m, s);
    m
  }

  function Ascending(s: set<int>): (xs: seq<int>)
    ensures IsAscending(xs)
    ensures forall x :: x in xs <==> x in s
    ensures |xs| == |s|
    decreases |s|
  {
    if s == {} then []
    else
      var m := Least(s);
      var rest := Ascending(s - {m});
      assert forall x :: x in [m] + rest <==> x == m || x in rest;
      [m] + rest
  }

  /** The unpublished rows of one tenant, by id, at most `limit` of them. */
  function Fetch(rows: Table, t: Tenant, limit: nat): (batch: seq<int>)
    ensures IsAscending(batch) && |batch| <= limit
    ensures forall x :: x in batch ==> IsPending(rows, EventId(t, x))
    ensures forall x :: IsPending(rows, EventId(t, x)) && x !in batch ==>
              |batch| == limit && forall y :: y in batch ==> y < x
  {
    var all := Ascending(PendingIds(rows, t));
    if |all| <= limit then all
    else
      assert forall x | x in all && x !in all[..limit] ::
          exists k :: limit <= k < |all| && all[k] == x;
      all[..limit]
  }

  /** A marked row is never fetched again, and while there is room nothing unmarked is left behind. */
  lemma FetchLeavesMarkedRows(rows: Table, t: Tenant, limit: nat, x: int)
    ensures x in Fetch(rows, t, limit) ==> EventId(t, x) in rows && !rows[EventId(t, x)].published
    ensures EventId(t, x) in rows && !rows[EventId(t, x)].published && |Fetch(rows, t, limit)| < limit ==>
              x in Fetch(rows, t, limit)
  {
  }

  /** The row is only ever flagged, never removed. */
  function MarkPublished(rows: Table, e: EventId): Table
    requires e in rows
  {
    rows[e := rows[e].(published := true)]
  }

  /** Whatever else is pending, the oldest pending row of a tenant heads its next batch: a row
      nobody marked cannot be starved by younger ones. */
  lemma OldestHeadsTheBatch(rows: Table, t: Tenant, limit: nat, oldest: int)
    requires 1 <= limit && IsPending(rows, EventId(t, oldest))
    requires forall x :: IsPending(rows, EventId(t, x)) ==> oldest <= x
    ensures Fetch(rows, t, limit) != [] && Fetch(rows, t, limit)[0] == oldest
  {
    var batch := Fetch(rows, t, limit);
    assert IsPending(rows, EventId(t, oldest));
    if batch != [] {
      assert batch[0] in batch;
    }
    assert oldest in batch;
    var k :| 0 <= k < |batch| && batch[k] == oldest;
    assert batch[0] in batch;
  }
}
