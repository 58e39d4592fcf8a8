/** What consumers do with deliveries (outbox/outbox.go, MarkProcessed inside InTxFor): the event's
    key and its effect are written by one transaction.  The insert waits for any other open
    transaction holding the same key, so it is one atomic step once it can run. */
module Consumers {
  import opened Outbox

  /** `open` holds the transactions that inserted a key and have neither committed nor rolled
      back; `effects` lists the committed effects in commit order. */
  datatype Consumer = Consumer(processed: set<EventId>, open: map<int, EventId>, effects: seq<EventId>)

  datatype Step =
    | Claim(tx: int, event: EventId)
    | Duplicate(tx: int, event: EventId)
    | Commit(tx: int)
    | Abort(tx: int)

  const INITIAL := Consumer({}, map[], [])

  predicate Enabled(c: Consumer, a: Step) {
    match a
    case Claim(tx, e) => tx !in c.open && e !in c.processed && forall x :: x in c.open ==> c.open[x] != e
    case Duplicate(tx, e) => tx !in c.open && e in c.processed
    case Commit(tx) => tx in c.open
    case Abort(tx) => tx in c.open
  }

  /** A duplicate ends in ErrAlreadyProcessed and its transaction rolls back: nothing changes. */
  function Apply(c: Consumer, a: Step): Consumer
    requires Enabled(c, a)
  {
    match a
    case Claim(tx, e) => c.(open := c.open[tx := e])
    case Duplicate(_, _) => c
    case Commit(tx) =>
      c.(processed := c.processed + {c.open[tx]}, open := c.open - {tx}, effects := c.effects + [c.open[tx]])
    case Abort(tx) => c.(open := c.open - {tx})
  }

  ghost predicate Inv(c: Consumer) {
    && (forall tx :: tx in c.open ==> c.open[tx] !in c.processed)
    && (forall i, j :: i in c.open && j in c.open && i != j ==> c.open[i] != c.open[j])
    && (forall i, j :: 0 <= i < j < |c.effects| ==> c.effects[i] != c.effects[j])
    && (forall e :: e in c.effects <==> e in c.processed)
  }

  lemma StepKeepsInv(c: Consumer, a: Step)
    requires Inv(c) && Enabled(c, a)
    ensures Inv(Apply(c, a))
    ensures c.processed <= Apply(c, a).processed
  {
    var d := Apply(c, a);
    if a.Commit? {
      assert forall e :: e in d.effects <==> e in c.effects || e == c.open[a.tx];
    }
  }

  /** What a delivery comes to: a commit adds its one effect and the event's key; an abort adds nothing
      and leaves the event to be claimed again; a key on record is only ever answered as a duplicate,
      which changes nothing. */
  lemma DeliveriesSettle(c: Consumer, tx: int, again: int)
    requires Inv(c) && tx in c.open && again !in c.open
    ensures var e := c.open[tx]; var d := Apply(c, Commit(tx));
            && d.effects == c.effects + [e] && d.processed == c.processed + {e} && tx !in d.open
            && Enabled(d, Duplicate(again, e)) && !Enabled(d, Claim(again, e)) && Apply(d, Duplicate(again, e)) == d
    ensures var e := c.open[tx]; var d := Apply(c, Abort(tx));
            && d.effects == c.effects && d.processed == c.processed && tx !in d.open
            && !Enabled(d, Duplicate(again, e)) && Enabled(d, Claim(again, e))
  {
    var d := Apply(c, Abort(tx));
    assert forall x :: x in d.open ==> x in c.open && x != tx && d.open[x] == c.open[x];
  }

  function Count(e: EventId, effects: seq<EventId>): nat {
    if effects == [] then 0
    else Count(e, effects[..|effects| - 1]) + if effects[|effects| - 1] == e then 1 else 0
  }

  /** In a list without repeats an element counts once if present, never twice. */
  lemma {:induction false} CountOfDistinct(e: EventId, effects: seq<EventId>)
    requires forall i, j :: 0 <= i < j < |effects| ==> effects[i] != effects[j]
    ensures Count(e, effects) == if e in effects then 1 else 0
  {
    if effects != [] {
      var init, last := effects[..|effects| - 1], effects[|effects| - 1];
      assert effects == init + [last];
      CountOfDistinct(e, init);
      assert last !in init;
    }
  }
}
