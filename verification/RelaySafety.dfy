/** What every run of the outbox protocol keeps. */
module RelaySafety {
  import opened SweepSchedules
  import opened Outbox
  import opened RelayProtocol
  import Consumers

  // ----- Nothing is lost, nothing is invented -----

  /** The batch in hand is committed, and what the loop has passed is in the stream. */
  ghost predicate DrainBacked(rows: Table, log: seq<EventId>, l: Loop) {
    HoldsBatch(l) ==>
      && l.phase.i < |l.phase.batch|
      && (forall j :: 0 <= j < |l.phase.batch| ==> EventId(l.tenant, l.phase.batch[j]) in rows)
      && (forall j :: 0 <= j < l.phase.i ==> EventId(l.tenant, l.phase.batch[j]) in log)
      && (l.phase.Marking? ==> InHand(l) in log)
  }

  /** A marked row is in the stream; the stream holds only committed rows; consumers have only
      applied what the stream holds, each event once. */
  ghost predicate Durable(s: State) {
    && (forall e :: e in s.rows && s.rows[e].published ==> e in s.log)
    && (forall e :: e in s.log ==> e in s.rows)
    && (forall p :: p in s.procs ==> DrainBacked(s.rows, s.log, s.procs[p].loop))
    && Consumers.Inv(s.consumer)
    && (forall e :: e in s.consumer.processed ==> e in s.log)
    && (forall tx :: tx in s.consumer.open ==> s.consumer.open[tx] in s.log)
  }

  lemma DrainBackedGrows(rows: Table, log: seq<EventId>, rows': Table, log': seq<EventId>, l: Loop)
    requires DrainBacked(rows, log, l)
    requires forall e :: e in rows ==> e in rows'
    requires forall e :: e in log ==> e in log'
    ensures DrainBacked(rows', log', l)
  {
  }

  /** The transaction is open and has written the row. */
  predicate Holds(s: State, p: int, tx: int, t: Tenant, id: int) {
    && p in s.procs && tx in s.procs[p].txs
    && s.procs[p].txs[tx].Open? && s.procs[p].txs[tx].tenant == t && id in s.procs[p].txs[tx].ids
  }

  /** Every id in use came from its table's sequence; those of open transactions are not yet in the
      table, and no two open transactions share one. */
  ghost predicate FreshIds(s: State) {
    && (forall e :: e in s.rows ==> e.id < NextId(s, e.tenant))
    && (forall p, tx, t, id :: Holds(s, p, tx, t, id) ==> id < NextId(s, t) && EventId(t, id) !in s.rows)
    && (forall p, tx, q, ty, t, id :: Holds(s, p, tx, t, id) && Holds(s, q, ty, t, id) ==> p == q && tx == ty)
  }

  lemma CommitKeepsFreshIds(s: State, p: int, tx: int)
    requires FreshIds(s) && TxEnabled(s, p, tx, Commit)
    ensures FreshIds(TxApply(s, p, tx, Commit))
  {
    var s', open := TxApply(s, p, tx, Commit), s.procs[p].txs[tx];
    forall q, ty, t, id | Holds(s', q, ty, t, id)
      ensures Holds(s, q, ty, t, id) && EventId(t, id) !in s'.rows
    {
      assert Holds(s, q, ty, t, id);
      if EventId(t, id) in Events(open.tenant, open.ids) {
        assert Holds(s, p, tx, t, id);
      }
    }
    forall e | e in Events(open.tenant, open.ids) ensures e.id < NextId(s', e.tenant) {
      assert Holds(s, p, tx, e.tenant, e.id);
    }
  }

  lemma InsertKeepsFreshIds(s: State, p: int, tx: int, id: int, marks: bool)
    requires FreshIds(s) && TxEnabled(s, p, tx, Insert(id, marks))
    ensures FreshIds(TxApply(s, p, tx, Insert(id, marks)))
  {
    var s', open := TxApply(s, p, tx, Insert(id, marks)), s.procs[p].txs[tx];
    forall q, ty, t, x | Holds(s', q, ty, t, x)
      ensures Holds(s, q, ty, t, x) || (q == p && ty == tx && t == open.tenant && x == id)
    {
    }
  }

  lemma StepKeepsFreshIds(s: State, a: Action)
    requires FreshIds(s) && Enabled(s, a)
    ensures FreshIds(Apply(s, a))
  {
    if a.Transact? && a.txStep.Commit? {
      CommitKeepsFreshIds(s, a.p, a.tx);
    } else if a.Transact? && a.txStep.Insert? {
      InsertKeepsFreshIds(s, a.p, a.tx, a.txStep.id, a.txStep.marks);
    } else {
      OtherStepsHoldNoMore(s, a);
    }
  }

  lemma OtherStepsHoldNoMore(s: State, a: Action)
    requires Enabled(s, a) && (a.Transact? ==> !a.txStep.Commit? && !a.txStep.Insert?)
    ensures var s' := Apply(s, a);
            && s'.rows.Keys == s.rows.Keys && s'.nextIds == s.nextIds
            && forall q, ty, t, x :: Holds(s', q, ty, t, x) ==> Holds(s, q, ty, t, x)
  {
    if a.Relay? {
      assert forall q :: q in s.procs ==> Apply(s, a).procs[q].txs == s.procs[q].txs;
    } else if a.Transact? {
      OtherTxStepsHoldNoMore(s, a.p, a.tx, a.txStep);
    }
  }

  lemma OtherTxStepsHoldNoMore(s: State, p: int, tx: int, x: TxStep)
    requires TxEnabled(s, p, tx, x) && !x.Commit? && !x.Insert?
    ensures var s' := TxApply(s, p, tx, x);
            && s'.rows == s.rows && s'.nextIds == s.nextIds
            && forall q, ty, t, id :: Holds(s', q, ty, t, id) ==> Holds(s, q, ty, t, id)
  {
  }

  /** The table and the stream only grow, and a mark is never taken back. */
  lemma StepGrows(s: State, a: Action)
    requires FreshIds(s) && Enabled(s, a)
    ensures var s' := Apply(s, a);
            && (forall e :: e in s.rows ==> e in s'.rows && (s.rows[e].published ==> s'.rows[e].published)
                                            && s'.rows[e].notifier == s.rows[e].notifier)
            && s.log <= s'.log
            && s'.cfg == s.cfg && s.clock <= s'.clock && s'.procs.Keys == s.procs.Keys
  {
    if a.Transact? && a.txStep.Commit? {
      var open := s.procs[a.p].txs[a.tx];
      forall e | e in s.rows ensures e !in Events(open.tenant, open.ids) {
        assert e == EventId(e.tenant, e.id);
        if e in Events(open.tenant, open.ids) {
          assert Holds(s, a.p, a.tx, e.tenant, e.id);
        }
      }
    }
  }

  lemma RelayKeepsDurable(s: State, p: int, l: LoopStep)
    requires FreshIds(s) && Durable(s) && RelayEnabled(s, p, l)
    ensures Durable(RelayApply(s, p, l))
  {
    var s' := RelayApply(s, p, l);
    RelayKeepsDrainBacked(s, p, l);
    assert s'.rows.Keys == s.rows.Keys && s.log <= s'.log;
    assert forall e :: e in s.rows ==> e in s'.rows;
    assert forall e :: e in s.log ==> e in s'.log;
    forall q | q in s.procs && q != p ensures DrainBacked(s'.rows, s'.log, s'.procs[q].loop) {
      DrainBackedGrows(s.rows, s.log, s'.rows, s'.log, s.procs[q].loop);
    }
  }

  lemma TxKeepsDurable(s: State, p: int, tx: int, x: TxStep)
    requires FreshIds(s) && Durable(s) && TxEnabled(s, p, tx, x)
    ensures Durable(TxApply(s, p, tx, x))
  {
    var s' := TxApply(s, p, tx, x);
    StepGrows(s, Transact(p, tx, x));
    forall q | q in s.procs ensures s'.procs[q].loop == s.procs[q].loop
        && DrainBacked(s'.rows, s'.log, s'.procs[q].loop) {
      DrainBackedGrows(s.rows, s.log, s'.rows, s'.log, s.procs[q].loop);
    }
  }

  lemma StepKeepsDurable(s: State, a: Action)
    requires FreshIds(s) && Durable(s) && Enabled(s, a)
    ensures Durable(Apply(s, a))
  {
    match a
    case Relay(p, l) => RelayKeepsDurable(s, p, l);
    case Transact(p, tx, x) => TxKeepsDurable(s, p, tx, x);
    case Consume(c) => Consumers.StepKeepsInv(s.consumer, c);
    case _ =>
  }

  lemma FetchIsBacked(s: State, t: Tenant)
    ensures forall j :: 0 <= j < |Fetch(s.rows, t, s.cfg.batch)| ==>
              EventId(t, Fetch(s.rows, t, s.cfg.batch)[j]) in s.rows
  {
    var batch := Fetch(s.rows, t, s.cfg.batch);
    forall j | 0 <= j < |batch| ensures EventId(t, batch[j]) in s.rows {
      assert batch[j] in batch;
      assert IsPending(s.rows, EventId(t, batch[j]));
    }
  }

  lemma RelayKeepsDrainBacked(s: State, p: int, l: LoopStep)
    requires Durable(s) && RelayEnabled(s, p, l)
    ensures var s' := RelayApply(s, p, l); DrainBacked(s'.rows, s'.log, s'.procs[p].loop)
  {
    var loop := s.procs[p].loop;
    assert DrainBacked(s.rows, s.log, loop);
    match l
    case FetchBatch(_) => FetchIsBacked(s, loop.tenant);
    case Publish(_, _) =>
    case Mark(_, _) =>
    case _ => assert !HoldsBatch(RelayProc(s, p, l).loop);
  }

  lemma PublishEffect(s: State, p: int)
    requires RelayEnabled(s, p, Publish(true, true))
    ensures var l := s.procs[p].loop;
            RelayApply(s, p, Publish(true, true))
            == s.(log := s.log + [InHand(l)],
                  procs := s.procs[p := s.procs[p].(loop := l.(phase := Marking(l.phase.batch, l.phase.i)))])
  {
  }

  lemma MarkEffect(s: State, p: int)
    requires RelayEnabled(s, p, Mark(true, true))
    ensures var l := s.procs[p].loop; var next := l.phase.i + 1;
            var phase := if next < |l.phase.batch|
                then Publishing(l.phase.batch, next) else RelayProtocol.Recording(true);
            RelayApply(s, p, Mark(true, true))
            == s.(rows := MarkPublished(s.rows, InHand(l)),
                  procs := s.procs[p := s.procs[p].(loop := l.(phase := phase))])
  {
  }

  ghost predicate Safe(s: State) { FreshIds(s) && Durable(s) }

  lemma StepKeepsSafe(s: State, a: Action)
    requires Safe(s) && Enabled(s, a)
    ensures Safe(Apply(s, a))
  {
    StepKeepsFreshIds(s, a);
    StepKeepsDurable(s, a);
  }

  lemma InitialIsSafe(s: State)
    requires Initial(s)
    ensures Safe(s)
  {
  }

  lemma {:induction false} RunKeepsSafe(s: State, run: seq<Action>)
    requires Safe(s) && IsRun(s, run)
    ensures var r := After(s, run);
            && Safe(r) && s.log <= r.log && s.consumer.processed <= r.consumer.processed
            && forall e :: e in s.rows ==> e in r.rows && (s.rows[e].published ==> r.rows[e].published)
    decreases |run|
  {
    if run != [] {
      StepKeepsFreshIds(s, run[0]);
      StepKeepsDurable(s, run[0]);
      StepGrows(s, run[0]);
      if run[0].Consume? {
        Consumers.StepKeepsInv(s.consumer, run[0].a);
      }
      RunKeepsSafe(Apply(s, run[0]), run[1..]);
    }
  }

  /** No loss: once a row is committed, then whatever happens next it is either still pending, and
      so in reach of the next fetch, or in the stream; a marked row is always in the stream, and
      what is in the stream stays there. */
  lemma NoEventIsLost(s: State, run: seq<Action>, more: seq<Action>, e: EventId)
    requires Initial(s) && IsRun(s, run) && e in After(s, run).rows && IsRun(After(s, run), more)
    ensures var r := After(After(s, run), more);
            && (e in PendingEvents(r, e.tenant) || e in r.log)
            && (e in r.rows && r.rows[e].published ==> e in r.log)
            && After(s, run).log <= r.log
  {
    InitialIsSafe(s);
    RunKeepsSafe(s, run);
    RunKeepsSafe(After(s, run), more);
  }

  ghost function PendingEvents(s: State, t: Tenant): (es: set<EventId>)
    ensures forall e :: e in es <==> e.tenant == t && IsPending(s.rows, e)
  {
    Events(t, PendingIds(s.rows, t))
  }

  /** One effect: over any deliveries, duplicated or concurrent, of one event, at most one effect
      commits; exactly one has committed when some delivery has; and only for an event that some
      transaction wrote and committed and the relay published. */
  lemma OneEffectPerEvent(s: State, run: seq<Action>, e: EventId)
    requires Initial(s) && IsRun(s, run)
    ensures var r := After(s, run);
            && Consumers.Count(e, r.consumer.effects) == (if e in r.consumer.processed then 1 else 0)
            && (e in r.consumer.processed ==> e in r.log && e in r.rows)
  {
    InitialIsSafe(s);
    RunKeepsSafe(s, run);
    Consumers.CountOfDistinct(e, After(s, run).consumer.effects);
  }

  /** A delivery that commits settles its event for good: its one effect is there in every future. */
  lemma CommittedDeliveryIsFinal(s: State, run: seq<Action>, tx: int, more: seq<Action>)
    requires Initial(s) && IsRun(s, run) && tx in After(s, run).consumer.open
    requires IsRun(Apply(After(s, run), Consume(Consumers.Commit(tx))), more)
    ensures var e := After(s, run).consumer.open[tx];
            var r := After(Apply(After(s, run), Consume(Consumers.Commit(tx))), more);
            Consumers.Count(e, r.consumer.effects) == 1 && Consumers.Count(e, After(s, run).consumer.effects) == 0
  {
    InitialIsSafe(s);
    RunKeepsSafe(s, run);
    var m, a := After(s, run), Consume(Consumers.Commit(tx));
    var e := m.consumer.open[tx];
    Consumers.CountOfDistinct(e, m.consumer.effects);
    StepKeepsFreshIds(m, a);
    StepKeepsDurable(m, a);
    RunKeepsSafe(Apply(m, a), more);
    Consumers.CountOfDistinct(e, After(Apply(m, a), more).consumer.effects);
  }
}
