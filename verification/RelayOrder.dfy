/** First-delivery order over any number of relay replicas, crashes, lost acknowledgements and
    failed marks. */
module RelayOrder {
  import opened SweepSchedules
  import opened Outbox
  import opened RelayProtocol
  import opened RelaySafety

  /** Every visible event with a smaller id than one in the stream is in the stream before it. */
  ghost predicate LogOrdered(rows: Table, log: seq<EventId>) {
    forall k, e :: 0 <= k < |log| && e in rows && e.tenant == log[k].tenant && e.id < log[k].id ==> e in log[..k]
  }

  /** A batch in hand skips no visible event that is not already in the stream. */
  ghost predicate Gapless(rows: Table, log: seq<EventId>, l: Loop) {
    HoldsBatch(l) ==>
      && IsAscending(l.phase.batch)
      && forall x, y :: EventId(l.tenant, x) in rows && y in l.phase.batch && x <= y
           ==> x in l.phase.batch || EventId(l.tenant, x) in log
  }

  ghost predicate Orderly(s: State) {
    && FreshIds(s) && Durable(s)
    && LogOrdered(s.rows, s.log)
    && forall p :: p in s.procs ==> Gapless(s.rows, s.log, s.procs[p].loop)
  }

  lemma BatchIsVisible(rows: Table, log: seq<EventId>, l: Loop)
    requires DrainBacked(rows, log, l) && HoldsBatch(l)
    ensures forall x :: x in l.phase.batch ==> EventId(l.tenant, x) in rows
  {
    forall x | x in l.phase.batch ensures EventId(l.tenant, x) in rows {
      var j :| 0 <= j < |l.phase.batch| && l.phase.batch[j] == x;
      assert EventId(l.tenant, l.phase.batch[j]) in rows;
    }
  }

  lemma FetchIsGapless(s: State, t: Tenant)
    requires Durable(s)
    ensures var batch := Fetch(s.rows, t, s.cfg.batch);
            && IsAscending(batch)
            && forall x, y :: EventId(t, x) in s.rows && y in batch && x <= y ==> x in batch || EventId(t, x) in s.log
  {
    var batch := Fetch(s.rows, t, s.cfg.batch);
    forall x, y | EventId(t, x) in s.rows && y in batch && x <= y && x !in batch
      ensures EventId(t, x) in s.log
    {
      assert !IsPending(s.rows, EventId(t, x));
    }
  }

  lemma PublishKeepsLogOrdered(rows: Table, log: seq<EventId>, l: Loop)
    requires LogOrdered(rows, log) && HoldsBatch(l) && DrainBacked(rows, log, l) && Gapless(rows, log, l)
    ensures LogOrdered(rows, log + [InHand(l)])
  {
    var log' := log + [InHand(l)];
    forall k, e | 0 <= k < |log'| && e in rows && e.tenant == log'[k].tenant && e.id < log'[k].id
      ensures e in log'[..k]
    {
      if k < |log| {
        assert log'[..k] == log[..k];
      } else {
        assert log'[..k] == log && e == EventId(l.tenant, e.id);
        BelowIsPublished(rows, log, l, e);
      }
    }
  }

  lemma BelowIsPublished(rows: Table, log: seq<EventId>, l: Loop, e: EventId)
    requires HoldsBatch(l) && DrainBacked(rows, log, l) && Gapless(rows, log, l)
    requires e in rows && e == EventId(l.tenant, e.id) && e.id < InHand(l).id
    ensures e in log
  {
    var batch := l.phase.batch;
    assert batch[l.phase.i] in batch;
    assert e.id in batch || e in log;
    if e.id in batch {
      var j :| 0 <= j < |batch| && batch[j] == e.id;
      assert j < l.phase.i;
    }
  }

  lemma RelayKeepsGapless(s: State, p: int, l: LoopStep)
    requires Orderly(s) && RelayEnabled(s, p, l)
    ensures Gapless(s.rows, s.log, RelayApply(s, p, l).procs[p].loop)
  {
    assert Gapless(s.rows, s.log, s.procs[p].loop);
    match l
    case FetchBatch(_) => FetchIsGapless(s, s.procs[p].loop.tenant);
    case Publish(_, _) =>
    case Mark(_, _) =>
    case _ => assert !HoldsBatch(RelayProc(s, p, l).loop);
  }

  lemma GaplessGrows(rows: Table, log: seq<EventId>, rows': Table, log': seq<EventId>, l: Loop)
    requires Gapless(rows, log, l) && rows'.Keys == rows.Keys && log <= log'
    ensures Gapless(rows', log', l)
  {
    assert forall e :: e in rows' <==> e in rows;
    assert forall e :: e in log ==> e in log';
  }

  lemma RelayKeepsOrderly(s: State, p: int, l: LoopStep)
    requires Orderly(s) && RelayEnabled(s, p, l)
    ensures Orderly(RelayApply(s, p, l))
  {
    var s' := RelayApply(s, p, l);
    StepKeepsFreshIds(s, Relay(p, l));
    StepKeepsDurable(s, Relay(p, l));
    assert s'.rows.Keys == s.rows.Keys && s.log <= s'.log;
    assert LogOrdered(s'.rows, s'.log) by {
      if l.Publish? && l.appended {
        PublishKeepsLogOrdered(s.rows, s.log, s.procs[p].loop);
      }
      assert forall e :: e in s'.rows <==> e in s.rows;
    }
    forall q | q in s'.procs ensures Gapless(s'.rows, s'.log, s'.procs[q].loop) {
      if q == p {
        RelayKeepsGapless(s, p, l);
      }
      GaplessGrows(s.rows, s.log, s'.rows, s'.log, s'.procs[q].loop);
    }
  }

  lemma CommitKeepsLogOrdered(s: State, p: int, tx: int)
    requires Orderly(s) && TxEnabled(s, p, tx, Commit) && InIdOrder(s, Transact(p, tx, Commit))
    ensures LogOrdered(TxApply(s, p, tx, Commit).rows, s.log)
  {
    var rows', open := TxApply(s, p, tx, Commit).rows, s.procs[p].txs[tx];
    forall k, e | 0 <= k < |s.log| && e in rows' && e.tenant == s.log[k].tenant && e.id < s.log[k].id
      ensures e in s.log[..k]
    {
      assert s.log[k] in s.log;
      assert e in s.rows;
    }
  }

  lemma CommitKeepsGapless(s: State, p: int, tx: int, q: int)
    requires Orderly(s) && TxEnabled(s, p, tx, Commit) && InIdOrder(s, Transact(p, tx, Commit)) && q in s.procs
    ensures Gapless(TxApply(s, p, tx, Commit).rows, s.log, s.procs[q].loop)
  {
    var rows', l := TxApply(s, p, tx, Commit).rows, s.procs[q].loop;
    assert Gapless(s.rows, s.log, l);
    if HoldsBatch(l) {
      forall x, y | EventId(l.tenant, x) in rows' && y in l.phase.batch && x <= y
        ensures EventId(l.tenant, x) in s.rows
      {
        assert InSomeBatch(s, EventId(l.tenant, y));
      }
    }
  }

  lemma CommitKeepsOrderly(s: State, p: int, tx: int)
    requires Orderly(s) && TxEnabled(s, p, tx, Commit) && InIdOrder(s, Transact(p, tx, Commit))
    ensures Orderly(TxApply(s, p, tx, Commit))
  {
    var a := Transact(p, tx, Commit);
    var s' := TxApply(s, p, tx, Commit);
    StepKeepsFreshIds(s, a);
    TxKeepsDurable(s, p, tx, Commit);
    CommitKeepsLogOrdered(s, p, tx);
    forall q | q in s.procs ensures Gapless(s'.rows, s'.log, s'.procs[q].loop) {
      CommitKeepsGapless(s, p, tx, q);
      assert s'.procs[q].loop == s.procs[q].loop;
    }
  }

  lemma OtherEffect(s: State, a: Action)
    requires Enabled(s, a) && !a.Relay? && !(a.Transact? && a.txStep.Commit?)
    ensures var s' := Apply(s, a);
            && s'.rows == s.rows && s'.log == s.log && s'.procs.Keys == s.procs.Keys
            && forall q :: q in s.procs ==> s'.procs[q].loop == s.procs[q].loop || s'.procs[q].loop.NotStarted?
  {
  }

  lemma OtherKeepsOrderly(s: State, a: Action)
    requires Orderly(s) && Enabled(s, a) && !a.Relay? && !(a.Transact? && a.txStep.Commit?)
    ensures Orderly(Apply(s, a))
  {
    StepKeepsSafe(s, a);
    OtherEffect(s, a);
  }

  lemma StepKeepsOrderly(s: State, a: Action)
    requires Orderly(s) && Enabled(s, a) && InIdOrder(s, a)
    ensures Orderly(Apply(s, a))
  {
    if a.Relay? {
      RelayKeepsOrderly(s, a.p, a.step);
    } else if a.Transact? && a.txStep.Commit? {
      CommitKeepsOrderly(s, a.p, a.tx);
    } else {
      OtherKeepsOrderly(s, a);
    }
  }

  lemma {:induction false} RunKeepsOrderly(s: State, run: seq<Action>)
    requires Orderly(s) && IsRun(s, run) && IsOrderedRun(s, run)
    ensures Orderly(After(s, run))
    decreases |run|
  {
    if run != [] {
      StepKeepsOrderly(s, run[0]);
      RunKeepsOrderly(Apply(s, run[0]), run[1..]);
    }
  }

  /** First-delivery order: wherever an event stands in the stream, every visible event of its
      tenant with a smaller id stands before it. */
  lemma FirstDeliveriesAreInOrder(s: State, run: seq<Action>)
    requires Initial(s) && IsRun(s, run) && IsOrderedRun(s, run)
    ensures var r := After(s, run);
            forall k, e :: 0 <= k < |r.log| && e in r.rows && e.tenant == r.log[k].tenant && e.id < r.log[k].id
              ==> e in r.log[..k]
  {
    RunKeepsOrderly(s, run);
  }

  /** Rows becoming visible in id order is enough. */
  lemma VisibilityInIdOrderSuffices(s: State, p: int, tx: int)
    requires Durable(s) && TxEnabled(s, p, tx, Commit)
    requires forall x, id :: EventId(s.procs[p].txs[tx].tenant, x) in s.rows && id in s.procs[p].txs[tx].ids ==> x < id
    ensures InIdOrder(s, Transact(p, tx, Commit))
  {
    var open := s.procs[p].txs[tx];
    forall e: EventId, id: int | e.tenant == open.tenant && (e in s.log || InSomeBatch(s, e)) && id in open.ids
      ensures e.id < id
    {
      assert e == EventId(open.tenant, e.id);
      if e !in s.log {
        var q :| q in s.procs && HoldsBatch(s.procs[q].loop) && s.procs[q].loop.tenant == e.tenant
                 && e.id in s.procs[q].loop.phase.batch;
        var l := s.procs[q].loop;
        BatchIsVisible(s.rows, s.log, l);
      }
      assert e in s.rows;
    }
  }

  // ----- The condition is exact -----

  /** A loop left alone publishes its batch up to any index it has not passed. */
  lemma PublishUpTo(s: State, p: int, j: nat) returns (run: seq<Action>)
    requires Durable(s) && FreshIds(s)
    requires p in s.procs && HoldsBatch(s.procs[p].loop) && s.procs[p].loop.phase.i <= j < |s.procs[p].loop.phase.batch|
    ensures IsRun(s, run) && IsOrderedRun(s, run)
    ensures var l := s.procs[p].loop; var r := After(s, run);
            && EventId(l.tenant, l.phase.batch[j]) in r.log && r.rows.Keys == s.rows.Keys
            && forall e :: e in r.log ==> e in s.log || (e.tenant == l.tenant && e.id in l.phase.batch)
    decreases j - s.procs[p].loop.phase.i, s.procs[p].loop.phase.Publishing?
  {
    var l := s.procs[p].loop;
    assert DrainBacked(s.rows, s.log, l);
    if l.phase.Marking? && l.phase.i == j {
      run := [];
    } else {
      var a := Relay(p, if l.phase.Publishing? then Publish(true, true) else Mark(true, true));
      assert EventId(l.tenant, l.phase.batch[l.phase.i]) in s.rows;
      assert Enabled(s, a);
      if l.phase.Publishing? {
        PublishEffect(s, p);
      } else {
        MarkEffect(s, p);
      }
      StepKeepsSafe(s, a);
      var s' := Apply(s, a);
      var rest := PublishUpTo(s', p, j);
      run := [a] + rest;
      assert run[1..] == rest;
      assert l.phase.batch[l.phase.i] in l.phase.batch;
    }
  }

  /** From a state in order, a commit keeps first-delivery order in every future whose later
      commits are in order if and only if it is in order itself: an id below one already in the
      stream, or below one some loop is about to publish, gets overtaken. */
  lemma OrderSurvivesIffInIdOrder(s: State, p: int, tx: int)
    requires Orderly(s) && TxEnabled(s, p, tx, Commit)
    ensures var s' := TxApply(s, p, tx, Commit);
            InIdOrder(s, Transact(p, tx, Commit)) <==>
            forall run :: IsRun(s', run) && IsOrderedRun(s', run) ==>
                LogOrdered(After(s', run).rows, After(s', run).log)
  {
    var a := Transact(p, tx, Commit);
    var s', open := TxApply(s, p, tx, Commit), s.procs[p].txs[tx];
    if InIdOrder(s, a) {
      CommitKeepsOrderly(s, p, tx);
      forall run | IsRun(s', run) && IsOrderedRun(s', run)
        ensures LogOrdered(After(s', run).rows, After(s', run).log)
      {
        RunKeepsOrderly(s', run);
      }
    } else {
      var e: EventId, id: int :| e.tenant == open.tenant && (e in s.log || InSomeBatch(s, e))
          && id in open.ids && id <= e.id;
      var run := Overtaken(s, p, tx, e, id);
      assert !LogOrdered(After(s', run).rows, After(s', run).log);
    }
  }

  lemma Overtaken(s: State, p: int, tx: int, e: EventId, id: int) returns (run: seq<Action>)
    requires Orderly(s) && TxEnabled(s, p, tx, Commit)
    requires var open := s.procs[p].txs[tx];
             e.tenant == open.tenant && (e in s.log || InSomeBatch(s, e)) && id in open.ids && id <= e.id
    ensures var s' := TxApply(s, p, tx, Commit);
            IsRun(s', run) && IsOrderedRun(s', run) && !LogOrdered(After(s', run).rows, After(s', run).log)
  {
    var a := Transact(p, tx, Commit);
    var s', late := TxApply(s, p, tx, Commit), EventId(e.tenant, id);
    assert Holds(s, p, tx, e.tenant, id);
    assert late !in s.rows && late in s'.rows && s'.log == s.log;
    run := [];
    if e !in s.log {
      StepKeepsFreshIds(s, a);
      TxKeepsDurable(s, p, tx, Commit);
      var q, j := InABatch(s, e);
      assert s'.procs[q].loop == s.procs[q].loop;
      BatchIsVisible(s.rows, s.log, s.procs[q].loop);
      run := PublishUpTo(s', q, j);
    }
    var r := After(s', run);
    assert e in r.log && late !in r.log && late in r.rows;
    NotInOrder(r, e, late);
  }

  lemma InABatch(s: State, e: EventId) returns (q: int, j: nat)
    requires Durable(s) && InSomeBatch(s, e) && e !in s.log
    ensures q in s.procs && HoldsBatch(s.procs[q].loop)
    ensures var l := s.procs[q].loop;
            l.tenant == e.tenant && l.phase.i <= j < |l.phase.batch| && l.phase.batch[j] == e.id
                && DrainBacked(s.rows, s.log, l)
  {
    q :| q in s.procs && HoldsBatch(s.procs[q].loop) && s.procs[q].loop.tenant == e.tenant
         && e.id in s.procs[q].loop.phase.batch;
    var l := s.procs[q].loop;
    j :| 0 <= j < |l.phase.batch| && l.phase.batch[j] == e.id;
    assert DrainBacked(s.rows, s.log, l);
    assert e == EventId(l.tenant, l.phase.batch[j]);
  }

  lemma NotInOrder(r: State, e: EventId, late: EventId)
    requires e in r.log && late !in r.log && late in r.rows && late.tenant == e.tenant && late.id <= e.id
    ensures !LogOrdered(r.rows, r.log)
  {
    var k :| 0 <= k < |r.log| && r.log[k] == e;
    assert late != e;
    assert late !in r.log[..k];
  }
}
