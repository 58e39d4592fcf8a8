/** The relay goroutine and a committing goroutine in the shape of the source: loops and early
    returns whose every effect is a step of the protocol, with any steps of the other goroutines,
    processes, broker and consumers in between. */
module RelayLoop {
  import opened SweepSchedules
  import opened Outbox
  import opened RelayProtocol
  import opened RelaySafety

  // ----- What everyone else may do -----

  predicate OfLoop(a: Action, p: int) {
    (a.Relay? || a.Crash?) && a.p == p
  }

  predicate OfTx(a: Action, p: int, tx: int) {
    (a.Transact? && a.p == p && a.tx == tx) || (a.Crash? && a.p == p)
  }

  predicate RowsKept(rows: Table, rows': Table) {
    forall e :: e in rows ==> e in rows' && (rows[e].published ==> rows'[e].published)
  }

  /** Everything in a schedule but its flags. */
  predicate SameWaits(a: Schedule, b: Schedule) {
    b.state == a.state && b.base == a.base && b.idleMax == a.idleMax
  }

  /** What the loop of process p can rely on across steps of the others. */
  ghost predicate LoopUndisturbed(s: State, s': State, p: int) {
    && p in s.procs && p in s'.procs && s'.cfg == s.cfg
    && s'.procs[p].loop == s.procs[p].loop
    && s'.procs[p].streamReady == s.procs[p].streamReady
    && SameWaits(s.procs[p].sched, s'.procs[p].sched)
    && s.procs[p].sched.woken <= s'.procs[p].sched.woken
    && RowsKept(s.rows, s'.rows)
    && (s.procs[p].token ==> s'.procs[p].token)
  }

  lemma TxLeavesLoop(s: State, q: int, tx: int, x: TxStep, p: int)
    requires TxEnabled(s, q, tx, x) && p in s.procs
    ensures var pr, pr' := s.procs[p], TxApply(s, q, tx, x).procs[p];
            && pr'.loop == pr.loop && pr'.streamReady == pr.streamReady && SameWaits(pr.sched, pr'.sched)
            && pr.sched.woken <= pr'.sched.woken && (pr.token ==> pr'.token)
  {
  }

  lemma OneStepLeavesLoop(s: State, a: Action, p: int)
    requires Safe(s) && Enabled(s, a) && p in s.procs && !OfLoop(a, p)
    ensures Safe(Apply(s, a)) && LoopUndisturbed(s, Apply(s, a), p)
  {
    if a.Transact? {
      TxLeavesLoop(s, a.p, a.tx, a.txStep, p);
    } else {
      assert Apply(s, a).procs[p] == s.procs[p];
    }
    StepKeepsSafe(s, a);
    StepGrows(s, a);
  }

  lemma {:induction false} OthersLeaveLoop(s: State, more: seq<Action>, p: int)
    requires Safe(s) && IsRun(s, more) && p in s.procs && forall a :: a in more ==> !OfLoop(a, p)
    ensures LoopUndisturbed(s, After(s, more), p)
    decreases |more|
  {
    if more != [] {
      var s' := Apply(s, more[0]);
      assert more[0] in more && forall a :: a in more[1..] ==> a in more;
      OneStepLeavesLoop(s, more[0], p);
      OthersLeaveLoop(s', more[1..], p);
    }
  }

  /** What a transaction can rely on: its own entry, the rows it can see, and the sequence. */
  ghost predicate TxUndisturbed(s: State, s': State, p: int, tx: int) {
    && p in s.procs && p in s'.procs
    && (tx in s.procs[p].txs <==> tx in s'.procs[p].txs)
    && (tx in s.procs[p].txs ==> s'.procs[p].txs[tx] == s.procs[p].txs[tx])
    && (forall e :: e in s.rows ==> e in s'.rows && s'.rows[e].notifier == s.rows[e].notifier)
  }

  lemma TxLeavesEntry(s: State, q: int, ty: int, x: TxStep, p: int, tx: int)
    requires TxEnabled(s, q, ty, x) && p in s.procs && !(q == p && ty == tx)
    ensures var pr, pr' := s.procs[p], TxApply(s, q, ty, x).procs[p];
            (tx in pr.txs <==> tx in pr'.txs) && (tx in pr.txs ==> pr'.txs[tx] == pr.txs[tx])
  {
  }

  lemma OtherStepLeavesEntry(s: State, a: Action, p: int, tx: int)
    requires Enabled(s, a) && p in s.procs && !OfTx(a, p, tx)
    ensures var s' := Apply(s, a);
            && p in s'.procs && (tx in s.procs[p].txs <==> tx in s'.procs[p].txs)
            && (tx in s.procs[p].txs ==> s'.procs[p].txs[tx] == s.procs[p].txs[tx])
  {
    if a.Transact? {
      TxLeavesEntry(s, a.p, a.tx, a.txStep, p, tx);
    } else {
      assert Apply(s, a).procs[p].txs == s.procs[p].txs;
    }
  }

  lemma OneStepLeavesTx(s: State, a: Action, p: int, tx: int)
    requires Safe(s) && Enabled(s, a) && p in s.procs && !OfTx(a, p, tx)
    ensures Safe(Apply(s, a)) && TxUndisturbed(s, Apply(s, a), p, tx)
  {
    StepKeepsSafe(s, a);
    StepGrows(s, a);
    OtherStepLeavesEntry(s, a, p, tx);
  }

  lemma {:induction false} OthersLeaveTx(s: State, more: seq<Action>, p: int, tx: int)
    requires Safe(s) && IsRun(s, more) && p in s.procs && forall a :: a in more ==> !OfTx(a, p, tx)
    ensures TxUndisturbed(s, After(s, more), p, tx)
    decreases |more|
  {
    if more != [] {
      var s' := Apply(s, more[0]);
      assert more[0] in more && forall a :: a in more[1..] ==> a in more;
      OneStepLeavesTx(s, more[0], p, tx);
      OthersLeaveTx(s', more[1..], p, tx);
    }
  }

  // ----- What a stretch of the run did -----

  predicate IsVisit(a: Action, p: int) {
    a.Relay? && a.p == p && a.step.Visit?
  }

  /** The tenants the loop of process p has visited since the run was `from` steps long. */
  function Visits(run: seq<Action>, from: nat, p: int): set<Tenant> {
    set i | from <= i < |run| && IsVisit(run[i], p) :: run[i].step.tenant
  }

  lemma VisitsJoin(run: seq<Action>, run': seq<Action>, from: nat, p: int)
    requires run <= run' && from <= |run|
    ensures Visits(run', from, p) == Visits(run, from, p) + Visits(run', |run|, p)
  {
    forall t | t in Visits(run, from, p) ensures t in Visits(run', from, p) {
      var i :| from <= i < |run| && IsVisit(run[i], p) && run[i].step.tenant == t;
      assert run'[i] == run[i];
    }
    forall t | t in Visits(run', from, p) && t !in Visits(run', |run|, p) ensures t in Visits(run, from, p) {
      var i :| from <= i < |run'| && IsVisit(run'[i], p) && run'[i].step.tenant == t;
      assert i < |run| && run'[i] == run[i];
    }
  }

  /** Still nobody visited. */
  lemma NoVisitsJoin(run: seq<Action>, run': seq<Action>, from: nat, p: int)
    requires run <= run' && from <= |run| && Visits(run, from, p) == {} && Visits(run', |run|, p) == {}
    ensures Visits(run', from, p) == {}
  {
    VisitsJoin(run, run', from, p);
  }

  /** Nobody visited before. */
  lemma NoVisitsThen(run: seq<Action>, run': seq<Action>, from: nat, p: int)
    requires run <= run' && from <= |run| && Visits(run, from, p) == {}
    ensures Visits(run', from, p) == Visits(run', |run|, p)
  {
    VisitsJoin(run, run', from, p);
  }

  /** One more of the flagged visited. */
  lemma OneMoreVisited(run: seq<Action>, run': seq<Action>, from: nat, p: int, flagged: set<Tenant>,
      todo: set<Tenant>, t: Tenant)
    requires run <= run' && from <= |run| && t in todo && todo <= flagged
    requires Visits(run, from, p) == flagged - todo && Visits(run', |run|, p) == {t}
    ensures Visits(run', from, p) == flagged - (todo - {t})
  {
    VisitsJoin(run, run', from, p);
  }

  lemma VisitsOfOne(run: seq<Action>, a: Action, p: int)
    ensures Visits(run + [a], |run|, p) == if IsVisit(a, p) then {a.step.tenant} else {}
  {
    assert (run + [a])[|run|] == a;
  }

  lemma OthersVisitNobody(run: seq<Action>, run': seq<Action>, p: int)
    requires run <= run' && forall a :: a in run'[|run|..] ==> !OfLoop(a, p)
    ensures Visits(run', |run|, p) == {}
  {
    forall i | |run| <= i < |run'| ensures !IsVisit(run'[i], p) {
      assert run'[i] == run'[|run|..][i - |run|];
      assert run'[i] in run'[|run|..];
    }
  }

  /** Since it was `from` steps long, the run took step a, from the state `seen`. */
  ghost predicate Took(start: State, run: seq<Action>, from: nat, a: Action, seen: State) {
    exists k :: from <= k < |run| && run[k] == a && IsRun(start, run[..k]) && After(start, run[..k]) == seen
  }

  lemma TookStays(start: State, run: seq<Action>, run': seq<Action>, from: nat, a: Action, seen: State)
    requires Took(start, run, from, a, seen) && run <= run'
    ensures forall f: nat :: f <= from ==> Took(start, run', f, a, seen)
  {
    var k :| from <= k < |run| && run[k] == a && IsRun(start, run[..k]) && After(start, run[..k]) == seen;
    assert run'[..k] == run[..k] && run'[k] == a;
  }

  /** The shared world and the run that led to it. */
  class World {
    ghost const start: State
    ghost var run: seq<Action>
    var s: State

    ghost predicate Valid()
      reads this
    {
      Initial(start) && IsRun(start, run) && s == After(start, run)
    }

    constructor (s: State)
      requires Initial(s)
      ensures Valid() && this.s == s
    {
      this.start, this.run, this.s := s, [], s;
    }

    method Step(a: Action)
      requires Valid() && Enabled(s, a)
      modifies this
      ensures Valid() && run == old(run) + [a] && s == Apply(old(s), a)
      ensures Took(start, run, |old(run)|, a, old(s))
      ensures forall p :: Visits(run, |old(run)|, p) == if IsVisit(a, p) then {a.step.tenant} else {}
    {
      forall p ensures Visits(run + [a], |run|, p) == if IsVisit(a, p) then {a.step.tenant} else {} {
        VisitsOfOne(run, a, p);
      }
      assert (run + [a])[..|run|] == run && (run + [a])[|run|] == a;
      assert IsRun(s, [a]) && After(s, [a]) == Apply(s, a) by { RunOf(s, a, []); assert [a] + [] == [a]; }
      RunThen(start, run, [a]);
      s := Apply(s, a);
      run := run + [a];
    }

    /** Any number of steps of anyone but the loop of process p.  Doing nothing is one of them;
        callers know no more than the contract. */
    method OtherThanLoop(p: int)
      requires Valid()
      modifies this
      ensures Valid() && old(run) <= run
      ensures forall a :: a in run[|old(run)|..] ==> !OfLoop(a, p)
    {
    }

    method OtherThanTx(p: int, tx: int)
      requires Valid()
      modifies this
      ensures Valid() && old(run) <= run
      ensures forall a :: a in run[|old(run)|..] ==> !OfTx(a, p, tx)
    {
    }

    lemma Reachable()
      requires Valid()
      ensures Safe(s)
    {
      InitialIsSafe(start);
      RunKeepsSafe(start, run);
    }

    /** The loop is preempted. */
    method Preempt(p: int)
      requires Valid() && p in s.procs
      modifies this
      ensures Valid() && old(run) <= run && LoopUndisturbed(old(s), s, p)
      ensures Visits(run, |old(run)|, p) == {}
    {
      Reachable();
      OtherThanLoop(p);
      RunSplit(start, run, |old(run)|);
      assert run[..|old(run)|] == old(run);
      OthersLeaveLoop(old(s), run[|old(run)|..], p);
      OthersVisitNobody(old(run), run, p);
    }

    method PreemptTx(p: int, tx: int)
      requires Valid() && p in s.procs
      modifies this
      ensures Valid() && old(run) <= run && TxUndisturbed(old(s), s, p, tx)
      ensures forall i :: |old(run)| <= i < |run| ==> !OfTx(run[i], p, tx)
    {
      Reachable();
      OtherThanTx(p, tx);
      RunSplit(start, run, |old(run)|);
      assert run[..|old(run)|] == old(run);
      OthersLeaveTx(old(s), run[|old(run)|..], p, tx);
      forall i | |old(run)| <= i < |run| ensures !OfTx(run[i], p, tx) {
        assert run[i] == run[|old(run)|..][i - |old(run)|];
      }
    }
  }

  /** What a tick sweep visits of its list: the flagged tenants, and those due when it was listed. */
  function Wanted(seen: State, p: int, flagged: set<Tenant>, tenants: seq<Tenant>): set<Tenant>
    requires p in seen.procs
  {
    var state := seen.procs[p].sched.state;
    set t | t in tenants && (t in flagged || t !in state || state[t].next <= seen.clock)
  }

  /** The last step of the run is the loop's own, and its publish or mark failed. */
  predicate GaveUp(run: seq<Action>, p: int) {
    run != [] && var a := run[|run| - 1];
    a.Relay? && a.p == p && ((a.step.Publish? && !a.step.acked) || (a.step.Mark? && !a.step.ok))
  }

  predicate SameEntry(a: Schedule, b: Schedule, t: Tenant) {
    (t in a.state <==> t in b.state) && (t in a.state ==> a.state[t] == b.state[t])
  }

  /** The visit of the next tenant of the list, in terms of the state the list was made in. */
  lemma OneMoreWanted(seen: State, s: State, s': State, p: int, flagged: set<Tenant>, tenants: seq<Tenant>, i: nat)
    requires p in seen.procs && p in s.procs && p in s'.procs && i < |tenants|
    requires forall t :: t in tenants && t !in Wanted(seen, p, flagged, tenants[..i]) ==>
               SameEntry(seen.procs[p].sched, s.procs[p].sched, t)
    requires s'.procs[p].sched.state - {tenants[i]} == s.procs[p].sched.state - {tenants[i]}
    requires var t := tenants[i];
             t in flagged || s.procs[p].sched.Due(t, seen.clock) || s'.procs[p].sched.state == s.procs[p].sched.state
    ensures var t := tenants[i];
            Wanted(seen, p, flagged, tenants[..i + 1])
            == Wanted(seen, p, flagged, tenants[..i])
               + if t in flagged || s.procs[p].sched.Due(t, seen.clock) then {t} else {}
    ensures forall t :: t in tenants && t !in Wanted(seen, p, flagged, tenants[..i + 1]) ==>
              SameEntry(seen.procs[p].sched, s'.procs[p].sched, t)
  {
    var head, before, after := tenants[i], tenants[..i], tenants[..i + 1];
    assert after == before + [head] && head in tenants;
    assert head !in Wanted(seen, p, flagged, before) ==> SameEntry(seen.procs[p].sched, s.procs[p].sched, head);
    forall t | t in tenants && t !in Wanted(seen, p, flagged, after)
      ensures SameEntry(seen.procs[p].sched, s'.procs[p].sched, t)
    {
      assert t !in Wanted(seen, p, flagged, before);
      assert SameEntry(seen.procs[p].sched, s.procs[p].sched, t);
      if t != head {
        assert t in s'.procs[p].sched.state <==> t in s'.procs[p].sched.state - {head};
        assert t in s.procs[p].sched.state <==> t in s.procs[p].sched.state - {head};
        assert t in s.procs[p].sched.state ==> (s.procs[p].sched.state - {head})[t] == s.procs[p].sched.state[t];
        assert t in s'.procs[p].sched.state ==> (s'.procs[p].sched.state - {head})[t] == s'.procs[p].sched.state[t];
      }
    }
  }

  /** Steps whose outcome and enabling are the loop's own. */
  predicate Own(l: LoopStep) {
    || l.Start? || l.Tick? || l.Receive? || l.Stop? || l.TakeWoken? || l.List? || l.Visit? || l.Skip?
    || l.EndSweep? || l.Record?
  }

  lemma OwnStaysEnabled(s: State, s': State, p: int, l: LoopStep)
    requires RelayEnabled(s, p, l) && Own(l) && LoopUndisturbed(s, s', p)
    ensures RelayEnabled(s', p, l)
  {
  }

  lemma RecordMovesOne(s: State, p: int)
    requires RelayEnabled(s, p, Record)
    ensures var pr, t := s.procs[p], s.procs[p].loop.tenant;
            var after := RelayProc(s, p, Record).sched;
            var last := if t in pr.sched.state then pr.sched.state[t].interval else pr.sched.base;
            && after.state - {t} == pr.sched.state - {t} && t in after.state
            && after.base == pr.sched.base && after.idleMax == pr.sched.idleMax
            && after.state[t].interval == (if !pr.loop.phase.busy && pr.sched.idleMax > pr.sched.base
                                           then Min(2 * last, pr.sched.idleMax) else pr.sched.base)
            && after.state[t].next == s.clock + after.state[t].interval
  {
  }

  class Relay {
    const world: World
    const p: int

    constructor (world: World, p: int)
      ensures this.world == world && this.p == p
    {
      this.world, this.p := world, p;
    }

    ghost predicate At(l: Loop)
      reads this, world
    {
      world.Valid() && p in world.s.procs && world.s.procs[p].loop == l
    }

    /** The run only grew, and the loop's own part of it visited just these tenants; what a drain
        leaves alone is as it was. */
    twostate predicate Passed(ts: set<Tenant>)
      reads world
    {
      && old(world.run) <= world.run && Visits(world.run, |old(world.run)|, p) == ts
      && p in old(world.s).procs && p in world.s.procs
      && world.s.procs[p].streamReady == old(world.s).procs[p].streamReady
    }

    twostate predicate ScheduleKept()
      reads world
    {
      && p in old(world.s).procs && p in world.s.procs
      && SameWaits(old(world.s).procs[p].sched, world.s.procs[p].sched)
    }

    /** A step that the loop alone decides, after any steps of the others. */
    method Go(l: LoopStep) returns (ghost seen: State)
      requires world.Valid() && RelayEnabled(world.s, p, l) && Own(l)
      modifies world
      ensures world.Valid() && RelayEnabled(seen, p, l) && LoopUndisturbed(old(world.s), seen, p)
      ensures p in world.s.procs && world.s.procs[p] == RelayProc(seen, p, l)
      ensures old(world.run) <= world.run
      ensures Visits(world.run, |old(world.run)|, p) == if l.Visit? then {l.tenant} else {}
      ensures Took(world.start, world.run, |old(world.run)|, RelayProtocol.Relay(p, l), seen)
    {
      world.Preempt(p);
      seen := world.s;
      OwnStaysEnabled(old(world.s), seen, p, l);
      ghost var here := world.run;
      world.Step(RelayProtocol.Relay(p, l));
      NoVisitsThen(here, world.run, |old(world.run)|, p);
      TookStays(world.start, world.run, world.run, |here|, RelayProtocol.Relay(p, l), seen);
    }

    /** One read of the pending batch; an empty answer is a moment with nothing pending. */
    method Pending(t: Tenant, ghost rest: Rest) returns (ok: bool, rows: seq<int>, ghost seen: State)
      requires At(Draining(t, Fetching, rest))
      modifies world
      ensures var next := if !ok then Recording(true) else if rows == [] then Recording(false) else Publishing(rows, 0);
              At(Draining(t, next, rest))
      ensures Passed({}) && ScheduleKept()
      ensures Took(world.start, world.run, |old(world.run)|, RelayProtocol.Relay(p, FetchBatch(ok)), seen)
      ensures rows == Fetch(seen.rows, t, seen.cfg.batch) && (rows == [] <==> PendingIds(seen.rows, t) == {})
    {
      world.Preempt(p);
      CfgStays(world.start, world.run);
      ghost var here := world.run;
      ok := *;
      rows := Fetch(world.s.rows, t, world.s.cfg.batch);
      assert rows != [] ==> rows[0] in rows;
      seen := world.s;
      world.Step(RelayProtocol.Relay(p, FetchBatch(ok)));
      VisitsJoin(here, world.run, |old(world.run)|, p);
      TookStays(world.start, world.run, world.run, |here|, RelayProtocol.Relay(p, FetchBatch(ok)), seen);
    }

    /** Publishes one row; an error ends the drain as busy. */
    method PublishRow(t: Tenant, rows: seq<int>, i: nat, ghost rest: Rest) returns (ok: bool)
      requires i < |rows| && At(Draining(t, Publishing(rows, i), rest))
      modifies world
      ensures At(Draining(t, if ok then Marking(rows, i) else Recording(true), rest))
      ensures Passed({}) && ScheduleKept() && RowsKept(old(world.s.rows), world.s.rows)
      ensures !ok ==> GaveUp(world.run, p)
    {
      world.Preempt(p);
      ghost var here := world.run;
      var acked, appended := Broker(EventId(t, rows[i]));
      world.Step(RelayProtocol.Relay(p, Publish(acked, appended)));
      NoVisitsJoin(here, world.run, |old(world.run)|, p);
      ok := acked;
    }

    /** Marks the row just published; an error ends the drain as busy, whether or not the mark
        stuck. */
    method MarkRow(t: Tenant, rows: seq<int>, i: nat, ghost rest: Rest) returns (ok: bool)
      requires i < |rows| && At(Draining(t, Marking(rows, i), rest))
      modifies world
      ensures At(Draining(t, if ok && i + 1 < |rows| then Publishing(rows, i + 1) else Recording(true), rest))
      ensures Passed({}) && ScheduleKept() && RowsKept(old(world.s.rows), world.s.rows)
      ensures ok ==> Marked(t, rows[i])
      ensures !ok ==> GaveUp(world.run, p)
    {
      world.Preempt(p);
      world.Reachable();
      assert DrainBacked(world.s.rows, world.s.log, world.s.procs[p].loop);
      ghost var here := world.run;
      var marked, written := Statement();
      world.Step(RelayProtocol.Relay(p, Mark(marked, written)));
      NoVisitsJoin(here, world.run, |old(world.run)|, p);
      ok := marked;
    }

    ghost predicate Marked(t: Tenant, id: int)
      reads world
    {
      EventId(t, id) in world.s.rows && world.s.rows[EventId(t, id)].published
    }

    method DrainRow(t: Tenant, rows: seq<int>, i: nat, ghost rest: Rest) returns (ok: bool)
      requires i < |rows| && At(Draining(t, Publishing(rows, i), rest))
      modifies world
      ensures At(Draining(t, if ok && i + 1 < |rows| then Publishing(rows, i + 1) else Recording(true), rest))
      ensures Passed({}) && ScheduleKept() && RowsKept(old(world.s.rows), world.s.rows)
      ensures ok ==> Marked(t, rows[i])
      ensures !ok ==> GaveUp(world.run, p)
    {
      ok := PublishRow(t, rows, i, rest);
      if ok {
        ghost var here := world.run;
        ok := MarkRow(t, rows, i, rest);
        NoVisitsJoin(here, world.run, |old(world.run)|, p);
      }
    }

    /** Publishes a tenant's pending events in order, marking each, and stops at the first failure.
        The batch is what one fetch of the run answered, in the state `seen`; its first `sent` rows
        are marked, and if they are not all, the last step of the run failed.  It reports "not busy"
        exactly when the fetch succeeded and found nothing. */
    method Drain(t: Tenant, ghost rest: Rest)
      returns (busy: bool, ghost fetched: bool, ghost batch: seq<int>, ghost sent: nat, ghost seen: State)
      requires At(Draining(t, Fetching, rest))
      modifies world
      ensures At(Draining(t, Recording(busy), rest)) && Passed({}) && ScheduleKept()
      ensures Took(world.start, world.run, |old(world.run)|, RelayProtocol.Relay(p, FetchBatch(fetched)), seen)
      ensures batch == (if fetched then Fetch(seen.rows, t, seen.cfg.batch) else []) && sent <= |batch|
      ensures forall j :: 0 <= j < sent ==> Marked(t, batch[j])
      ensures sent < |batch| ==> GaveUp(world.run, p)
      ensures busy <==> !fetched || PendingIds(seen.rows, t) != {}
    {
      var ok, rows;
      ok, rows, seen := Pending(t, rest);
      fetched, batch, sent := ok, if ok then rows else [], 0;
      if ok && rows != [] {
        ghost var here := world.run;
        sent := DrainRows(t, rows, rest);
        NoVisitsJoin(here, world.run, |old(world.run)|, p);
        TookStays(world.start, here, world.run, |old(world.run)|, RelayProtocol.Relay(p, FetchBatch(true)), seen);
      }
      busy := !ok || |rows| > 0;
    }

    method DrainRows(t: Tenant, rows: seq<int>, ghost rest: Rest) returns (ghost sent: nat)
      requires rows != [] && At(Draining(t, Publishing(rows, 0), rest))
      modifies world
      ensures At(Draining(t, Recording(true), rest)) && Passed({}) && ScheduleKept()
      ensures sent <= |rows| && forall j :: 0 <= j < sent ==> Marked(t, rows[j])
      ensures sent < |rows| ==> GaveUp(world.run, p)
    {
      var i := 0;
      while i < |rows|
        invariant 0 <= i <= |rows|
        invariant At(Draining(t, if i < |rows| then Publishing(rows, i) else Recording(true), rest))
        invariant Passed({}) && ScheduleKept()
        invariant forall j :: 0 <= j < i ==> Marked(t, rows[j])
      {
        ghost var before := world.run;
        var ok := DrainRow(t, rows, i, rest);
        NoVisitsJoin(before, world.run, |old(world.run)|, p);
        if !ok {
          return i;
        }
        i := i + 1;
      }
      sent := i;
    }

    /** The broker's answer: it acknowledges an event it appended or already holds; without an
        acknowledgement it may have appended it all the same. */
    method Broker(e: EventId) returns (acked: bool, appended: bool)
      ensures acked && !appended ==> e in world.s.log
    {
      acked := *;
      appended := *;
      if acked && !(e in world.s.log) {
        appended := true;
      }
    }

    /** A statement's outcome: an error may hide a write that happened. */
    method Statement() returns (ok: bool, written: bool)
      ensures ok ==> written
    {
      ok := *;
      written := *;
      if ok {
        written := true;
      }
    }

    /** Drains and records.  A fetch, from the state `seen`, that succeeded and found nothing doubles
        the tenant's wait up to idleMax, if that is above base; anything else brings it back to base.
        The next instant is the recording one, in the state `at`, plus the wait.  No other tenant's
        schedule moves. */
    method SweepTenant(t: Tenant, ghost rest: Rest) returns (ghost fetched: bool, ghost seen: State, ghost at: State)
      requires At(Draining(t, Fetching, rest))
      modifies world
      ensures At(Between(rest)) && Passed({})
      ensures OthersScheduleKept(old(world.s), world.s, t)
      ensures Took(world.start, world.run, |old(world.run)|, RelayProtocol.Relay(p, FetchBatch(fetched)), seen)
      ensures Took(world.start, world.run, |old(world.run)|, RelayProtocol.Relay(p, Record), at)
      ensures var before, after := old(world.s.procs[p].sched), world.s.procs[p].sched;
              var last := if t in before.state then before.state[t].interval else before.base;
              var quiet := fetched && PendingIds(seen.rows, t) == {};
              && after.base == before.base && after.idleMax == before.idleMax && t in after.state
              && after.state[t].interval == (if quiet && before.idleMax > before.base then Min(2 * last, before.idleMax)
                                             else before.base)
              && after.state[t].next == at.clock + after.state[t].interval
    {
      var busy;
      ghost var batch, sent;
      busy, fetched, batch, sent, seen := Drain(t, rest);
      ghost var here := world.run;
      at := Go(Record);
      RecordMovesOne(at, p);
      NoVisitsJoin(here, world.run, |old(world.run)|, p);
      TookStays(world.start, here, world.run, |old(world.run)|, RelayProtocol.Relay(p, FetchBatch(fetched)), seen);
      TookStays(world.start, world.run, world.run, |here|, RelayProtocol.Relay(p, Record), at);
    }

    ghost predicate OthersScheduleKept(s: State, s': State, t: Tenant) {
      p in s.procs && p in s'.procs && s'.procs[p].sched.state - {t} == s.procs[p].sched.state - {t}
    }

    /** Nobody is left to visit. */
    method End(ghost rest: Rest)
      requires NobodyLeft(rest) && At(Between(rest))
      modifies world
      ensures At(Idle) && Passed({})
    {
      ghost var _ := Go(EndSweep);
    }

    /** One sweep.  The stream is ready afterwards exactly if it was or was `created` now.  Until then
        the sweep gives up, leaving every flag in place and visiting nobody.  Otherwise it takes the
        flags, in the state `took`.  Woken, it visits exactly the flagged tenants.  On a tick it lists
        some tenants, in the state `seen`, and visits exactly those of the list that are flagged or
        due: a flag of a tenant not listed is dropped. */
    method Sweep(woken: bool)
      returns (created: bool, ghost took: State, ghost seen: State, ghost listed: seq<Tenant>)
      requires At(Entered(woken))
      modifies world
      ensures At(Idle) && old(world.run) <= world.run
      ensures world.s.procs[p].streamReady <==> old(world.s.procs[p].streamReady) || created
      ensures var pr := world.s.procs[p];
              if pr.streamReady then SweptFrom(woken, |old(world.run)|, took, seen, listed)
                                     && old(world.s.procs[p].sched.woken) <= took.procs[p].sched.woken
              else old(world.s.procs[p].sched.woken) <= pr.sched.woken && Visits(world.run, |old(world.run)|, p) == {}
    {
      world.Preempt(p);
      created := *;
      ghost var here := world.run;
      world.Step(RelayProtocol.Relay(p, EnsureStream(created)));
      NoVisitsJoin(here, world.run, |old(world.run)|, p);
      took, seen, listed := world.s, world.s, [];
      if !world.s.procs[p].loop.Idle? {
        ghost var ready := world.run;
        took, seen, listed := SweepReady(woken);
        SweptSince(woken, ready, |old(world.run)|, took, seen, listed);
      }
    }

    /** Since the run was `from` steps long, the loop took the flags in one state, on a tick listed
        tenants in another, and visited exactly what it should. */
    ghost predicate SweptFrom(woken: bool, from: nat, took: State, seen: State, listed: seq<Tenant>)
      reads world
    {
      && p in took.procs && p in seen.procs
      && Took(world.start, world.run, from, RelayProtocol.Relay(p, TakeWoken), took)
      && var flagged := took.procs[p].sched.woken;
         if woken then Visits(world.run, from, p) == flagged
         else Took(world.start, world.run, from, RelayProtocol.Relay(p, List(listed)), seen)
              && Visits(world.run, from, p) == Wanted(seen, p, flagged, listed)
    }

    lemma SweptSince(woken: bool, ready: seq<Action>, from: nat, took: State, seen: State, listed: seq<Tenant>)
      requires ready <= world.run && from <= |ready| && Visits(ready, from, p) == {}
      requires SweptFrom(woken, |ready|, took, seen, listed)
      ensures SweptFrom(woken, from, took, seen, listed)
    {
      VisitsJoin(ready, world.run, from, p);
      TookStays(world.start, world.run, world.run, |ready|, RelayProtocol.Relay(p, TakeWoken), took);
      if !woken {
        TookStays(world.start, world.run, world.run, |ready|, RelayProtocol.Relay(p, List(listed)), seen);
      }
    }

    method SweepReady(woken: bool) returns (ghost took: State, ghost seen: State, ghost listed: seq<Tenant>)
      requires At(Ready(woken)) && world.s.procs[p].streamReady
      modifies world
      ensures At(Idle) && old(world.run) <= world.run && world.s.procs[p].streamReady
      ensures SweptFrom(woken, |old(world.run)|, took, seen, listed)
      ensures old(world.s.procs[p].sched.woken) <= took.procs[p].sched.woken
    {
      took := Go(TakeWoken);
      seen, listed := took, [];
      ghost var there := world.run;
      if woken {
        VisitFlagged(world.s.procs[p].loop.rest.todo);
      } else {
        var tenants: seq<Tenant> := *;
        listed := tenants;
        seen := VisitListed(world.s.procs[p].loop.flagged, tenants);
        TookStays(world.start, world.run, world.run, |there|, RelayProtocol.Relay(p, List(tenants)), seen);
      }
      NoVisitsThen(there, world.run, |old(world.run)|, p);
      TookStays(world.start, there, world.run, |old(world.run)|, RelayProtocol.Relay(p, TakeWoken), took);
    }

    method VisitOne(t: Tenant, todo: set<Tenant>)
      requires t in todo && At(Between(WokenRest(todo)))
      modifies world
      ensures At(Between(WokenRest(todo - {t}))) && Passed({t})
    {
      ghost var _ := Go(Visit(t));
      ghost var here := world.run;
      var _, _, _ := SweepTenant(t, WokenRest(todo - {t}));
      VisitsJoin(here, world.run, |old(world.run)|, p);
    }

    method VisitFlagged(flagged: set<Tenant>)
      requires At(Between(WokenRest(flagged)))
      modifies world
      ensures At(Idle) && Passed(flagged)
    {
      var todo := flagged;
      while todo != {}
        invariant todo <= flagged && At(Between(WokenRest(todo))) && Passed(flagged - todo)
        decreases |todo|
      {
        var t :| t in todo;
        ghost var before := world.run;
        VisitOne(t, todo);
        OneMoreVisited(before, world.run, |old(world.run)|, p, flagged, todo, t);
        todo := todo - {t};
      }
      ghost var done := world.run;
      End(WokenRest(todo));
      VisitsJoin(done, world.run, |old(world.run)|, p);
    }

    /** The head of the list: swept when it was flagged or is due, passed over otherwise. */
    method VisitHead(flagged: set<Tenant>, now: int, list: seq<Tenant>)
      requires list != [] && At(Between(TickRest(flagged, now, list)))
      modifies world
      ensures At(Between(TickRest(flagged, now, list[1..])))
      ensures Passed(if list[0] in flagged || old(world.s.procs[p].sched).Due(list[0], now) then {list[0]} else {})
      ensures OthersScheduleKept(old(world.s), world.s, list[0])
      ensures list[0] !in Visits(world.run, |old(world.run)|, p) ==> ScheduleKept()
    {
      if list[0] in flagged || world.s.procs[p].sched.Due(list[0], now) {
        ghost var _ := Go(Visit(list[0]));
        ghost var here := world.run;
        var _, _, _ := SweepTenant(list[0], TickRest(flagged, now, list[1..]));
        VisitsJoin(here, world.run, |old(world.run)|, p);
      } else {
        ghost var _ := Go(Skip);
      }
    }

    method VisitListed(flagged: set<Tenant>, tenants: seq<Tenant>) returns (ghost seen: State)
      requires At(Listing(flagged))
      modifies world
      ensures At(Idle) && p in seen.procs && Passed(Wanted(seen, p, flagged, tenants))
      ensures Took(world.start, world.run, |old(world.run)|, RelayProtocol.Relay(p, List(tenants)), seen)
    {
      seen := Go(List(tenants));
      ghost var here := world.run;
      VisitAll(flagged, world.s.procs[p].loop.rest.now, tenants, seen);
      NoVisitsThen(here, world.run, |old(world.run)|, p);
      TookStays(world.start, here, world.run, |old(world.run)|, RelayProtocol.Relay(p, List(tenants)), seen);
    }

    method VisitAll(flagged: set<Tenant>, now: int, tenants: seq<Tenant>, ghost seen: State)
      requires At(Between(TickRest(flagged, now, tenants))) && p in seen.procs && now == seen.clock
      requires forall t :: t in tenants ==> SameEntry(seen.procs[p].sched, world.s.procs[p].sched, t)
      modifies world
      ensures At(Idle) && Passed(Wanted(seen, p, flagged, tenants))
    {
      var i := 0;
      assert tenants[0..] == tenants;
      while i < |tenants|
        invariant 0 <= i <= |tenants|
        invariant At(Between(TickRest(flagged, now, tenants[i..]))) && Passed(Wanted(seen, p, flagged, tenants[..i]))
        invariant forall t :: t in tenants && t !in Wanted(seen, p, flagged, tenants[..i]) ==>
                    SameEntry(seen.procs[p].sched, world.s.procs[p].sched, t)
      {
        ghost var before, was := world.run, world.s;
        VisitHead(flagged, now, tenants[i..]);
        VisitsJoin(before, world.run, |old(world.run)|, p);
        assert tenants[i..][1..] == tenants[i + 1..];
        OneMoreWanted(seen, was, world.s, p, flagged, tenants, i);
        i := i + 1;
      }
      ghost var done := world.run;
      assert tenants[..i] == tenants && tenants[i..] == [];
      End(TickRest(flagged, now, []));
      VisitsJoin(done, world.run, |old(world.run)|, p);
    }

    /** The select loop, for as many turns as come before the context ends.  A turn without a tick
        waits for the token. */
    method Run(turns: nat)
      requires At(NotStarted)
      modifies world
      ensures At(Stopped) && old(world.run) <= world.run
    {
      ghost var _ := Go(Start);
      for turn := 0 to turns
        invariant At(Idle) && old(world.run) <= world.run
      {
        world.Preempt(p);
        var ticked: bool := *;
        if ticked {
          Turn(false);
        } else if world.s.procs[p].token {
          Turn(true);
        }
      }
      ghost var _ := Go(Stop);
    }

    method Turn(woken: bool)
      requires At(Idle) && (woken ==> world.s.procs[p].token)
      modifies world
      ensures At(Idle) && old(world.run) <= world.run
    {
      ghost var _ := Go(if woken then Receive else Tick);
      var _, _, _, _ := Sweep(woken);
    }
  }

  lemma {:induction false} CfgStays(s: State, run: seq<Action>)
    requires IsRun(s, run)
    ensures After(s, run).cfg == s.cfg
    decreases |run|
  {
    if run != [] {
      CfgStays(Apply(s, run[0]), run[1..]);
    }
  }
}
