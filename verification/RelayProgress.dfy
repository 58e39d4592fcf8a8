/** What the relay's own next steps achieve when nothing fails, and two runs that show where its
    promises end. */
module RelayProgress {
  import opened Results
  import opened SweepSchedules
  import opened Outbox
  import opened RelayProtocol
  import opened RelaySafety
  import opened RelayOrder
  import opened RelayWake
  import Consumers

  ghost predicate OwnSteps(run: seq<Action>, p: int) {
    forall a :: a in run ==> a.Relay? && a.p == p
  }

  lemma OwnStepsJoin(a: seq<Action>, b: seq<Action>, p: int)
    requires OwnSteps(a, p) && OwnSteps(b, p)
    ensures OwnSteps(a + b, p)
  {
  }

  /** The event is in the stream and marked. */
  predicate Delivered(s: State, t: Tenant, id: int) {
    EventId(t, id) in s.log && EventId(t, id) in s.rows && s.rows[EventId(t, id)].published
  }

  predicate FromDelivered(s: State, t: Tenant, batch: seq<int>, i: nat) {
    forall j :: i <= j < |batch| ==> Delivered(s, t, batch[j])
  }

  /** Between two states of one drain: nothing but deliveries happened. */
  ghost predicate OnlyDelivered(s: State, r: State, p: int) {
    && p in s.procs && p in r.procs && r.procs[p].txs == s.procs[p].txs && r.procs[p].sched == s.procs[p].sched
    && r.rows.Keys == s.rows.Keys && r.cfg == s.cfg && r.nextIds == s.nextIds
    && forall t, id :: Delivered(s, t, id) ==> Delivered(r, t, id)
  }

  lemma TwoSteps(s: State, a: Action, b: Action)
    requires Enabled(s, a) && Enabled(Apply(s, a), b)
    ensures IsRun(s, [a, b]) && After(s, [a, b]) == Apply(Apply(s, a), b)
  {
    RunOf(Apply(s, a), b, []);
    RunOf(s, a, [b]);
    assert [b] + [] == [b] && [a] + [b] == [a, b];
  }

  lemma ThreeSteps(s: State, a: Action, b: Action, c: Action)
    requires Enabled(s, a) && Enabled(Apply(s, a), b) && Enabled(Apply(Apply(s, a), b), c)
    ensures IsRun(s, [a, b, c]) && After(s, [a, b, c]) == Apply(Apply(Apply(s, a), b), c)
  {
    TwoSteps(Apply(s, a), b, c);
    RunOf(s, a, [b, c]);
    assert [a] + [b, c] == [a, b, c];
  }

  function AfterRow(batch: seq<int>, i: nat): Phase {
    if i + 1 < |batch| then Publishing(batch, i + 1) else RelayProtocol.Recording(true)
  }

  /** One row, acknowledged and marked. */
  lemma DeliverOne(s: State, p: int) returns (run: seq<Action>)
    requires Safe(s) && p in s.procs && s.procs[p].loop.Draining? && s.procs[p].loop.phase.Publishing?
    ensures IsRun(s, run) && OwnSteps(run, p) && Safe(After(s, run))
    ensures var l := s.procs[p].loop; var r := After(s, run);
            && OnlyDelivered(s, r, p) && l.phase.i < |l.phase.batch| && Delivered(r, l.tenant, l.phase.batch[l.phase.i])
            && r.procs[p].loop == l.(phase := AfterRow(l.phase.batch, l.phase.i))
  {
    InHandIsCommitted(s, p);
    run := [Relay(p, Publish(true, true)), Relay(p, Mark(true, true))];
    OneRow(s, p);
    OneRowDelivered(s, After(s, run), p, InHand(s.procs[p].loop));
    RunKeepsSafe(s, run);
  }

  lemma OneRow(s: State, p: int)
    requires p in s.procs && s.procs[p].loop.Draining? && s.procs[p].loop.phase.Publishing?
    requires s.procs[p].loop.phase.i < |s.procs[p].loop.phase.batch| && InHand(s.procs[p].loop) in s.rows
    ensures var run := [Relay(p, Publish(true, true)), Relay(p, Mark(true, true))];
            var l := s.procs[p].loop;
            IsRun(s, run) &&
            var r := After(s, run);
            && r.log == s.log + [InHand(l)] && r.rows == MarkPublished(s.rows, InHand(l)) && r.cfg == s.cfg
            && r.nextIds == s.nextIds && p in r.procs
            && r.procs[p] == s.procs[p].(loop := l.(phase := AfterRow(l.phase.batch, l.phase.i)))
  {
    var a, b := Relay(p, Publish(true, true)), Relay(p, Mark(true, true));
    PublishEffect(s, p);
    MarkEffect(Apply(s, a), p);
    TwoSteps(s, a, b);
  }

  lemma InHandIsCommitted(s: State, p: int)
    requires Durable(s) && p in s.procs && HoldsBatch(s.procs[p].loop)
    ensures var l := s.procs[p].loop; l.phase.i < |l.phase.batch| && InHand(l) in s.rows
  {
    var l := s.procs[p].loop;
    assert DrainBacked(s.rows, s.log, l);
    assert l.phase.batch[l.phase.i] == InHand(l).id;
  }

  lemma OneRowDelivered(s: State, r: State, p: int, e: EventId)
    requires e in s.rows && p in s.procs && p in r.procs
    requires r.log == s.log + [e] && r.rows == MarkPublished(s.rows, e) && r.cfg == s.cfg && r.nextIds == s.nextIds
    requires r.procs[p].txs == s.procs[p].txs && r.procs[p].sched == s.procs[p].sched
    ensures OnlyDelivered(s, r, p) && Delivered(r, e.tenant, e.id)
  {
    assert e == EventId(e.tenant, e.id) && e in r.log;
    assert forall f :: f in s.log ==> f in r.log;
  }

  /** The rest of the batch is in the stream and marked, and the drain's outcome is to be recorded. */
  ghost predicate RestDone(s: State, r: State, p: int)
    requires p in s.procs && s.procs[p].loop.Draining? && s.procs[p].loop.phase.Publishing?
  {
    var l := s.procs[p].loop;
    && OnlyDelivered(s, r, p) && r.procs[p].loop == l.(phase := RelayProtocol.Recording(true))
    && FromDelivered(r, l.tenant, l.phase.batch, l.phase.i)
  }

  lemma DeliverRest(s: State, p: int) returns (run: seq<Action>)
    requires Safe(s) && p in s.procs && s.procs[p].loop.Draining? && s.procs[p].loop.phase.Publishing?
    ensures IsRun(s, run) && OwnSteps(run, p) && RestDone(s, After(s, run), p)
    decreases |s.procs[p].loop.phase.batch| - s.procs[p].loop.phase.i
  {
    run := DeliverOne(s, p);
    var u := After(s, run);
    if u.procs[p].loop.phase.Publishing? {
      var rest := DeliverRest(u, p);
      RunThen(s, run, rest);
      OwnStepsJoin(run, rest, p);
      OneThenRest(s, u, After(u, rest), p);
      run := run + rest;
    }
  }

  lemma OneThenRest(s: State, u: State, r: State, p: int)
    requires p in s.procs && s.procs[p].loop.Draining? && s.procs[p].loop.phase.Publishing?
    requires OnlyDelivered(s, u, p)
    requires var l := s.procs[p].loop;
             && l.phase.i + 1 < |l.phase.batch| && Delivered(u, l.tenant, l.phase.batch[l.phase.i])
             && u.procs[p].loop == l.(phase := Publishing(l.phase.batch, l.phase.i + 1))
    requires RestDone(u, r, p)
    ensures RestDone(s, r, p)
  {
  }

  /** A drain in which nothing fails: everything the fetch answers ends in the stream and marked. */
  lemma DeliverBatch(s: State, p: int) returns (run: seq<Action>)
    requires Safe(s) && p in s.procs && s.procs[p].loop.Draining? && s.procs[p].loop.phase.Fetching?
    ensures IsRun(s, run) && OwnSteps(run, p) && Safe(After(s, run))
    ensures var l := s.procs[p].loop; var r := After(s, run);
            && OnlyDelivered(s, r, p) && r.procs[p].loop.Draining? && r.procs[p].loop.phase.Recording?
            && forall id :: id in Fetch(s.rows, l.tenant, s.cfg.batch) ==> Delivered(r, l.tenant, id)
  {
    var l, a := s.procs[p].loop, Relay(p, FetchBatch(true));
    var batch := Fetch(s.rows, l.tenant, s.cfg.batch);
    var u := Apply(s, a);
    StepKeepsSafe(s, a);
    RunOn(s, [], a);
    assert [] + [a] == [a];
    run := [a];
    if batch != [] {
      var rest := DeliverRest(u, p);
      RunThen(s, [a], rest);
      OwnStepsJoin([a], rest, p);
      run := [a] + rest;
      AllFromTheStart(After(u, rest), l.tenant, batch);
    }
    RunKeepsSafe(s, run);
  }

  lemma AllFromTheStart(s: State, t: Tenant, batch: seq<int>)
    requires FromDelivered(s, t, batch, 0)
    ensures forall id :: id in batch ==> Delivered(s, t, id)
  {
    forall id | id in batch ensures Delivered(s, t, id) {
      var j :| 0 <= j < |batch| && batch[j] == id;
    }
  }

  // ----- A woken tenant is served -----

  /** From the select to the flags in hand, by a token or by a tick. */
  lemma TakesTheFlags(s: State, p: int, woken: bool) returns (run: seq<Action>)
    requires p in s.procs && s.procs[p].loop.Idle? && s.procs[p].streamReady && (woken ==> s.procs[p].token)
    ensures run == [Relay(p, if woken then Receive else Tick), Relay(p, EnsureStream(false)), Relay(p, TakeWoken)]
    ensures IsRun(s, run)
    ensures var pr, r := s.procs[p], After(s, run);
            && r.rows == s.rows && r.log == s.log && r.cfg == s.cfg && r.clock == s.clock && p in r.procs
            && r.procs[p].txs == pr.txs && r.procs[p].streamReady && r.procs[p].sched == pr.sched.Unflagged()
            && r.procs[p].token == (pr.token && !woken)
            && r.procs[p].loop == if woken then Between(WokenRest(pr.sched.woken)) else Listing(pr.sched.woken)
  {
    var a, b, c := Relay(p, if woken then Receive else Tick), Relay(p, EnsureStream(false)), Relay(p, TakeWoken);
    run := [a, b, c];
    ThreeSteps(s, a, b, c);
  }

  /** The loop's own way from a received token to the drain of a flagged tenant. */
  lemma ReceiveToDrain(s: State, p: int, t: Tenant) returns (run: seq<Action>)
    requires Safe(s) && p in s.procs && s.procs[p].loop.Idle? && s.procs[p].token && s.procs[p].streamReady
    requires t in s.procs[p].sched.woken
    ensures IsRun(s, run) && OwnSteps(run, p) && Safe(After(s, run))
    ensures var r := After(s, run);
            && r.rows == s.rows && r.cfg == s.cfg && p in r.procs && r.procs[p].loop.Draining?
            && r.procs[p].loop.tenant == t && r.procs[p].loop.phase.Fetching?
  {
    var flags := TakesTheFlags(s, p, true);
    RunOn(s, flags, Relay(p, Visit(t)));
    run := flags + [Relay(p, Visit(t))];
    RunKeepsSafe(s, run);
  }

  /** If the token is not there yet, its committer is about to send it. */
  lemma TokenComes(s: State, p: int) returns (run: seq<Action>)
    requires Safe(s) && p in s.procs && (s.procs[p].token || SignalPending(s.procs[p]))
    ensures IsRun(s, run) && |run| <= 1 && (forall a :: a in run ==> a.Transact? && a.p == p && a.txStep.Signal?)
    ensures var r := After(s, run);
            && Safe(r) && r.rows == s.rows && r.log == s.log && r.cfg == s.cfg && p in r.procs
            && r.procs[p] == s.procs[p].(token := true, txs := r.procs[p].txs)
  {
    run := [];
    if !s.procs[p].token {
      var tx :| tx in s.procs[p].txs && s.procs[p].txs[tx].Signalling?;
      var a := Transact(p, tx, Signal);
      StepKeepsSafe(s, a);
      RunOn(s, [], a);
      run := [] + [a];
      assert run == [a];
    }
  }

  /** A woken tenant gets served.  In every reachable state in which the loop is idle with its stream
      ready and the tenant flagged, the loop's own next steps - after the signal of a committer that
      is about to send it, if the token is not there - lead, with every publish acknowledged and
      every mark made, to a state in which all its next batch is in the stream and marked. */
  lemma WokenTenantIsServed(s: State, run: seq<Action>, p: int, t: Tenant)
      returns (signal: seq<Action>, next: seq<Action>)
    requires Initial(s) && IsRun(s, run) && p in After(s, run).procs
    requires var pr := After(s, run).procs[p]; pr.loop.Idle? && pr.streamReady && t in pr.sched.woken
    ensures |signal| <= 1 && (forall a :: a in signal ==>
              a.Transact? && a.p == p && a.txStep.Signal?) && OwnSteps(next, p)
    ensures var r := After(s, run);
            && IsRun(r, signal + next)
            && forall id :: id in Fetch(r.rows, t, r.cfg.batch) ==> Delivered(After(r, signal + next), t, id)
  {
    NoWakeUpIsLost(s, run, p);
    InitialIsSafe(s);
    RunKeepsSafe(s, run);
    var r := After(s, run);
    signal := TokenComes(r, p);
    var r1 := After(r, signal);
    var way := ReceiveToDrain(r1, p, t);
    var r2 := After(r1, way);
    var drain := DeliverBatch(r2, p);
    next := way + drain;
    RunThen(r1, way, drain);
    OwnStepsJoin(way, drain, p);
    RunThen(r, signal, next);
  }

  // ----- Two reachable runs -----

  const T: Tenant := "t"

  /** One process whose relay has started, with a stream. */
  function OneProcess(): State {
    var cfg := Cfg(1, 8, 10);
    State(cfg, 0, map[], map[], [], map[0 := Fresh(cfg, true)], Consumers.INITIAL)
  }

  lemma OneProcessIsInitial()
    ensures Initial(OneProcess()) && Safe(OneProcess())
  {
    InitialIsSafe(OneProcess());
  }

  /** The state with one transaction's entry replaced. */
  function WithTx(s: State, p: int, tx: int, entry: Tx): State
    requires p in s.procs
  {
    s.(procs := s.procs[p := s.procs[p].(txs := s.procs[p].txs[tx := entry])])
  }

  lemma BeginAndInsert(s: State, p: int, tx: int, t: Tenant, id: int) returns (run: seq<Action>)
    requires p in s.procs && tx !in s.procs[p].txs && NextId(s, t) <= id
    ensures IsRun(s, run) && run == [Transact(p, tx, Begin(t)), Transact(p, tx, Insert(id, true))]
    ensures After(s, run) == WithTx(s, p, tx, Open(t, {id}, true)).(nextIds := s.nextIds[t := id + 1])
  {
    run := [Transact(p, tx, Begin(t)), Transact(p, tx, Insert(id, true))];
    var u := Apply(s, run[0]);
    assert u.procs[p].txs[tx] == Open(t, {}, false) && {} + {id} == {id};
    TwoSteps(s, run[0], run[1]);
    assert u.procs[p].txs[tx := Open(t, {id}, true)] == s.procs[p].txs[tx := Open(t, {id}, true)];
    assert u.procs[p := s.procs[p].(txs := s.procs[p].txs[tx := Open(t, {id}, true)])]
        == s.procs[p := s.procs[p].(txs := s.procs[p].txs[tx := Open(t, {id}, true)])];
  }

  lemma CommitOne(s: State, p: int, tx: int, t: Tenant, id: int)
    requires p in s.procs && tx in s.procs[p].txs && s.procs[p].txs[tx] == Open(t, {id}, true)
    ensures TxApply(s, p, tx, Commit)
         == WithTx(s, p, tx, Hooking(t)).(rows := s.rows[EventId(t, id) := Row(false, Some(p))])
  {
    assert Events(t, {id}) == {EventId(t, id)};
    assert Committed(s.rows, t, {id}, Some(p)) == s.rows[EventId(t, id) := Row(false, Some(p))];
  }

  /** Two transactions draw ids 1 and 2, and the second commits. */
  lemma SecondCommitsFirst() returns (run: seq<Action>)
    ensures IsRun(OneProcess(), run)
    ensures var r := After(OneProcess(), run);
            && Safe(r) && r.log == [] && r.cfg.batch == 10 && 0 in r.procs
            && r.rows == map[EventId(T, 2) := Row(false, Some(0))]
            && 1 in r.procs[0].txs && r.procs[0].txs[1] == Open(T, {1}, true)
            && r.procs[0].loop.NotStarted? && r.procs[0].streamReady && r.procs[0].sched == New(1, 8)
  {
    var s := OneProcess();
    OneProcessIsInitial();
    var first := BeginAndInsert(s, 0, 1, T, 1);
    var u := After(s, first);
    var second := BeginAndInsert(u, 0, 2, T, 2);
    var v := After(u, second);
    RunThen(s, first, second);
    CommitOne(v, 0, 2, T, 2);
    RunOn(s, first + second, Transact(0, 2, Commit));
    run := first + second + [Transact(0, 2, Commit)];
    RunKeepsSafe(s, run);
  }

  /** A started loop's tick reaches the drain of a listed tenant it has never swept. */
  lemma TickToDrain(s: State, t: Tenant) returns (run: seq<Action>)
    requires Safe(s) && 0 in s.procs && s.procs[0].loop.NotStarted? && s.procs[0].streamReady
              && t !in s.procs[0].sched.state
    ensures IsRun(s, run) && Safe(After(s, run))
    ensures var r := After(s, run);
            && r.rows == s.rows && r.log == s.log && r.cfg == s.cfg && 0 in r.procs
            && r.procs[0].txs == s.procs[0].txs && r.procs[0].loop.Draining? && r.procs[0].loop.tenant == t
            && r.procs[0].loop.phase.Fetching?
  {
    var start := Relay(0, Start);
    RunOn(s, [], start);
    var u := Apply(s, start);
    var flags := TakesTheFlags(u, 0, false);
    RunThen(s, [] + [start], flags);
    var v := After(u, flags);
    TwoSteps(v, Relay(0, List([t])), Relay(0, Visit(t)));
    RunThen(s, [] + [start] + flags, [Relay(0, List([t])), Relay(0, Visit(t))]);
    run := [] + [start] + flags + [Relay(0, List([t])), Relay(0, Visit(t))];
    RunKeepsSafe(s, run);
  }

  /** The second transaction's event is published while the first is still open. */
  lemma SecondIsPublished() returns (run: seq<Action>)
    ensures IsRun(OneProcess(), run)
    ensures var r := After(OneProcess(), run);
            && Safe(r) && 0 in r.procs && 1 in r.procs[0].txs && r.procs[0].txs[1] == Open(T, {1}, true)
            && EventId(T, 2) in r.log && EventId(T, 1) !in r.rows
  {
    var s := OneProcess();
    var writes := SecondCommitsFirst();
    var r1 := After(s, writes);
    var way := TickToDrain(r1, T);
    RunThen(s, writes, way);
    var r2 := After(r1, way);
    assert IsPending(r2.rows, EventId(T, 2));
    assert 2 in Fetch(r2.rows, T, 10);
    var drain := DeliverBatch(r2, 0);
    RunThen(s, writes + way, drain);
    run := writes + way + drain;
    assert Delivered(After(r2, drain), T, 2);
  }

  /** Delivery order can fail: a transaction with a larger id commits first and is published, then
      the one with the smaller id commits. */
  lemma AnEventIsOvertaken() returns (s: State, run: seq<Action>)
    ensures Initial(s) && IsRun(s, run) && !LogOrdered(After(s, run).rows, After(s, run).log)
  {
    s := OneProcess();
    OneProcessIsInitial();
    var before := SecondIsPublished();
    LateRowIsBehind(After(s, before));
    RunOn(s, before, Transact(0, 1, Commit));
    run := before + [Transact(0, 1, Commit)];
  }

  lemma LateRowIsBehind(s: State)
    requires Safe(s) && 0 in s.procs && 1 in s.procs[0].txs && s.procs[0].txs[1] == Open(T, {1}, true)
    requires EventId(T, 2) in s.log && EventId(T, 1) !in s.rows
    ensures TxEnabled(s, 0, 1, Commit)
    ensures var r := TxApply(s, 0, 1, Commit); !LogOrdered(r.rows, r.log)
  {
    var r := TxApply(s, 0, 1, Commit);
    assert EventId(T, 1) in Events(T, {1}) && EventId(T, 1) in r.rows && EventId(T, 1) !in r.log;
    NotInOrder(r, EventId(T, 2), EventId(T, 1));
  }

  /** A flag can be lost to a tick: a sweep takes it, does not find its tenant among the active ones,
      and ends without having visited it.  The event stays pending and no flag is left for it: it waits
      for a sweep that lists its tenant. */
  lemma ATickDropsAFlag() returns (s: State, run: seq<Action>, e: EventId)
    ensures Initial(s) && IsRun(s, run)
    ensures var r := After(s, run);
            && 0 in r.procs && IsPending(r.rows, e) && r.rows[e].notifier == Some(0) && r.procs[0].loop.Idle?
            && r.procs[0].streamReady && r.procs[0].sched.woken == {} && r.procs[0].txs == map[]
    ensures Transact(0, 1, Hook) in run && forall t :: Relay(0, Visit(t)) !in run
  {
    s, e := OneProcess(), EventId(T, 1);
    OneProcessIsInitial();
    var writes := WriteAndWake();
    var sweep := EmptyTick(After(s, writes));
    RunThen(s, writes, sweep);
    run := writes + sweep;
    var k :| 0 <= k < |writes| && writes[k] == Transact(0, 1, Hook);
    assert run[k] == Transact(0, 1, Hook);
  }

  /** The relay starts, then one event is written and committed. */
  lemma WriteOne() returns (run: seq<Action>)
    ensures IsRun(OneProcess(), run) && forall t :: Relay(0, Visit(t)) !in run
    ensures var r := After(OneProcess(), run);
            && 0 in r.procs && r.rows == map[EventId(T, 1) := Row(false, Some(0))]
            && r.procs[0].loop.Idle? && r.procs[0].streamReady && r.procs[0].txs == map[1 := Hooking(T)]
  {
    var s, a := OneProcess(), Relay(0, Start);
    RunOn(s, [], a);
    var s1 := Apply(s, a);
    var write := BeginAndInsert(s1, 0, 1, T, 1);
    var s2 := After(s1, write);
    RunThen(s, [] + [a], write);
    CommitOne(s2, 0, 1, T, 1);
    RunOn(s, [] + [a] + write, Transact(0, 1, Commit));
    run := [] + [a] + write + [Transact(0, 1, Commit)];
  }

  /** ... and its tenant flagged and signalled. */
  lemma WriteAndWake() returns (run: seq<Action>)
    ensures IsRun(OneProcess(), run) && Transact(0, 1, Hook) in run && forall t :: Relay(0, Visit(t)) !in run
    ensures var r := After(OneProcess(), run);
            && 0 in r.procs && r.rows == map[EventId(T, 1) := Row(false, Some(0))]
            && r.procs[0].loop.Idle? && r.procs[0].streamReady && r.procs[0].txs == map[]
  {
    var write := WriteOne();
    var s := After(OneProcess(), write);
    var a, b := Transact(0, 1, Hook), Transact(0, 1, Signal);
    SignalEnds(s);
    TwoSteps(s, a, b);
    RunThen(OneProcess(), write, [a, b]);
    run := write + [a, b];
    assert run[|write|] == a;
  }

  lemma SignalEnds(s: State)
    requires 0 in s.procs && !s.procs[0].loop.NotStarted? && 1 in s.procs[0].txs
              && s.procs[0].txs == map[1 := Hooking(T)]
    ensures TxEnabled(s, 0, 1, Hook) && TxEnabled(TxApply(s, 0, 1, Hook), 0, 1, Signal)
    ensures var r := TxApply(TxApply(s, 0, 1, Hook), 0, 1, Signal);
            && r.procs.Keys == s.procs.Keys && r.rows == s.rows && r.procs[0].txs == map[]
            && r.procs[0].loop == s.procs[0].loop && r.procs[0].streamReady == s.procs[0].streamReady
  {
    var u := TxApply(s, 0, 1, Hook);
    assert u.procs[0].txs == map[1 := Signalling];
    assert TxApply(u, 0, 1, Signal).procs[0].txs == map[];
  }

  /** A tick sweep that lists no tenant. */
  lemma EmptyTick(s: State) returns (run: seq<Action>)
    requires 0 in s.procs && s.procs[0].loop.Idle? && s.procs[0].streamReady
    ensures IsRun(s, run) && forall t :: Relay(0, Visit(t)) !in run
    ensures var r := After(s, run);
            && 0 in r.procs && r.procs[0].loop.Idle? && r.procs[0].sched.woken == {} && r.rows == s.rows
            && r.procs[0].txs == s.procs[0].txs && r.procs[0].streamReady
  {
    var flags := TakesTheFlags(s, 0, false);
    var u := After(s, flags);
    TwoSteps(u, Relay(0, List([])), Relay(0, EndSweep));
    RunThen(s, flags, [Relay(0, List([])), Relay(0, EndSweep)]);
    run := flags + [Relay(0, List([])), Relay(0, EndSweep)];
  }
}
