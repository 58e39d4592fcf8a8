/** The wake-up side of the relay: an event never waits out a backed-off interval, and a flag is
    never left without something that will pick it up. */
module RelayWake {
  import opened Results
  import opened SweepSchedules
  import opened Outbox
  import opened RelayProtocol

  // ----- What covers a tenant -----

  ghost predicate HookPending(pr: Proc, t: Tenant) {
    exists tx :: tx in pr.txs && pr.txs[tx] == Hooking(t)
  }

  ghost predicate SignalPending(pr: Proc) {
    exists tx :: tx in pr.txs && pr.txs[tx].Signalling?
  }

  predicate WillVisit(r: Rest, t: Tenant) {
    match r
    case WokenRest(todo) => t in todo
    case TickRest(flagged, _, list) => t in flagged && t in list
  }

  /** The current sweep took the tenant's flag and has not recorded its outcome: it is sure to
      drain it, or it is draining it with anything but an empty fetch in hand. */
  predicate InSweep(l: Loop, t: Tenant) {
    match l
    case Listing(flagged) => t in flagged
    case Between(rest) => WillVisit(rest, t)
    case Draining(u, phase, rest) => (u == t && phase != Recording(false)) || WillVisit(rest, t)
    case _ => false
  }

  predicate FoundEmpty(l: Loop, t: Tenant) {
    l.Draining? && l.tenant == t && l.phase == Recording(false)
  }

  predicate AtBase(sched: Schedule, t: Tenant) {
    t in sched.state ==> sched.state[t].interval == sched.base
  }

  /** Why an event of this tenant will not wait out a backed-off interval. */
  ghost predicate Covered(pr: Proc, t: Tenant) {
    || t in pr.sched.woken
    || HookPending(pr, t)
    || InSweep(pr.loop, t)
    || (AtBase(pr.sched, t) && !FoundEmpty(pr.loop, t))
  }

  predicate Owed(rows: Table, p: int, e: EventId) {
    IsPending(rows, e) && rows[e].notifier == Some(p)
  }

  ghost predicate ScheduleOk(s: State, pr: Proc) {
    && pr.sched.base == s.cfg.base
    && (forall t :: t in pr.sched.state ==> pr.sched.state[t].next <= s.clock + pr.sched.state[t].interval)
    && (pr.loop.NotStarted? ==> pr.sched.state == map[] && pr.sched.woken == {})
  }

  /** With the stream ready, a flag has a token in the channel, a committer about to send one, or
      a sweep that has yet to take the flags. */
  ghost predicate SignalOk(pr: Proc) {
    pr.streamReady && pr.sched.woken != {} ==>
      pr.token || SignalPending(pr) || pr.loop.Entered? || pr.loop.Ready?
  }

  /** A sweep only goes past ensureStream once the stream is there. */
  predicate ReadyOk(pr: Proc) {
    pr.streamReady || pr.loop.NotStarted? || pr.loop.Idle? || pr.loop.Entered? || pr.loop.Stopped?
  }

  ghost predicate Awake(s: State) {
    && 1 <= s.cfg.batch
    && forall p :: p in s.procs ==>
         && ScheduleOk(s, s.procs[p]) && SignalOk(s.procs[p]) && ReadyOk(s.procs[p])
         && forall e :: Owed(s.rows, p, e) ==> Covered(s.procs[p], e.tenant)
  }

  // ----- Relay steps -----

  lemma RelayKeepsScheduleOk(s: State, p: int, l: LoopStep)
    requires RelayEnabled(s, p, l) && ScheduleOk(s, s.procs[p]) && SignalOk(s.procs[p]) && ReadyOk(s.procs[p])
    ensures var pr := RelayProc(s, p, l); ScheduleOk(s, pr) && SignalOk(pr) && ReadyOk(pr)
  {
    assert RelayProc(s, p, l).txs == s.procs[p].txs;
  }

  /** The heart of the wake-up argument: while a tenant has a pending event, no step of the loop
      can leave it uncovered.  An empty outcome can only come from a fetch that found nothing. */
  lemma RelayKeepsCovered(s: State, p: int, l: LoopStep, e: EventId)
    requires RelayEnabled(s, p, l) && 1 <= s.cfg.batch && IsPending(s.rows, e)
    requires ScheduleOk(s, s.procs[p]) && Covered(s.procs[p], e.tenant)
    ensures Covered(RelayProc(s, p, l), e.tenant)
  {
    var pr, pr', t := s.procs[p], RelayProc(s, p, l), e.tenant;
    assert HookPending(pr, t) ==> HookPending(pr', t) by {
      if HookPending(pr, t) {
        var tx :| tx in pr.txs && pr.txs[tx] == Hooking(t);
        assert tx in pr'.txs;
      }
    }
    if l.FetchBatch? {
      assert e == EventId(t, e.id);
      if pr.loop.tenant == t {
        assert Fetch(s.rows, t, s.cfg.batch) != [];
      }
    }
  }

  lemma RelayKeepsAwake(s: State, p: int, l: LoopStep)
    requires Awake(s) && RelayEnabled(s, p, l)
    ensures Awake(RelayApply(s, p, l))
  {
    var s' := RelayApply(s, p, l);
    RelayKeepsScheduleOk(s, p, l);
    forall q, e | q in s'.procs && Owed(s'.rows, q, e) ensures Covered(s'.procs[q], e.tenant) {
      assert Owed(s.rows, q, e);
      if q == p {
        RelayKeepsCovered(s, p, l, e);
      }
    }
  }

  // ----- Transaction steps -----

  lemma TxKeepsProcOk(s: State, p: int, tx: int, x: TxStep)
    requires TxEnabled(s, p, tx, x) && ScheduleOk(s, s.procs[p]) && SignalOk(s.procs[p]) && ReadyOk(s.procs[p])
    ensures var pr := TxApply(s, p, tx, x).procs[p]; ScheduleOk(s, pr) && SignalOk(pr) && ReadyOk(pr)
  {
    var pr, pr' := s.procs[p], TxApply(s, p, tx, x).procs[p];
    if SignalPending(pr) && !x.Signal? {
      var ty :| ty in pr.txs && pr.txs[ty].Signalling?;
      assert ty in pr'.txs && pr'.txs[ty].Signalling?;
    }
    if x.Hook? && !pr.loop.NotStarted? {
      assert tx in pr'.txs && pr'.txs[tx].Signalling?;
    }
  }

  lemma TxKeepsCovered(s: State, p: int, tx: int, x: TxStep, t: Tenant)
    requires TxEnabled(s, p, tx, x) && ScheduleOk(s, s.procs[p]) && Covered(s.procs[p], t)
    ensures Covered(TxApply(s, p, tx, x).procs[p], t)
  {
    var pr, pr' := s.procs[p], TxApply(s, p, tx, x).procs[p];
    if HookPending(pr, t) {
      var ty :| ty in pr.txs && pr.txs[ty] == Hooking(t);
      if ty != tx || !x.Hook? {
        assert ty in pr'.txs && pr'.txs[ty] == Hooking(t);
      }
    }
  }

  lemma TxKeepsAwake(s: State, p: int, tx: int, x: TxStep)
    requires Awake(s) && TxEnabled(s, p, tx, x)
    ensures Awake(TxApply(s, p, tx, x))
  {
    var s' := TxApply(s, p, tx, x);
    TxKeepsProcOk(s, p, tx, x);
    forall q, e | q in s'.procs && Owed(s'.rows, q, e) ensures Covered(s'.procs[q], e.tenant) {
      if Owed(s.rows, q, e) {
        if q == p {
          TxKeepsCovered(s, p, tx, x, e.tenant);
        }
      } else {
        // A row this commit just made visible: its transaction is about to run the hook.
        assert x.Commit? && q == p && e.tenant == s.procs[p].txs[tx].tenant;
        assert tx in s'.procs[p].txs && s'.procs[p].txs[tx] == Hooking(e.tenant);
      }
    }
  }

  lemma StepKeepsAwake(s: State, a: Action)
    requires Awake(s) && Enabled(s, a)
    ensures Awake(Apply(s, a))
  {
    match a
    case Relay(p, l) => RelayKeepsAwake(s, p, l);
    case Transact(p, tx, x) => TxKeepsAwake(s, p, tx, x);
    case _ =>
  }

  lemma {:induction false} RunKeepsAwake(s: State, run: seq<Action>)
    requires Awake(s) && IsRun(s, run)
    ensures Awake(After(s, run))
    decreases |run|
  {
    if run != [] {
      StepKeepsAwake(s, run[0]);
      RunKeepsAwake(Apply(s, run[0]), run[1..]);
    }
  }

  // ----- Main results -----

  /** No committed event waits out a backed-off interval.  In every reachable state the tenant of
      an unpublished event whose commit notifies process p is flagged there, or about to be, or in
      the hands of the current sweep, or swept at the base cadence and due within one base
      interval. */
  lemma NoEventWaitsOutABackoff(s: State, run: seq<Action>, p: int, e: EventId)
    requires Initial(s) && IsRun(s, run) && p in After(s, run).procs
    requires Owed(After(s, run).rows, p, e)
    ensures var r := After(s, run); var pr := r.procs[p]; var t := e.tenant;
            || t in pr.sched.woken
            || (exists tx :: tx in pr.txs && pr.txs[tx] == Hooking(t))
            || InSweep(pr.loop, t)
            || (pr.sched.Due(t, r.clock + r.cfg.base)
                && (t in pr.sched.state ==> pr.sched.state[t].interval == r.cfg.base))
  {
    InitialIsAwake(s);
    RunKeepsAwake(s, run);
    assert Covered(After(s, run).procs[p], e.tenant);
  }

  lemma InitialIsAwake(s: State)
    requires Initial(s)
    ensures Awake(s)
  {
  }

  /** No wake-up is lost: once the stream is ready, a flag implies a token in the channel, a
      committer between flagging and signalling, or a sweep that has not yet taken the flags. */
  lemma NoWakeUpIsLost(s: State, run: seq<Action>, p: int)
    requires Initial(s) && IsRun(s, run) && p in After(s, run).procs
    ensures var pr := After(s, run).procs[p];
            pr.streamReady && pr.sched.woken != {} ==>
              || pr.token
              || (exists tx :: tx in pr.txs && pr.txs[tx].Signalling?)
              || pr.loop.Entered?
              || pr.loop.Ready?
  {
    InitialIsAwake(s);
    RunKeepsAwake(s, run);
  }

  lemma RelayKeepsFlags(s: State, p: int, l: LoopStep)
    requires RelayEnabled(s, p, l) && ReadyOk(s.procs[p])
    ensures var pr, pr' := s.procs[p], RelayProc(s, p, l);
            && (pr.streamReady ==> pr'.streamReady)
            && (!pr.streamReady ==> pr.sched.woken <= pr'.sched.woken)
  {
  }

  lemma TxKeepsFlags(s: State, p: int, tx: int, x: TxStep)
    requires TxEnabled(s, p, tx, x)
    ensures var pr, pr' := s.procs[p], TxApply(s, p, tx, x).procs[p];
            pr'.streamReady == pr.streamReady && pr.sched.woken <= pr'.sched.woken
  {
  }

  lemma StepKeepsFlags(s: State, a: Action, p: int)
    requires Awake(s) && Enabled(s, a) && p in s.procs && !(a.Crash? && a.p == p)
    ensures p in Apply(s, a).procs
    ensures var pr, pr' := s.procs[p], Apply(s, a).procs[p];
            && (pr.streamReady ==> pr'.streamReady)
            && (!pr.streamReady ==> pr.sched.woken <= pr'.sched.woken)
  {
    if a.Relay? && a.p == p {
      RelayKeepsFlags(s, p, a.step);
    } else if a.Transact? && a.p == p {
      TxKeepsFlags(s, p, a.tx, a.txStep);
    } else {
      assert Apply(s, a).procs[p] == s.procs[p];
    }
  }

  /** Until the stream is ready, and short of a crash, every flag survives every aborted sweep. */
  lemma {:induction false} FlagsSurviveUntilReady(s: State, run: seq<Action>, p: int)
    requires Awake(s) && IsRun(s, run) && p in s.procs
    requires forall a :: a in run ==> !(a.Crash? && a.p == p)
    requires p in After(s, run).procs && !After(s, run).procs[p].streamReady
    ensures !s.procs[p].streamReady && s.procs[p].sched.woken <= After(s, run).procs[p].sched.woken
    decreases |run|
  {
    if run != [] {
      var s' := Apply(s, run[0]);
      assert run[0] in run;
      assert forall a :: a in run[1..] ==> a in run;
      StepKeepsAwake(s, run[0]);
      StepKeepsFlags(s, run[0], p);
      FlagsSurviveUntilReady(s', run[1..], p);
    }
  }
}
