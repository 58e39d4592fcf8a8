/** The relay's backoff over whole runs: what clean empty visits do to one tenant's wait, whatever
    everyone else does in between. */
module RelayBackoff {
  import opened SweepSchedules
  import opened Outbox
  import opened RelayProtocol
  import opened RelayWake

  /** The step neither crashes process p nor takes the tenant off its schedule, and if it fetches the
      tenant's rows, it succeeds and finds nothing. */
  ghost predicate LeavesQuiet(s: State, a: Action, p: int, t: Tenant)
    requires Enabled(s, a) && p in s.procs
  {
    && !(a.Crash? && a.p == p)
    && (a.Relay? && a.p == p && a.step.List? ==> t in a.step.tenants)
    && (a.Relay? && a.p == p && a.step.FetchBatch? && s.procs[p].loop.tenant == t ==>
          a.step.ok && PendingIds(s.rows, t) == {})
  }

  ghost predicate QuietRun(s: State, run: seq<Action>, p: int, t: Tenant)
    requires IsRun(s, run)
    decreases |run|
  {
    run != [] ==>
      && p in s.procs && LeavesQuiet(s, run[0], p, t)
      && QuietRun(Apply(s, run[0]), run[1..], p, t)
  }

  /** The step records the outcome of a visit to the tenant. */
  predicate Records(s: State, a: Action, p: int, t: Tenant) {
    a == Relay(p, Record) && p in s.procs && s.procs[p].loop.Draining? && s.procs[p].loop.tenant == t
  }

  /** How many visits to the tenant the run records, and when the last one was. */
  ghost function VisitsRecorded(s: State, run: seq<Action>, p: int, t: Tenant): nat
    requires IsRun(s, run)
    decreases |run|
  {
    if run == [] then 0
    else (if Records(s, run[0], p, t) then 1 else 0) + VisitsRecorded(Apply(s, run[0]), run[1..], p, t)
  }

  ghost function LastRecorded(s: State, run: seq<Action>, p: int, t: Tenant, before: int): int
    requires IsRun(s, run)
    decreases |run|
  {
    if run == [] then before
    else LastRecorded(Apply(s, run[0]), run[1..], p, t, if Records(s, run[0], p, t) then s.clock else before)
  }

  /** The wait after n empty visits. */
  function Wait(base: int, idleMax: int, n: nat): int {
    if idleMax <= base then base else Min(base * Pow2(n), idleMax)
  }

  /** n empty visits lie behind, the last one recorded at `at`, and no other outcome is on its way. */
  ghost predicate Waits(s: State, p: int, t: Tenant, base: int, idleMax: int, n: nat, at: int) {
    && p in s.procs && s.procs[p].sched.base == base && s.procs[p].sched.idleMax == idleMax && base >= 0
    && (n == 0 ==> AtBase(s.procs[p].sched, t))
    && (n > 0 ==>
          && t in s.procs[p].sched.state
          && s.procs[p].sched.state[t] == Sweep(Wait(base, idleMax, n), at + Wait(base, idleMax, n)))
    && (s.procs[p].loop.Draining? && s.procs[p].loop.tenant == t ==>
          s.procs[p].loop.phase.Fetching? || s.procs[p].loop.phase == RelayProtocol.Recording(false))
  }

  lemma Doubles(base: int, idleMax: int, n: nat)
    requires base >= 0
    ensures Wait(base, idleMax, n + 1)
         == if idleMax <= base then base else Min(2 * (if n == 0 then base else Wait(base, idleMax, n)), idleMax)
  {
    OnceMore(base, n);
    assert Pow2(0) == 1;
  }

  lemma RecordDoubles(s: State, p: int, t: Tenant, base: int, idleMax: int, n: nat, at: int)
    requires RelayEnabled(s, p, Record) && Waits(s, p, t, base, idleMax, n, at) && s.procs[p].loop.tenant == t
    ensures Waits(RelayApply(s, p, Record), p, t, base, idleMax, n + 1, s.clock)
  {
    Doubles(base, idleMax, n);
  }

  lemma LoopStepKeepsWaits(s: State, p: int, l: LoopStep, t: Tenant, base: int, idleMax: int, n: nat, at: int)
    requires RelayEnabled(s, p, l) && Waits(s, p, t, base, idleMax, n, at) && LeavesQuiet(s, Relay(p, l), p, t)
    requires !Records(s, Relay(p, l), p, t)
    ensures Waits(RelayApply(s, p, l), p, t, base, idleMax, n, at)
  {
    if l.FetchBatch? && s.procs[p].loop.tenant == t {
      HeadIsMember(Fetch(s.rows, t, s.cfg.batch));
    }
  }

  lemma OtherStepKeepsWaits(s: State, a: Action, p: int, t: Tenant, base: int, idleMax: int, n: nat, at: int)
    requires Enabled(s, a) && Waits(s, p, t, base, idleMax, n, at) && !((a.Relay? || a.Crash?) && a.p == p)
    ensures Waits(Apply(s, a), p, t, base, idleMax, n, at)
  {
  }

  lemma {:induction false} RunKeepsWaits(s: State, run: seq<Action>, p: int, t: Tenant,
                                         base: int, idleMax: int, n: nat, at: int)
    requires IsRun(s, run) && Waits(s, p, t, base, idleMax, n, at) && QuietRun(s, run, p, t)
    ensures Waits(After(s, run), p, t, base, idleMax, n + VisitsRecorded(s, run, p, t), LastRecorded(s, run, p, t, at))
    decreases |run|
  {
    if run != [] {
      var a := run[0];
      if Records(s, a, p, t) {
        RecordDoubles(s, p, t, base, idleMax, n, at);
        RunKeepsWaits(Apply(s, a), run[1..], p, t, base, idleMax, n + 1, s.clock);
      } else {
        if a.Relay? && a.p == p {
          LoopStepKeepsWaits(s, p, a.step, t, base, idleMax, n, at);
        } else {
          OtherStepKeepsWaits(s, a, p, t, base, idleMax, n, at);
        }
        RunKeepsWaits(Apply(s, a), run[1..], p, t, base, idleMax, n, at);
      }
    }
  }

  ghost predicate Configured(s: State) {
    forall p :: p in s.procs ==> s.procs[p].sched.base == s.cfg.base && s.procs[p].sched.idleMax == s.cfg.idleMax
  }

  lemma StepKeepsConfigured(s: State, a: Action)
    requires Configured(s) && Enabled(s, a)
    ensures Configured(Apply(s, a)) && Apply(s, a).cfg == s.cfg
  {
    if a.Relay? {
      LoopStepKeepsCadence(s, a.p, a.step);
    } else if a.Transact? {
      TxStepKeepsCadence(s, a.p, a.tx, a.txStep);
    }
  }

  lemma LoopStepKeepsCadence(s: State, p: int, l: LoopStep)
    requires RelayEnabled(s, p, l)
    ensures var before, after := s.procs[p].sched, RelayProc(s, p, l).sched;
            after.base == before.base && after.idleMax == before.idleMax
  {
  }

  lemma TxStepKeepsCadence(s: State, p: int, tx: int, x: TxStep)
    requires TxEnabled(s, p, tx, x)
    ensures var s' := TxApply(s, p, tx, x);
            && s'.procs.Keys == s.procs.Keys && s'.cfg == s.cfg
            && (forall q :: q in s.procs && q != p ==> s'.procs[q] == s.procs[q])
            && s'.procs[p].sched.base == s.procs[p].sched.base && s'.procs[p].sched.idleMax == s.procs[p].sched.idleMax
  {
  }

  /** Base and cap are the configured ones in every reachable state. */
  lemma {:induction false} CadenceIsConfigured(s: State, run: seq<Action>)
    requires (Initial(s) || Configured(s)) && IsRun(s, run)
    ensures Configured(After(s, run)) && After(s, run).cfg == s.cfg
    decreases |run|
  {
    if run != [] {
      StepKeepsConfigured(s, run[0]);
      CadenceIsConfigured(Apply(s, run[0]), run[1..]);
    }
  }

  /** The backoff, over any run.  Start from a tenant at the base cadence that is not being drained;
      let everyone do what they like, but process p neither crash nor list without the tenant, and
      every fetch of the tenant's rows succeed and find nothing.  After n recorded visits the wait is
      min(base * 2^n, idleMax), or base if the backoff is off, from the last recording on. */
  lemma EmptyVisitsBackOff(s: State, run: seq<Action>, p: int, t: Tenant)
    requires IsRun(s, run) && p in s.procs && QuietRun(s, run, p, t) && VisitsRecorded(s, run, p, t) > 0
    requires var pr := s.procs[p];
             && pr.sched.base >= 0 && (t in pr.sched.state ==> pr.sched.state[t].interval == pr.sched.base)
             && !(pr.loop.Draining? && pr.loop.tenant == t)
    ensures var base, idleMax, n := s.procs[p].sched.base, s.procs[p].sched.idleMax, VisitsRecorded(s, run, p, t);
            var r := After(s, run);
            && p in r.procs && t in r.procs[p].sched.state
            && var entry := r.procs[p].sched.state[t];
            && entry.interval == (if idleMax <= base then base else Min(base * Pow2(n), idleMax))
            && entry.next == LastRecorded(s, run, p, t, 0) + entry.interval
  {
    RunKeepsWaits(s, run, p, t, s.procs[p].sched.base, s.procs[p].sched.idleMax, 0, 0);
  }
}
