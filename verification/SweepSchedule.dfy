/** The relay's per-tenant cadence (outbox/schedule.go): how long a tenant waits between two
    sweeps, and which tenants a commit has flagged.  Durations and instants are integers. */
module SweepSchedules {

  type Tenant = string

  datatype Sweep = Sweep(interval: int, next: int)

  function Min(a: int, b: int): int { if a <= b then a else b }

  /** The value a schedule object holds.  The relay protocol steps through these functions; the
      class below is proved against them. */
  datatype Schedule = Schedule(base: int, idleMax: int, state: map<Tenant, Sweep>, woken: set<Tenant>)
  {
    /** A tenant never swept is due. */
    predicate Due(t: Tenant, now: int) {
      t !in state || state[t].next <= now
    }

    function IntervalAfter(t: Tenant, busy: bool): int {
      if busy || idleMax <= base then base
      else Min((if t in state then state[t].interval else base) * 2, idleMax)
    }

    function Done(t: Tenant, busy: bool, now: int): Schedule {
      this.(state := state[t := Sweep(IntervalAfter(t, busy), now + IntervalAfter(t, busy))])
    }

    function Wake(t: Tenant): Schedule {
      this.(woken := woken + {t})
    }

    function Unflagged(): Schedule {
      this.(woken := {})
    }

    function Prune(active: seq<Tenant>): Schedule {
      this.(state := map t | t in state && t in active :: state[t])
    }
  }

  function New(base: int, idleMax: int): Schedule { Schedule(base, idleMax, map[], {}) }

  /** The schedule object: two maps updated in place. */
  class SweepSchedule {
    const base: int
    const idleMax: int
    var state: map<Tenant, Sweep>
    var woken: set<Tenant>

    ghost function Value(): Schedule
      reads this
    {
      Schedule(base, idleMax, state, woken)
    }

    constructor (base: int, idleMax: int)
      ensures Value() == New(base, idleMax)
    {
      this.base, this.idleMax := base, idleMax;
      state, woken := map[], {};
    }

    method Due(t: Tenant, now: int) returns (due: bool)
      ensures due <==> t !in state || state[t].next <= now
    {
      if t !in state {
        return true;
      }
      due := !(now < state[t].next);
    }

    method Done(t: Tenant, busy: bool, now: int)
      modifies this
      ensures Value() == old(Value()).Done(t, busy, now)
    {
      var interval := base;
      if t in state {
        interval := state[t].interval;
      }
      if busy || idleMax <= base {
        interval := base;
      } else {
        interval := Min(interval * 2, idleMax);
      }
      state := state[t := Sweep(interval, now + interval)];
    }

    method Wake(t: Tenant)
      modifies this
      ensures Value() == old(Value()).Wake(t)
      ensures woken == old(woken) + {t} && state == old(state)
    {
      woken := woken + {t};
    }

    /** Hands out the flagged tenants and clears them. */
    method TakeWoken() returns (out: set<Tenant>)
      modifies this
      ensures out == old(woken)
      ensures Value() == old(Value()).Unflagged()
      ensures woken == {} && state == old(state)
    {
      out := woken;
      woken := {};
    }

    /** Deletes, key by key, the tenants that are no longer swept. */
    method Prune(active: seq<Tenant>)
      modifies this
      ensures Value() == old(Value()).Prune(active)
      ensures woken == old(woken)
      ensures forall t :: t in state <==> t in old(state) && t in active
      ensures forall t :: t in state ==> state[t] == old(state)[t]
    {
      var keys := state.Keys;
      while keys != {}
        invariant keys <= old(state.Keys)
        invariant woken == old(woken)
        invariant forall t :: t in state <==> t in old(state) && (t in keys || t in active)
        invariant forall t :: t in state ==> state[t] == old(state[t])
        decreases |keys|
      {
        var t :| t in keys;
        keys := keys - {t};
        if t !in active {
          state := state - {t};
        }
      }
      assert state == old(Value()).Prune(active).state;
    }
  }

  // ----- What a run of outcomes does to one tenant's wait -----

  function Pow2(n: nat): nat { if n == 0 then 1 else 2 * Pow2(n - 1) }

  /** The schedule after sweeps of `t` with the given outcomes, each recorded at its instant. */
  function AfterSweeps(s: Schedule, t: Tenant, outcomes: seq<(bool, int)>): Schedule
  {
    if outcomes == [] then s
    else AfterSweeps(s, t, outcomes[..|outcomes| - 1]).Done(t, outcomes[|outcomes| - 1].0, outcomes[|outcomes| - 1].1)
  }

  lemma OnceMore(base: int, n: nat)
    ensures base * Pow2(n + 1) == 2 * (base * Pow2(n))
  {
  }

  /** After a busy sweep, or from a tenant never swept, n empty sweeps in a row wait
      min(base * 2^n, idleMax); with the backoff off the wait is always base. */
  lemma {:induction false} BackoffDoublesUpToTheCap(s: Schedule, t: Tenant, empties: seq<(bool, int)>)
    requires t !in s.state || s.state[t].interval == s.base
    requires empties != [] && forall o :: o in empties ==> !o.0
    requires 0 <= s.base
    ensures var r := AfterSweeps(s, t, empties);
            && r.base == s.base && r.idleMax == s.idleMax && t in r.state
            && r.state[t].interval == (if s.idleMax <= s.base then s.base
                                       else Min(s.base * Pow2(|empties|), s.idleMax))
            && r.state[t].next == empties[|empties| - 1].1 + r.state[t].interval
  {
    var init := empties[..|empties| - 1];
    assert empties == init + [empties[|init|]];
    assert !empties[|init|].0;
    if init == [] {
      assert AfterSweeps(s, t, init) == s;
      assert Pow2(1) == 2;
    } else {
      forall o | o in init ensures !o.0 { assert o in empties; }
      BackoffDoublesUpToTheCap(s, t, init);
      OnceMore(s.base, |init|);
    }
  }

  /** Whatever happened before, one busy sweep brings a tenant back to the base cadence, and no
      sweep of one tenant moves another. */
  lemma {:induction false} SweepsOfOneTenantOnly(s: Schedule, t: Tenant, outcomes: seq<(bool, int)>)
    ensures var r := AfterSweeps(s, t, outcomes);
            && r.base == s.base && r.idleMax == s.idleMax && r.woken == s.woken
            && (forall u :: u != t ==> (u in r.state <==> u in s.state) && (u in s.state ==> r.state[u] == s.state[u]))
            && (outcomes != [] && outcomes[|outcomes| - 1].0 ==> t in r.state && r.state[t].interval == s.base)
  {
    if outcomes != [] {
      SweepsOfOneTenantOnly(s, t, outcomes[..|outcomes| - 1]);
    }
  }
}
