/** Eviction against the history of gets: the registry keeps its tenants in the order in which they
    were last used, whatever their stamps say, so what it evicts was used before what it keeps. */
module PoolHistory {
  import opened PoolProtocol

  /** A use: its position in the run, and the instant. */
  datatype Use = Use(step: nat, at: int)

  /** The tenant a step uses: a foreground hit, a foreground get that finds its tenant registered
      meanwhile, or a registration, foreground or not. */
  function UsedBy(s: State, a: Action): set<string> {
    match a
    case Hit(t, touch) => if touch then {t} else {}
    case Register(g) =>
      if g in s.getters
         && (s.getters[g].touch
             || forall i :: 0 <= i < |s.registry| ==> s.registry[i].tenant != s.getters[g].tenant)
      then {s.getters[g].tenant} else {}
    case _ => {}
  }

  /** The history with one more step of the run. */
  function Noted(s: State, a: Action, h: map<string, Use>, n: nat): map<string, Use> {
    h + map t | t in UsedBy(s, a) :: Use(n, s.clock)
  }

  /** Every tenant's last use, from a state on in which the run is n steps long. */
  ghost function LastUses(s: State, run: seq<Action>, h: map<string, Use>, n: nat): map<string, Use>
    requires IsRun(s, run)
    decreases |run|
  {
    if run == [] then h else LastUses(Apply(s, run[0]), run[1..], Noted(s, run[0], h, n), n + 1)
  }

  /** Every registered tenant is stamped with its last use, and the list goes back in time. */
  ghost predicate InUseOrder(q: seq<Entry>, h: map<string, Use>, n: nat) {
    && (forall i :: 0 <= i < |q| ==> q[i].tenant in h && h[q[i].tenant].step < n && q[i].lastUsed == h[q[i].tenant].at)
    && forall i, j :: 0 <= i < j < |q| ==> h[q[i].tenant].step > h[q[j].tenant].step
  }

  lemma NothingUsed(q: seq<Entry>, h: map<string, Use>, n: nat)
    requires InUseOrder(q, h, n)
    ensures InUseOrder(q, h, n + 1) && h + map[] == h
  {
  }

  /** The tenant used comes first, the others behind it in their order. */
  lemma UsedComesFirst(q: seq<Entry>, rest: seq<Entry>, h: map<string, Use>, n: nat, e: Entry)
    requires InUseOrder(rest, h, n) && forall i :: 0 <= i < |rest| ==> rest[i].tenant != e.tenant
    ensures InUseOrder([e] + rest, h[e.tenant := Use(n, e.lastUsed)], n + 1)
  {
    var r, h' := [e] + rest, h[e.tenant := Use(n, e.lastUsed)];
    forall i | 0 <= i < |r|
      ensures r[i].tenant in h' && h'[r[i].tenant].step < n + 1 && r[i].lastUsed == h'[r[i].tenant].at
      ensures i > 0 ==> r[i] == rest[i - 1] && h'[r[i].tenant] == h[rest[i - 1].tenant]
    {
      assert i > 0 ==> r[i] == rest[i - 1];
    }
  }

  /** Some of the entries, in their order. */
  ghost predicate Picks(q: seq<Entry>, r: seq<Entry>, at: seq<nat>) {
    && |at| == |r| && (forall i :: 0 <= i < |r| ==> at[i] < |q| && r[i] == q[at[i]])
    && forall i, j :: 0 <= i < j < |r| ==> at[i] < at[j]
  }

  lemma PicksStayInOrder(q: seq<Entry>, r: seq<Entry>, at: seq<nat>, h: map<string, Use>, n: nat)
    requires InUseOrder(q, h, n) && Picks(q, r, at)
    ensures InUseOrder(r, h, n)
  {
  }

  lemma WithoutOne(q: seq<Entry>, k: nat, h: map<string, Use>, n: nat)
    requires InUseOrder(q, h, n) && k < |q|
    ensures InUseOrder(q[..k] + q[k + 1..], h, n)
  {
    var r := q[..k] + q[k + 1..];
    var at := seq(|r|, i requires 0 <= i < |r| => if i < k then i else i + 1);
    PicksStayInOrder(q, r, at, h, n);
  }

  lemma {:induction false} ReapedStaysInOrder(q: seq<Entry>, now: int, idleClose: int, busy: set<int>,
                                              h: map<string, Use>, n: nat)
    requires InUseOrder(q, h, n)
    ensures InUseOrder(Reaped(q, now, idleClose, busy), h, n)
    ensures forall e :: e in Reaped(q, now, idleClose, busy) ==> e in q
  {
    if q != [] {
      var init, last := q[..|q| - 1], q[|q| - 1];
      ReapedStaysInOrder(init, now, idleClose, busy, h, n);
      var rest := Reaped(init, now, idleClose, busy);
      forall i | 0 <= i < |rest| ensures h[rest[i].tenant].step > h[last.tenant].step {
        assert rest[i] in rest;
        var k :| 0 <= k < |init| && init[k] == rest[i];
        assert q[k] == rest[i];
      }
    }
  }

  lemma HitStaysInOrder(q: seq<Entry>, t: string, now: int, h: map<string, Use>, n: nat)
    requires InUseOrder(q, h, n) && TenantsDistinct(q) && Find(q, t) >= 0
    ensures InUseOrder(LookedUp(q, t, true, now), h[t := Use(n, now)], n + 1)
  {
    var k := Find(q, t);
    HitLeads(q, t, true, now);
    var rest, e := q[..k] + q[k + 1..], Entry(t, q[k].pool, now);
    WithoutOne(q, k, h, n);
    forall i | 0 <= i < |rest| ensures rest[i].tenant != t {
      assert rest[i] == q[if i < k then i else i + 1];
    }
    UsedComesFirst(q, rest, h, n, e);
    assert [e] + rest == LookedUp(q, t, true, now);
  }

  lemma NewStaysInOrder(q: seq<Entry>, e: Entry, limit: nat, h: map<string, Use>, n: nat)
    requires InUseOrder(q, h, n) && forall i :: 0 <= i < |q| ==> q[i].tenant != e.tenant
    ensures InUseOrder(Evicted([e] + q, limit), h[e.tenant := Use(n, e.lastUsed)], n + 1)
  {
    UsedComesFirst(q, q, h, n, e);
  }

  lemma StepKeepsUseOrder(s: State, a: Action, h: map<string, Use>, n: nat)
    requires Conserved(s) && InUseOrder(s.registry, h, n) && Enabled(s, a)
    ensures InUseOrder(Apply(s, a).registry, Noted(s, a, h, n), n + 1)
  {
    NothingUsed(s.registry, h, n);
    if a.Register? {
      RegisterKeepsUseOrder(s, a.g, h, n);
    } else if a.ReapIdle? {
      ReapedStaysInOrder(s.registry, s.clock, s.idleClose, a.busy, h, n + 1);
    } else if a.Hit? && a.touch {
      HitStaysInOrder(s.registry, a.tenant, s.clock, h, n);
      assert Noted(s, a, h, n) == h[a.tenant := Use(n, s.clock)];
    } else {
      UnusedKeepsUseOrder(s, a, h, n);
    }
  }

  lemma UnusedKeepsUseOrder(s: State, a: Action, h: map<string, Use>, n: nat)
    requires InUseOrder(s.registry, h, n + 1) && Enabled(s, a)
    requires !a.Register? && !a.ReapIdle? && !(a.Hit? && a.touch)
    ensures InUseOrder(Apply(s, a).registry, Noted(s, a, h, n), n + 1)
  {
    assert Noted(s, a, h, n) == h;
  }

  lemma RegisterKeepsUseOrder(s: State, g: int, h: map<string, Use>, n: nat)
    requires Conserved(s) && InUseOrder(s.registry, h, n) && Enabled(s, Register(g))
    ensures InUseOrder(Apply(s, Register(g)).registry, Noted(s, Register(g), h, n), n + 1)
  {
    var x := s.getters[g];
    NothingUsed(s.registry, h, n);
    if Find(s.registry, x.tenant) < 0 {
      NewStaysInOrder(s.registry, Entry(x.tenant, x.pool, s.clock), s.limit, h, n);
      assert Noted(s, Register(g), h, n) == h[x.tenant := Use(n, s.clock)];
    } else if x.touch {
      HitStaysInOrder(s.registry, x.tenant, s.clock, h, n);
      assert Noted(s, Register(g), h, n) == h[x.tenant := Use(n, s.clock)];
    } else {
      assert s.registry[Find(s.registry, x.tenant)].tenant == x.tenant;
      assert UsedBy(s, Register(g)) == {};
    }
  }

  lemma {:induction false} RunKeepsUseOrder(s: State, run: seq<Action>, h: map<string, Use>, n: nat)
    requires Conserved(s) && ByRecency(s.registry, s.clock) && InUseOrder(s.registry, h, n) && IsRun(s, run)
    ensures InUseOrder(After(s, run).registry, LastUses(s, run, h, n), n + |run|)
    decreases |run|
  {
    if run != [] {
      StepKeepsUseOrder(s, run[0], h, n);
      StepKeepsConserved(s, run[0]);
      StepKeepsByRecency(s, run[0]);
      RunKeepsUseOrder(Apply(s, run[0]), run[1..], Noted(s, run[0], h, n), n + 1);
    }
  }

  /** In every reachable state the list goes back in time: each registered tenant is stamped with the
      instant of its last foreground get or registration, and stands before every tenant whose last
      one came earlier in the run. */
  lemma ListIsOrderedByLastUse(s: State, run: seq<Action>)
    requires Initial(s) && IsRun(s, run)
    ensures var q, h := After(s, run).registry, LastUses(s, run, map[], 0);
            && (forall i :: 0 <= i < |q| ==> q[i].tenant in h && q[i].lastUsed == h[q[i].tenant].at)
            && forall i, j :: 0 <= i < j < |q| ==> h[q[i].tenant].step > h[q[j].tenant].step
  {
    RunKeepsUseOrder(s, run, map[], 0);
  }

  /** Whom a registration evicts was last used before everyone it keeps. */
  lemma EvictedWereUsedEarlier(s: State, run: seq<Action>, g: int, i: nat, j: nat)
    requires Initial(s) && IsRun(s, run) && Enabled(After(s, run), Register(g))
    requires var r := After(s, run); var q' := Apply(r, Register(g)).registry;
             i < |r.registry| && j < |q'| && !HasTenant(q', r.registry[i].tenant)
    ensures var r := After(s, run); var q' := Apply(r, Register(g)).registry;
            var h := Noted(r, Register(g), LastUses(s, run, map[], 0), |run|);
            && r.registry[i].tenant in h && q'[j].tenant in h
            && h[r.registry[i].tenant].step < h[q'[j].tenant].step
  {
    var r := After(s, run);
    var q, q', before := r.registry, Apply(r, Register(g)).registry, LastUses(s, run, map[], 0);
    RunKeepsUseOrder(s, run, map[], 0);
    RunKeepsAll(s, run);
    RegisterKeepsUseOrder(r, g, before, |run|);
    OnlyEarlierGo(q, r.getters[g], r.clock, r.limit, before, |run|, i, j);
    NewIsNoted(r, g, before, |run|);
  }

  lemma NewIsNoted(s: State, g: int, h: map<string, Use>, n: nat)
    requires Enabled(s, Register(g)) && Find(s.registry, s.getters[g].tenant) < 0
    ensures Noted(s, Register(g), h, n) == h[s.getters[g].tenant := Use(n, s.clock)]
  {
    assert UsedBy(s, Register(g)) == {s.getters[g].tenant};
  }

  lemma OnlyEarlierGo(q: seq<Entry>, x: Getter, now: int, limit: nat, h: map<string, Use>, n: nat, i: nat, j: nat)
    requires InUseOrder(q, h, n) && x.Holding? && |q| <= limit && 1 <= limit
    requires var q' := Registered(q, x.tenant, x.pool, x.touch, now, limit);
             i < |q| && j < |q'| && !HasTenant(q', q[i].tenant)
    ensures var q' := Registered(q, x.tenant, x.pool, x.touch, now, limit);
            var h' := h[x.tenant := Use(n, now)];
            && Find(q, x.tenant) < 0 && q[i].tenant in h' && q'[j].tenant in h'
            && h'[q[i].tenant].step < h'[q'[j].tenant].step
  {
    if Find(q, x.tenant) >= 0 {
      RegisterKeepsTenants(q, x.tenant, x.touch, now);
    } else {
      OnlyTheBackGoes(q, Entry(x.tenant, x.pool, now), limit);
      assert q[i].tenant != x.tenant;
    }
  }
}
