/** The pool registry as interleaved critical sections (tenancy/pools.go): get looks up under the
    lock, dials without it, and registers under it again, while others get, evict, reap and close. */
module PoolProtocol {
  import opened Sequences
  import opened LinkedList

  // ----- The registry as a sequence, most recently used first -----

  datatype Entry = Entry(tenant: string, pool: int, lastUsed: int)

  function Find(q: seq<Entry>, t: string): (k: int)
    ensures -1 <= k < |q|
    ensures k >= 0 ==> q[k].tenant == t
    ensures k < 0 ==> forall i :: 0 <= i < |q| ==> q[i].tenant != t
  {
    if q == [] then -1
    else if q[|q| - 1].tenant == t then |q| - 1
    else Find(q[..|q| - 1], t)
  }

  function Used(q: seq<Entry>, k: nat, now: int): seq<Entry>
    requires k < |q|
  {
    [q[k].(lastUsed := now)] + Without(q, k)
  }

  /** The first critical section on a hit: a background hit counts for nothing. */
  function LookedUp(q: seq<Entry>, t: string, touch: bool, now: int): seq<Entry> {
    if touch && Find(q, t) >= 0 then Used(q, Find(q, t), now) else q
  }

  /** A foreground hit puts its entry first, with a new time, and keeps the others in their order; a
      background hit and a miss leave everything as it was. */
  lemma HitLeads(q: seq<Entry>, t: string, touch: bool, now: int)
    ensures var k, r := Find(q, t), LookedUp(q, t, touch, now);
            r == if k >= 0 && touch then [Entry(t, q[k].pool, now)] + q[..k] + q[k + 1..] else q
  {
    var k := Find(q, t);
    if k >= 0 && touch {
      assert [Entry(t, q[k].pool, now)] + (q[..k] + q[k + 1..]) == [Entry(t, q[k].pool, now)] + q[..k] + q[k + 1..];
    }
  }

  function Evicted(q: seq<Entry>, limit: nat): seq<Entry> {
    if |q| > limit then q[..limit] else q
  }

  /** The second critical section: keep the pool someone else registered meanwhile, else register
      this one in front and evict from the back. */
  function Registered(q: seq<Entry>, t: string, pool: int, touch: bool, now: int, limit: nat): seq<Entry> {
    if Find(q, t) >= 0 then LookedUp(q, t, touch, now) else Evicted([Entry(t, pool, now)] + q, limit)
  }

  /** What it closes: the pool just dialed when another is registered, else what it evicts, from
      the back. */
  function RegisterCloses(q: seq<Entry>, t: string, pool: int, now: int, limit: nat): seq<int> {
    if Find(q, t) >= 0 then [pool] else EvictCloses([Entry(t, pool, now)] + q, limit)
  }

  function EvictCloses(q: seq<Entry>, limit: nat): seq<int> {
    if |q| > limit then [q[|q| - 1].pool] + EvictCloses(q[..|q| - 1], limit) else []
  }

  predicate Reapable(e: Entry, now: int, idleClose: int, busy: set<int>) {
    now - e.lastUsed >= idleClose && e.pool !in busy
  }

  /** From the back, drops the entries nobody used for idleClose and whose pool is not busy. */
  function Reaped(q: seq<Entry>, now: int, idleClose: int, busy: set<int>): seq<Entry> {
    if q == [] then []
    else
      var rest := Reaped(q[..|q| - 1], now, idleClose, busy);
      if Reapable(q[|q| - 1], now, idleClose, busy) then rest else rest + [q[|q| - 1]]
  }

  function ReapCloses(q: seq<Entry>, now: int, idleClose: int, busy: set<int>): seq<int> {
    if q == [] then []
    else
      (if Reapable(q[|q| - 1], now, idleClose, busy) then [q[|q| - 1].pool] else [])
      + ReapCloses(q[..|q| - 1], now, idleClose, busy)
  }

  function PoolsOf(q: seq<Entry>): (pools: set<int>)
    ensures forall i :: 0 <= i < |q| ==> q[i].pool in pools
    ensures forall p :: p in pools ==> exists i :: 0 <= i < |q| && q[i].pool == p
  {
    set i | 0 <= i < |q| :: q[i].pool
  }

  function Min(a: nat, b: nat): nat {
    if b < a then b else a
  }

  ghost predicate HasTenant(q: seq<Entry>, t: string) {
    exists i :: 0 <= i < |q| && q[i].tenant == t
  }

  /** From q to r by a hit of t, whose pool is the registered one. */
  ghost predicate HitAs(q: seq<Entry>, r: seq<Entry>, t: string, pool: int, touch: bool, now: int) {
    exists k: nat ::
      && k < |q| && q[k].tenant == t && q[k].pool == pool
      && r == if touch then [Entry(t, pool, now)] + q[..k] + q[k + 1..] else q
  }

  /** From q to r by a get of t that ends with this pool: by a hit if t was registered, else by the new
      pool in front, what is past the limit gone from the back. */
  ghost predicate ServedAs(q: seq<Entry>, r: seq<Entry>, t: string, pool: int, touch: bool, now: int, limit: nat) {
    if HasTenant(q, t) then HitAs(q, r, t, pool, touch, now)
    else r == ([Entry(t, pool, now)] + q)[..Min(|q| + 1, limit)]
  }

  /** A registration: someone's pool registered meanwhile stays, by a hit, and the new one is closed;
      otherwise the new one leads and what is past the limit goes from the back. */
  lemma RegisterShape(q: seq<Entry>, t: string, pool: int, touch: bool, now: int, limit: nat)
    ensures var r := Registered(q, t, pool, touch, now, limit);
            if HasTenant(q, t)
            then Find(q, t) >= 0 && HitAs(q, r, t, q[Find(q, t)].pool, touch, now)
                 && RegisterCloses(q, t, pool, now, limit) == [pool]
            else Find(q, t) < 0 && r == ([Entry(t, pool, now)] + q)[..Min(|q| + 1, limit)]
  {
    HitLeads(q, t, touch, now);
    if Find(q, t) < 0 {
      var all := [Entry(t, pool, now)] + q;
      assert all[..|all|] == all;
    }
  }

  // ----- Steps -----

  /** A get that missed: resolving and dialing, or holding a pool it has just opened. */
  datatype Getter =
    | Dialing(tenant: string, touch: bool)
    | Holding(tenant: string, touch: bool, pool: int)

  datatype State = State(limit: nat, idleClose: int, clock: int, registry: seq<Entry>, getters: map<int, Getter>,
                         created: set<int>, closed: seq<int>)

  /** Dial with answered == false is a pool that opened but did not answer its ping;
      CloseAll goes through the map in any order. */
  datatype Action =
    | Hit(tenant: string, touch: bool)
    | Miss(g: int, tenant: string, touch: bool)
    | GiveUp(g: int)
    | Dial(g: int, pool: int, answered: bool)
    | Register(g: int)
    | ReapIdle(busy: set<int>)
    | CloseAll(order: seq<int>)
    | Advance(d: nat)

  ghost predicate Enabled(s: State, a: Action) {
    match a
    case Hit(t, _) => Find(s.registry, t) >= 0
    case Miss(g, t, _) => g !in s.getters && t != "" && Find(s.registry, t) < 0
    case GiveUp(g) => g in s.getters && s.getters[g].Dialing?
    case Dial(g, pool, _) => g in s.getters && s.getters[g].Dialing? && pool !in s.created
    case Register(g) => g in s.getters && s.getters[g].Holding?
    case CloseAll(order) => Distinct(order) && forall p :: p in order <==> p in PoolsOf(s.registry)
    case _ => true
  }

  function Apply(s: State, a: Action): State
    requires Enabled(s, a)
  {
    match a
    case Hit(t, touch) => s.(registry := LookedUp(s.registry, t, touch, s.clock))
    case Miss(g, t, touch) => s.(getters := s.getters[g := Dialing(t, touch)])
    case GiveUp(g) => s.(getters := s.getters - {g})
    case Dial(g, pool, answered) =>
      var d := s.getters[g];
      if answered then s.(created := s.created + {pool}, getters := s.getters[g := Holding(d.tenant, d.touch, pool)])
      else s.(created := s.created + {pool}, closed := s.closed + [pool], getters := s.getters - {g})
    case Register(g) =>
      var h := s.getters[g];
      var q := Registered(s.registry, h.tenant, h.pool, h.touch, s.clock, s.limit);
      s.(registry := q, getters := s.getters - {g},
         closed := s.closed + RegisterCloses(s.registry, h.tenant, h.pool, s.clock, s.limit))
    case ReapIdle(busy) =>
      var q := Reaped(s.registry, s.clock, s.idleClose, busy);
      s.(registry := q, closed := s.closed + ReapCloses(s.registry, s.clock, s.idleClose, busy))
    case CloseAll(order) => s.(registry := [], closed := s.closed + order)
    case Advance(d) => s.(clock := s.clock + d)
  }

  ghost predicate Initial(s: State) {
    1 <= s.limit && s.registry == [] && s.getters == map[] && s.created == {} && s.closed == []
  }

  ghost predicate IsRun(s: State, run: seq<Action>)
    decreases |run|
  {
    run != [] ==> Enabled(s, run[0]) && IsRun(Apply(s, run[0]), run[1..])
  }

  ghost function After(s: State, run: seq<Action>): State
    requires IsRun(s, run)
    decreases |run|
  {
    if run == [] then s else After(Apply(s, run[0]), run[1..])
  }

  /** Every outcome is open to the environment: any tenant that is not registered may be asked for; a
      dial may fail, open a pool that answers, or one that does not; reaping and closing may come at
      any moment the lock is free; and time passes. */
  lemma OutcomesAreOpen(s: State, g: int, t: string, touch: bool, pool: int, answered: bool, busy: set<int>, d: nat)
    ensures Enabled(s, Advance(d)) && Apply(s, Advance(d)).clock == s.clock + d
    ensures g !in s.getters && t != "" && !HasTenant(s.registry, t) ==> Enabled(s, Miss(g, t, touch))
    ensures HasTenant(s.registry, t) ==> Enabled(s, Hit(t, touch))
    ensures g in s.getters && s.getters[g].Dialing? ==>
              Enabled(s, GiveUp(g)) && (pool !in s.created ==> Enabled(s, Dial(g, pool, answered)))
    ensures g in s.getters && s.getters[g].Holding? ==> Enabled(s, Register(g))
    ensures Enabled(s, ReapIdle(busy))
  {
  }

  // ----- Conservation -----

  function HeldPools(gs: map<int, Getter>): (pools: set<int>)
    ensures forall g :: g in gs && gs[g].Holding? ==> gs[g].pool in pools
    ensures forall p :: p in pools ==> exists g :: g in gs && gs[g].Holding? && gs[g].pool == p
  {
    set g | g in gs && gs[g].Holding? :: gs[g].pool
  }

  ghost predicate TenantsDistinct(q: seq<Entry>) {
    forall i, j :: 0 <= i < j < |q| ==> q[i].tenant != q[j].tenant
  }

  ghost predicate PoolsDistinct(q: seq<Entry>) {
    forall i, j :: 0 <= i < j < |q| ==> q[i].pool != q[j].pool
  }

  ghost predicate HeldDistinct(gs: map<int, Getter>) {
    forall g, h :: g in gs && h in gs && g != h && gs[g].Holding? && gs[h].Holding? ==> gs[g].pool != gs[h].pool
  }

  /** Every pool ever opened is in exactly one place: held by the one get that dialed it, registered
      once, or closed once; and nothing else is anywhere. */
  ghost predicate Conserved(s: State) {
    && (forall p :: p in s.created <==> p in HeldPools(s.getters) || p in PoolsOf(s.registry) || p in s.closed)
    && (forall p :: p in HeldPools(s.getters) ==> p !in PoolsOf(s.registry) && p !in s.closed)
    && (forall p :: p in PoolsOf(s.registry) ==> p !in s.closed)
    && HeldDistinct(s.getters) && PoolsDistinct(s.registry) && Distinct(s.closed)
    && TenantsDistinct(s.registry)
    && 1 <= s.limit && |s.registry| <= s.limit
  }

  /** Where position i goes when position k moves to the front. */
  function Afterwards(k: nat, i: nat): nat {
    if i == k then 0 else if i < k then i + 1 else i
  }

  lemma UsedAt(q: seq<Entry>, k: nat, now: int, j: nat)
    requires k < |q| && j < |q|
    ensures var r := Used(q, k, now);
            && |r| == |q| && Before(k, j) < |q|
            && r[j].pool == q[Before(k, j)].pool && r[j].tenant == q[Before(k, j)].tenant
    ensures Afterwards(k, j) < |q| && Before(k, Afterwards(k, j)) == j
  {
  }

  /** Moving an entry to the front keeps every tenant's pool. */
  lemma UsedKeepsEntries(q: seq<Entry>, k: nat, now: int)
    requires k < |q| && TenantsDistinct(q) && PoolsDistinct(q)
    ensures var r := Used(q, k, now);
            |r| == |q| && TenantsDistinct(r) && PoolsDistinct(r) && forall p :: p in PoolsOf(r) <==> p in PoolsOf(q)
  {
    var r := Used(q, k, now);
    forall i, j | 0 <= i < j < |r| ensures r[i].tenant != r[j].tenant && r[i].pool != r[j].pool {
      UsedAt(q, k, now, i);
      UsedAt(q, k, now, j);
      assert Before(k, i) != Before(k, j);
    }
    forall p | p in PoolsOf(q) ensures p in PoolsOf(r) {
      var i :| 0 <= i < |q| && q[i].pool == p;
      UsedAt(q, k, now, i);
      UsedAt(q, k, now, Afterwards(k, i));
      assert r[Afterwards(k, i)].pool == p;
    }
    forall p | p in PoolsOf(r) ensures p in PoolsOf(q) {
      var j :| 0 <= j < |r| && r[j].pool == p;
      UsedAt(q, k, now, j);
    }
  }

  /** The accounting of one more pool closed from the back. */
  lemma OneMoreClosed(init: seq<Entry>, last: Entry, r: seq<Entry>, c: seq<int>)
    requires PoolsDistinct(init + [last]) && TenantsDistinct(init + [last]) && Distinct(c)
    requires forall p :: p in PoolsOf(init) <==> p in PoolsOf(r) || p in c
    requires forall p :: p in c ==> p !in PoolsOf(r)
    ensures Distinct([last.pool] + c)
    ensures forall p :: p in PoolsOf(init + [last]) <==> p in PoolsOf(r) || p in [last.pool] + c
    ensures forall p :: p in [last.pool] + c ==> p !in PoolsOf(r)
  {
    LastIsNew(init, last);
    AppendPools(init, last);
    DistinctConcat([last.pool], c);
  }

  lemma {:induction false} EvictAccountsForAll(q: seq<Entry>, limit: nat)
    requires TenantsDistinct(q) && PoolsDistinct(q)
    ensures var r, c := Evicted(q, limit), EvictCloses(q, limit);
            && |r| <= limit && TenantsDistinct(r) && PoolsDistinct(r) && Distinct(c)
            && (forall p :: p in PoolsOf(q) <==> p in PoolsOf(r) || p in c)
            && (forall p :: p in c ==> p !in PoolsOf(r))
  {
    if |q| > limit {
      var init, last := q[..|q| - 1], q[|q| - 1];
      assert q == init + [last];
      EvictAccountsForAll(init, limit);
      assert Evicted(q, limit) == Evicted(init, limit);
      OneMoreClosed(init, last, Evicted(init, limit), EvictCloses(init, limit));
    }
  }

  lemma AppendPools(q: seq<Entry>, e: Entry)
    ensures forall p :: p in PoolsOf(q + [e]) <==> p in PoolsOf(q) || p == e.pool
  {
    var r := q + [e];
    assert r[|q|] == e;
    forall p | p in PoolsOf(q) ensures p in PoolsOf(r) {
      var i :| 0 <= i < |q| && q[i].pool == p;
      assert r[i] == q[i];
    }
  }

  lemma PrependPools(e: Entry, q: seq<Entry>)
    ensures forall p :: p in PoolsOf([e] + q) <==> p in PoolsOf(q) || p == e.pool
  {
    var r := [e] + q;
    assert r[0] == e;
    forall p | p in PoolsOf(q) ensures p in PoolsOf(r) {
      var i :| 0 <= i < |q| && q[i].pool == p;
      assert r[i + 1] == q[i];
    }
  }

  /** Registering loses no pool: what it does not keep, it closes, once. */
  lemma RegisterAccountsForAll(q: seq<Entry>, t: string, pool: int, touch: bool, now: int, limit: nat)
    requires TenantsDistinct(q) && PoolsDistinct(q) && 1 <= limit && |q| <= limit && pool !in PoolsOf(q)
    ensures var r, c := Registered(q, t, pool, touch, now, limit), RegisterCloses(q, t, pool, now, limit);
            && |r| <= limit && TenantsDistinct(r) && PoolsDistinct(r) && Distinct(c)
            && (forall p :: p in PoolsOf(q) || p == pool <==> p in PoolsOf(r) || p in c)
            && (forall p :: p in c ==> p !in PoolsOf(r))
  {
    if Find(q, t) >= 0 {
      if touch {
        UsedKeepsEntries(q, Find(q, t), now);
      }
    } else {
      PrependPools(Entry(t, pool, now), q);
      EvictAccountsForAll([Entry(t, pool, now)] + q, limit);
    }
  }

  /** Reaping drops exactly what nobody used for idleClose and is not busy. */
  lemma {:induction false} ReapedMembers(q: seq<Entry>, now: int, idleClose: int, busy: set<int>)
    ensures var r := Reaped(q, now, idleClose, busy);
            |r| <= |q| && forall e :: e in r <==> e in q && (now - e.lastUsed < idleClose || e.pool in busy)
  {
    if q != [] {
      var init, last := q[..|q| - 1], q[|q| - 1];
      assert q == init + [last];
      ReapedMembers(init, now, idleClose, busy);
    }
  }

  /** What reaping drops, it closes, once. */
  lemma {:induction false} ReapAccountsForAll(q: seq<Entry>, now: int, idleClose: int, busy: set<int>)
    requires TenantsDistinct(q) && PoolsDistinct(q)
    ensures var r, c := Reaped(q, now, idleClose, busy), ReapCloses(q, now, idleClose, busy);
            && TenantsDistinct(r) && PoolsDistinct(r) && Distinct(c)
            && (forall p :: p in PoolsOf(q) <==> p in PoolsOf(r) || p in c)
            && (forall p :: p in c ==> p !in PoolsOf(r))
  {
    if q != [] {
      var init, last := q[..|q| - 1], q[|q| - 1];
      assert q == init + [last];
      ReapAccountsForAll(init, now, idleClose, busy);
      var rest := Reaped(init, now, idleClose, busy);
      AppendPools(init, last);
      LastIsNew(init, last);
      ReapedMembers(init, now, idleClose, busy);
      if !Reapable(last, now, idleClose, busy) {
        AppendPools(rest, last);
        KeepsDistinct(rest, last);
      } else {
        DistinctConcat([last.pool], ReapCloses(init, now, idleClose, busy));
      }
    }
  }

  lemma KeepsDistinct(rest: seq<Entry>, last: Entry)
    requires TenantsDistinct(rest) && PoolsDistinct(rest)
    requires forall e :: e in rest ==> e.tenant != last.tenant && e.pool != last.pool
    ensures TenantsDistinct(rest + [last]) && PoolsDistinct(rest + [last])
  {
    forall i | 0 <= i < |rest| ensures rest[i].tenant != last.tenant && rest[i].pool != last.pool {
      assert rest[i] in rest;
    }
  }

  lemma LastIsNew(init: seq<Entry>, last: Entry)
    requires TenantsDistinct(init + [last]) && PoolsDistinct(init + [last])
    ensures last.pool !in PoolsOf(init) && forall e :: e in init ==> e.tenant != last.tenant && e.pool != last.pool
  {
    var q := init + [last];
    assert q[|init|] == last;
    forall e | e in init ensures e.tenant != last.tenant && e.pool != last.pool {
      var i :| 0 <= i < |init| && init[i] == e;
      assert q[i] == e;
    }
    assert forall i :: 0 <= i < |init| ==> init[i] in init;
  }

  lemma HeldUnless(gs: map<int, Getter>, g: int)
    requires g in gs && HeldDistinct(gs)
    ensures HeldDistinct(gs - {g})
    ensures forall p :: p in HeldPools(gs - {g}) <==> p in HeldPools(gs) && !(gs[g].Holding? && gs[g].pool == p)
  {
    forall p | p in HeldPools(gs) && !(gs[g].Holding? && gs[g].pool == p) ensures p in HeldPools(gs - {g}) {
      var h :| h in gs && gs[h].Holding? && gs[h].pool == p;
      assert h in gs - {g};
    }
    forall p | p in HeldPools(gs - {g}) ensures p in HeldPools(gs) && !(gs[g].Holding? && gs[g].pool == p) {
      var h :| h in gs - {g} && (gs - {g})[h].Holding? && (gs - {g})[h].pool == p;
    }
  }

  lemma HeldWith(gs: map<int, Getter>, g: int, x: Getter)
    requires HeldDistinct(gs) && (g in gs ==> gs[g].Dialing?) && (x.Holding? ==> x.pool !in HeldPools(gs))
    ensures HeldDistinct(gs[g := x])
    ensures forall p :: p in HeldPools(gs[g := x]) <==> p in HeldPools(gs) || (x.Holding? && p == x.pool)
  {
    forall p | p in HeldPools(gs) || (x.Holding? && p == x.pool) ensures p in HeldPools(gs[g := x]) {
      if p in HeldPools(gs) {
        var h :| h in gs && gs[h].Holding? && gs[h].pool == p;
        assert h in gs[g := x] && gs[g := x][h] == gs[h];
      } else {
        assert g in gs[g := x] && gs[g := x][g] == x;
      }
    }
  }

  /** A step that takes `moved` from the gets and closes c leaves every pool in one place, if what it
      neither keeps nor closes was not there. */
  lemma MovesKeepConserved(s: State, s': State, moved: set<int>, c: seq<int>)
    requires Conserved(s) && s'.created == s.created && s'.closed == s.closed + c
    requires moved <= HeldPools(s.getters)
    requires forall p :: p in HeldPools(s'.getters) <==> p in HeldPools(s.getters) && p !in moved
    requires forall p :: p in PoolsOf(s.registry) || p in moved <==> p in PoolsOf(s'.registry) || p in c
    requires forall p :: p in c ==> p !in PoolsOf(s'.registry)
    requires HeldDistinct(s'.getters) && Tidy(s'.registry) && Distinct(c) && |s'.registry| <= s'.limit == s.limit
    ensures Conserved(s')
  {
    forall p | p in c ensures p !in s.closed {
      assert p in PoolsOf(s.registry) || p in moved;
    }
    DistinctConcat(s.closed, c);
    PlacesStayApart(s, s', moved, c);
  }

  ghost predicate Tidy(q: seq<Entry>) { TenantsDistinct(q) && PoolsDistinct(q) }

  lemma PlacesStayApart(s: State, s': State, moved: set<int>, c: seq<int>)
    requires Conserved(s) && s'.created == s.created && s'.closed == s.closed + c
    requires moved <= HeldPools(s.getters)
    requires forall p :: p in HeldPools(s'.getters) <==> p in HeldPools(s.getters) && p !in moved
    requires forall p :: p in PoolsOf(s.registry) || p in moved <==> p in PoolsOf(s'.registry) || p in c
    requires forall p :: p in c ==> p !in PoolsOf(s'.registry)
    ensures forall p :: p in s'.created <==>
              p in HeldPools(s'.getters) || p in PoolsOf(s'.registry) || p in s'.closed
    ensures forall p :: p in HeldPools(s'.getters) ==> p !in PoolsOf(s'.registry) && p !in s'.closed
    ensures forall p :: p in PoolsOf(s'.registry) ==> p !in s'.closed
  {
    forall p
      ensures p in s'.created <==> p in HeldPools(s'.getters) || p in PoolsOf(s'.registry) || p in s'.closed
      ensures p in HeldPools(s'.getters) ==> p !in PoolsOf(s'.registry) && p !in s'.closed
      ensures p in PoolsOf(s'.registry) ==> p !in s'.closed
    {
      assert p in s'.closed <==> p in s.closed || p in c;
      assert p in s.created <==> p in HeldPools(s.getters) || p in PoolsOf(s.registry) || p in s.closed;
      assert p in HeldPools(s.getters) ==> p !in PoolsOf(s.registry) && p !in s.closed;
    }
  }

  lemma HitKeepsConserved(s: State, t: string, touch: bool)
    requires Conserved(s) && Find(s.registry, t) >= 0
    ensures Conserved(Apply(s, Hit(t, touch)))
  {
    if touch {
      UsedKeepsEntries(s.registry, Find(s.registry, t), s.clock);
    }
    assert s.closed + [] == s.closed;
    MovesKeepConserved(s, Apply(s, Hit(t, touch)), {}, []);
  }

  lemma ReapKeepsConserved(s: State, busy: set<int>)
    requires Conserved(s)
    ensures Conserved(Apply(s, ReapIdle(busy)))
  {
    ReapedMembers(s.registry, s.clock, s.idleClose, busy);
    ReapAccountsForAll(s.registry, s.clock, s.idleClose, busy);
    MovesKeepConserved(s, Apply(s, ReapIdle(busy)), {}, ReapCloses(s.registry, s.clock, s.idleClose, busy));
  }

  lemma CloseKeepsConserved(s: State, order: seq<int>)
    requires Conserved(s) && Enabled(s, CloseAll(order))
    ensures Conserved(Apply(s, CloseAll(order)))
  {
    MovesKeepConserved(s, Apply(s, CloseAll(order)), {}, order);
  }

  lemma GetterKeepsConserved(s: State, a: Action)
    requires Conserved(s) && Enabled(s, a) && (a.Miss? || a.GiveUp? || a.Dial?)
    ensures Conserved(Apply(s, a))
  {
    match a
    case Miss(g, t, touch) => HeldWith(s.getters, g, Dialing(t, touch));
    case GiveUp(g) => HeldUnless(s.getters, g);
    case Dial(g, pool, answered) =>
      var d := s.getters[g];
      if answered {
        HeldWith(s.getters, g, Holding(d.tenant, d.touch, pool));
      } else {
        HeldUnless(s.getters, g);
        DistinctConcat(s.closed, [pool]);
      }
  }

  lemma RegisterKeepsConserved(s: State, g: int)
    requires Conserved(s) && Enabled(s, Register(g))
    ensures Conserved(Apply(s, Register(g)))
  {
    var h := s.getters[g];
    RegisterAccountsForAll(s.registry, h.tenant, h.pool, h.touch, s.clock, s.limit);
    HeldUnless(s.getters, g);
    var closes := RegisterCloses(s.registry, h.tenant, h.pool, s.clock, s.limit);
    MovesKeepConserved(s, Apply(s, Register(g)), {h.pool}, closes);
  }

  lemma StepKeepsConserved(s: State, a: Action)
    requires Conserved(s) && Enabled(s, a)
    ensures Conserved(Apply(s, a))
  {
    match a
    case Hit(t, touch) => HitKeepsConserved(s, t, touch);
    case Miss(_, _, _) => GetterKeepsConserved(s, a);
    case GiveUp(_) => GetterKeepsConserved(s, a);
    case Dial(_, _, _) => GetterKeepsConserved(s, a);
    case Register(g) => RegisterKeepsConserved(s, g);
    case ReapIdle(busy) => ReapKeepsConserved(s, busy);
    case CloseAll(order) => CloseKeepsConserved(s, order);
    case Advance(_) =>
  }

  // ----- Recency -----

  /** The list is ordered by last use, and nothing was used in the future. */
  ghost predicate ByRecency(q: seq<Entry>, clock: int) {
    && (forall i, j :: 0 <= i < j < |q| ==> q[i].lastUsed >= q[j].lastUsed)
    && (forall i :: 0 <= i < |q| ==> q[i].lastUsed <= clock)
  }

  lemma {:induction false} ReapedByRecency(q: seq<Entry>, clock: int, idleClose: int, busy: set<int>)
    requires ByRecency(q, clock)
    ensures ByRecency(Reaped(q, clock, idleClose, busy), clock)
    ensures forall e :: e in Reaped(q, clock, idleClose, busy) ==> e in q
  {
    if q != [] {
      var init, last := q[..|q| - 1], q[|q| - 1];
      ReapedByRecency(init, clock, idleClose, busy);
      var rest := Reaped(init, clock, idleClose, busy);
      forall i | 0 <= i < |rest| ensures rest[i] in q && rest[i].lastUsed >= last.lastUsed {
        assert rest[i] in rest;
        var k :| 0 <= k < |init| && init[k] == rest[i];
        assert q[k] == rest[i];
      }
    }
  }

  lemma UsedByRecency(q: seq<Entry>, k: nat, clock: int)
    requires k < |q| && ByRecency(q, clock)
    ensures ByRecency(Used(q, k, clock), clock)
  {
  }

  lemma StepKeepsByRecency(s: State, a: Action)
    requires ByRecency(s.registry, s.clock) && Enabled(s, a)
    ensures ByRecency(Apply(s, a).registry, Apply(s, a).clock)
  {
    match a
    case Hit(t, touch) => UsedByRecency(s.registry, Find(s.registry, t), s.clock);
    case Register(g) =>
      if Find(s.registry, s.getters[g].tenant) >= 0 {
        UsedByRecency(s.registry, Find(s.registry, s.getters[g].tenant), s.clock);
      }
    case ReapIdle(busy) => ReapedByRecency(s.registry, s.clock, s.idleClose, busy);
    case _ =>
  }

  // ----- Main results -----

  lemma {:induction false} RunKeepsAll(s: State, run: seq<Action>)
    requires Conserved(s) && ByRecency(s.registry, s.clock) && IsRun(s, run)
    ensures var r := After(s, run); Conserved(r) && ByRecency(r.registry, r.clock)
    decreases |run|
  {
    if run != [] {
      StepKeepsConserved(s, run[0]);
      StepKeepsByRecency(s, run[0]);
      RunKeepsAll(Apply(s, run[0]), run[1..]);
    }
  }

  /** Conservation: in every reachable state each pool ever opened is in exactly one place - held by
      exactly one get, registered once, or closed once - each tenant has at most one registered pool,
      and at most `limit` are registered whenever the lock is free. */
  lemma PoolsAreConserved(s: State, run: seq<Action>)
    requires Initial(s) && IsRun(s, run)
    ensures var r := After(s, run);
            && (forall p :: p in r.created <==> p in HeldPools(r.getters) || p in PoolsOf(r.registry) || p in r.closed)
            && (forall p :: p in HeldPools(r.getters) ==> p !in PoolsOf(r.registry) && p !in r.closed)
            && (forall p :: p in PoolsOf(r.registry) ==> p !in r.closed)
            && HeldDistinct(r.getters)
            && (forall i, j :: 0 <= i < j < |r.closed| ==> r.closed[i] != r.closed[j])
            && (forall i, j :: 0 <= i < j < |r.registry| ==>
                  r.registry[i].tenant != r.registry[j].tenant && r.registry[i].pool != r.registry[j].pool)
            && |r.registry| <= r.limit
  {
    RunKeepsAll(s, run);
  }

  /** Eviction takes least recently used tenants, only past the limit, and never the tenant just
      opened: that one leads the list. */
  lemma EvictionTakesTheOldest(s: State, run: seq<Action>, g: int)
    requires Initial(s) && IsRun(s, run) && Enabled(After(s, run), Register(g))
    ensures var r := After(s, run); var h := r.getters[g]; var q' := Apply(r, Register(g)).registry;
            && HasTenant(q', h.tenant)
            && |q'| == (if Find(r.registry, h.tenant) >= 0 then |r.registry| else Min(|r.registry| + 1, r.limit))
            && (Find(r.registry, h.tenant) < 0 ==> q'[0] == Entry(h.tenant, h.pool, r.clock))
            && (forall i, j :: 0 <= i < |r.registry| && 0 <= j < |q'| && !HasTenant(q', r.registry[i].tenant) ==>
                  |r.registry| == r.limit && Find(r.registry, h.tenant) < 0 && r.registry[i].lastUsed <= q'[j].lastUsed)
  {
    RunKeepsAll(s, run);
    var r := After(s, run);
    RegisterEvictsOldest(r.registry, r.getters[g], r.clock, r.limit);
    RegisteredSize(r.registry, r.getters[g], r.clock, r.limit);
  }

  lemma RegisteredSize(q: seq<Entry>, h: Getter, now: int, limit: nat)
    requires h.Holding?
    ensures |Registered(q, h.tenant, h.pool, h.touch, now, limit)|
         == if Find(q, h.tenant) >= 0 then |q| else Min(|q| + 1, limit)
  {
  }

  lemma RegisterEvictsOldest(q: seq<Entry>, h: Getter, now: int, limit: nat)
    requires h.Holding? && ByRecency(q, now) && |q| <= limit && 1 <= limit
    ensures var q' := Registered(q, h.tenant, h.pool, h.touch, now, limit);
            && HasTenant(q', h.tenant)
            && (Find(q, h.tenant) < 0 ==> q'[0] == Entry(h.tenant, h.pool, now))
            && (forall i, j :: 0 <= i < |q| && 0 <= j < |q'| && !HasTenant(q', q[i].tenant) ==>
                  |q| == limit && Find(q, h.tenant) < 0 && q[i].lastUsed <= q'[j].lastUsed)
  {
    if Find(q, h.tenant) < 0 {
      OnlyTheBackGoes(q, Entry(h.tenant, h.pool, now), limit);
    } else {
      RegisterKeepsTenants(q, h.tenant, h.touch, now);
    }
  }

  /** What is still there after an entry came in front and the back was evicted. */
  lemma OnlyTheBackGoes(q: seq<Entry>, e: Entry, limit: nat)
    requires |q| <= limit && 1 <= limit
    ensures var q' := Evicted([e] + q, limit);
            && q' != [] && q'[0] == e && HasTenant(q', e.tenant)
            && (forall j :: 0 < j < |q'| ==> q'[j] == q[j - 1])
            && (forall i :: 0 <= i < |q| && !HasTenant(q', q[i].tenant) ==> |q| == limit && i == |q| - 1)
  {
    var q' := Evicted([e] + q, limit);
    assert q'[0] == e;
    forall i | 0 <= i < |q| && i + 1 < |q'| ensures HasTenant(q', q[i].tenant) {
      assert q'[i + 1] == q[i];
    }
  }

  lemma RegisterKeepsTenants(q: seq<Entry>, t: string, touch: bool, now: int)
    requires Find(q, t) >= 0
    ensures forall i :: 0 <= i < |q| ==> HasTenant(LookedUp(q, t, touch, now), q[i].tenant)
    ensures HasTenant(LookedUp(q, t, touch, now), t)
  {
    var k, r := Find(q, t), LookedUp(q, t, touch, now);
    forall i | 0 <= i < |q| ensures HasTenant(r, q[i].tenant) {
      if touch {
        UsedAt(q, k, now, i);
        UsedAt(q, k, now, Afterwards(k, i));
        assert r[Afterwards(k, i)].tenant == q[i].tenant;
      } else {
        assert r[i].tenant == q[i].tenant;
      }
    }
    assert q[k].tenant == t;
  }
}
