/** The Pools object of tenancy/pools.go: a linked list and a map kept in agreement, refining the
    registry sequence of the protocol. */
module Pools {
  import opened Results
  import opened Sequences
  import opened LinkedList
  import opened PoolProtocol

  predicate Shows(e: Entry, n: Element)
    reads n`lastUsed
  {
    e == Entry(n.tenant, n.pool, n.lastUsed)
  }

  lemma FindUnique(q: seq<Entry>, t: string, k: nat)
    requires TenantsDistinct(q) && k < |q| && q[k].tenant == t
    ensures Find(q, t) == k
  {
  }

  /** Every element of the ring but its sentinel is mapped under its tenant, and nothing else is. */
  ghost predicate MapsTo(entries: map<string, Element>, ring: set<Element>, root: Element) {
    && (forall n :: n in ring && n != root ==> n.tenant in entries && entries[n.tenant] == n)
    && (forall t :: t in entries ==> entries[t] in ring && entries[t] != root && entries[t].tenant == t)
  }

  lemma StampedIsUsed(q: seq<Entry>, k: nat, now: int)
    requires k < |q|
    ensures ([q[k]] + Without(q, k))[0 := q[k].(lastUsed := now)] == Used(q, k, now)
  {
  }

  class Registry {
    const limit: nat
    const idleClose: int
    const order: List
    var entries: map<string, Element>
    var closed: seq<int>

    /** What the list holds, front to back. */
    ghost var value: seq<Entry>

    ghost predicate Agrees()
      reads this, order, order.Ring()`lastUsed
    {
      && |value| == |order.nodes|
      && forall i :: 0 <= i < |value| ==> Shows(value[i], order.nodes[i])
    }

    /** List and map agree: every element on the list is mapped under its tenant, and nothing else
        is mapped. */
    ghost predicate Mapped()
      reads this, order
    {
      MapsTo(entries, order.Ring(), order.root)
    }

    ghost predicate Valid()
      reads this, order, order.Ring()
    {
      order.Valid() && Agrees() && Mapped()
    }

    constructor (limit: int, idleClose: int)
      ensures Valid() && value == [] && closed == [] && this.idleClose == idleClose
      ensures this.limit == if limit < 1 then 1 else limit
      ensures fresh(order) && fresh(order.Ring())
    {
      this.limit := if limit < 1 then 1 else limit;
      this.idleClose := idleClose;
      var l := new List();
      this.order := l;
      this.entries, this.closed, this.value := map[], [], [];
    }

    lemma OneEntryEach()
      requires Valid()
      ensures TenantsDistinct(value)
    {
      forall i, j | 0 <= i < j < |value| ensures value[i].tenant != value[j].tenant {
        assert Shows(value[i], order.nodes[i]) && Shows(value[j], order.nodes[j]);
      }
    }

    /** The map finds what the sequence finds. */
    lemma Agreement(t: string)
      requires Valid()
      ensures t in entries <==> Find(value, t) >= 0
      ensures t in entries ==> order.nodes[Find(value, t)] == entries[t]
    {
      OneEntryEach();
      if t in entries {
        var k :| 0 <= k < |order.nodes| && order.nodes[k] == entries[t];
        assert Shows(value[k], order.nodes[k]);
        FindUnique(value, t, k);
      }
      if Find(value, t) >= 0 {
        assert Shows(value[Find(value, t)], order.nodes[Find(value, t)]);
      }
    }

    /** To the front, its time unchanged. */
    method Front(e: Element, ghost k: nat)
      requires Valid() && k < |order.nodes| && order.nodes[k] == e
      modifies this`value, order, order.Ring()`next, order.Ring()`prev
      ensures Valid() && order.Ring() == old(order.Ring()) && order.nodes[0] == e
      ensures value == [old(value)[k]] + Without(old(value), k)
    {
      ghost var before := order.nodes;
      order.MoveToFront(e, k);
      value := [value[k]] + Without(value, k);
      forall j | 0 <= j < |value| ensures Shows(value[j], order.nodes[j]) {
        ToFrontAt(old(value), k, j);
        assert old(Shows(value[Before(k, j)], before[Before(k, j)]));
      }
    }

    /** A use: to the front, with a new time. */
    method Use(e: Element, ghost k: nat, now: int)
      requires Valid() && k < |order.nodes| && order.nodes[k] == e
      modifies this`value, order, order.Ring()
      ensures Valid() && order.Ring() == old(order.Ring())
      ensures value == Used(old(value), k, now)
    {
      ghost var q := value;
      Front(e, k);
      Stamp(e, now);
      StampedIsUsed(q, k, now);
    }

    /** The front element's new time. */
    method Stamp(e: Element, now: int)
      requires Valid() && order.nodes != [] && e == order.nodes[0]
      modifies this`value, e`lastUsed
      ensures Valid() && value == old(value)[0 := old(value)[0].(lastUsed := now)]
    {
      assert Shows(value[0], e);
      e.lastUsed := now;
      value := value[0 := value[0].(lastUsed := now)];
      forall j | 0 < j < |value| ensures Shows(value[j], order.nodes[j]) {
        assert old(Shows(value[j], order.nodes[j]));
      }
    }

    /** The first critical section of get: a foreground hit leads the list with a new time, the others
        in their order; a background hit and a miss change nothing. */
    method Lookup(t: string, touch: bool, now: int) returns (pool: Option<int>)
      requires Valid()
      modifies this`value, order, order.Ring()
      ensures Valid() && order.Ring() == old(order.Ring())
      ensures pool.None? ==> value == old(value) && forall i :: 0 <= i < |value| ==> value[i].tenant != t
      ensures pool.Some? ==> HitAs(old(value), value, t, pool.value, touch, now)
      ensures value == LookedUp(old(value), t, touch, now)
      ensures pool == if Find(old(value), t) >= 0 then Some(old(value)[Find(old(value), t)].pool) else None
    {
      Agreement(t);
      HitLeads(value, t, touch, now);
      if t !in entries {
        return None;
      }
      var e := entries[t];
      ghost var k := Find(value, t);
      assert Shows(value[k], e);
      if touch {
        Use(e, k, now);
      }
      pool := Some(e.pool);
    }

    /** Takes an element out of both structures and closes its pool. */
    method Drop(e: Element, ghost k: nat)
      requires Valid() && k < |order.nodes| && order.nodes[k] == e
      modifies this, order, order.Ring()`next, order.Ring()`prev
      ensures Valid() && order.Ring() <= old(order.Ring())
      ensures |order.nodes| == |old(order.nodes)| - 1
      ensures forall j :: 0 <= j < k ==> order.nodes[j] == old(order.nodes)[j]
      ensures value == Without(old(value), k)
      ensures closed == old(closed) + [old(value)[k].pool]
    {
      ghost var before := order.nodes;
      assert Shows(value[k], before[k]);
      order.Remove(e, k);
      entries := entries - {e.tenant};
      closed := closed + [e.pool];
      value := Without(value, k);
      forall j | 0 <= j < |value| ensures Shows(value[j], order.nodes[j]) {
        WithoutAt(old(value), k, j);
        assert old(Shows(value[Shifted(k, j)], before[Shifted(k, j)]));
      }
    }

    method DropBack()
      requires Valid() && value != []
      modifies this, order, order.Ring()`next, order.Ring()`prev
      ensures Valid() && order.Ring() <= old(order.Ring())
      ensures value == old(value)[..|old(value)| - 1]
      ensures closed == old(closed) + [old(value)[|old(value)| - 1].pool]
    {
      var oldest := order.Back();
      ghost var here := value;
      Drop(oldest, |order.nodes| - 1);
      assert value == here[..|here| - 1];
    }

    /** evictLocked: closes from the back while past the limit. */
    method EvictLocked()
      requires Valid()
      modifies this, order, order.Ring()`next, order.Ring()`prev
      ensures Valid() && order.Ring() <= old(order.Ring())
      ensures value == Evicted(old(value), limit)
      ensures closed == old(closed) + EvictCloses(old(value), limit)
    {
      ghost var q, c := value, closed;
      while order.len > limit
        invariant Valid() && order.Ring() <= old(order.Ring())
        invariant EvictsAlike(q, c, value, closed)
        decreases order.len
      {
        EvictUnrolled(q, c, value, closed);
        DropBack();
      }
    }

    /** Evicting from (q, c) and from (r, d) ends the same. */
    ghost predicate EvictsAlike(q: seq<Entry>, c: seq<int>, r: seq<Entry>, d: seq<int>) {
      Evicted(r, limit) == Evicted(q, limit) && d + EvictCloses(r, limit) == c + EvictCloses(q, limit)
    }

    lemma EvictUnrolled(q: seq<Entry>, c: seq<int>, r: seq<Entry>, d: seq<int>)
      requires EvictsAlike(q, c, r, d) && |r| > limit
      ensures EvictsAlike(q, c, r[..|r| - 1], d + [r[|r| - 1].pool])
    {
      var p, rest := r[|r| - 1].pool, EvictCloses(r[..|r| - 1], limit);
      assert d + ([p] + rest) == (d + [p]) + rest;
    }

    /** A new element in front, mapped under its tenant. */
    method Add(t: string, pool: int, now: int)
      requires Valid() && t !in entries
      modifies this`value, this`entries, order, order.Ring()`next, order.Ring()`prev
      ensures Valid() && fresh(order.Ring() - old(order.Ring()))
      ensures value == [Entry(t, pool, now)] + old(value)
    {
      var e := new Element(t, pool, now);
      ghost var before := order.nodes;
      order.PushFront(e);
      entries := entries[t := e];
      value := [Entry(t, pool, now)] + value;
      forall j | 0 <= j < |value| ensures Shows(value[j], order.nodes[j]) {
        assert j > 0 ==> old(Shows(value[j - 1], before[j - 1]));
      }
    }

    /** The second critical section of get: keep a pool registered meanwhile and close the new one,
        or register the new one and evict. */
    method Register(t: string, pool: int, touch: bool, now: int) returns (got: int)
      requires Valid()
      modifies this, order, order.Ring()
      ensures Valid() && fresh(order.Ring() - old(order.Ring()))
      ensures value == Registered(old(value), t, pool, touch, now, limit)
      ensures closed == old(closed) + RegisterCloses(old(value), t, pool, now, limit)
      ensures got == if Find(old(value), t) >= 0 then old(value)[Find(old(value), t)].pool else pool
      ensures if HasTenant(old(value), t)
              then HitAs(old(value), value, t, got, touch, now) && closed == old(closed) + [pool]
              else got == pool && value == ([Entry(t, pool, now)] + old(value))[..Min(|old(value)| + 1, limit)]
    {
      Agreement(t);
      RegisterShape(value, t, pool, touch, now, limit);
      if t in entries {
        Discard(pool);
        got := KeepFirst(entries[t], Find(value, t), t, touch, now);
      } else {
        AddAndEvict(t, pool, now);
        got := pool;
      }
    }

    /** Closes a pool that never got registered. */
    method Discard(pool: int)
      requires Valid()
      modifies this`closed
      ensures Valid() && closed == old(closed) + [pool]
    {
      closed := closed + [pool];
    }

    method AddAndEvict(t: string, pool: int, now: int)
      requires Valid() && t !in entries
      modifies this, order, order.Ring()
      ensures Valid() && fresh(order.Ring() - old(order.Ring()))
      ensures value == Evicted([Entry(t, pool, now)] + old(value), limit)
      ensures closed == old(closed) + EvictCloses([Entry(t, pool, now)] + old(value), limit)
    {
      Add(t, pool, now);
      EvictLocked();
    }

    /** Someone registered the tenant meanwhile: that pool stays. */
    method KeepFirst(e: Element, ghost k: nat, t: string, touch: bool, now: int) returns (got: int)
      requires Valid() && k < |order.nodes| && order.nodes[k] == e && k == Find(value, t)
      modifies this`value, order, order.Ring()
      ensures Valid() && order.Ring() == old(order.Ring())
      ensures value == LookedUp(old(value), t, touch, now) && got == old(value)[k].pool
    {
      assert Shows(value[k], e);
      got := e.pool;
      if touch {
        Use(e, k, now);
      }
    }

    /** One step of the reaper: looks at an element and moves towards the front. */
    method ReapAt(el: Element, ghost i: nat, now: int, busy: set<int>) returns (prev: Element?)
      requires Valid() && i < |order.nodes| && order.nodes[i] == el
      modifies this, order, order.Ring()`next, order.Ring()`prev
      ensures Valid() && order.Ring() <= old(order.Ring())
      ensures i <= |order.nodes| && if i == 0 then prev == null else prev == order.nodes[i - 1]
      ensures value == if Reapable(old(value)[i], now, idleClose, busy) then Without(old(value), i) else old(value)
      ensures closed == if Reapable(old(value)[i], now, idleClose, busy)
                then old(closed) + [old(value)[i].pool] else old(closed)
    {
      assert Shows(value[i], el);
      prev := order.Prev(el, i);
      assert i == 0 ==> prev == null;
      if now - el.lastUsed >= idleClose && el.pool !in busy {
        assert Reapable(value[i], now, idleClose, busy);
        Drop(el, i);
      } else {
        assert !Reapable(value[i], now, idleClose, busy);
      }
    }

    /** reapIdle: walks from the back, closing what nobody used for idleClose and is not busy. */
    method ReapIdle(now: int, busy: set<int>)
      requires Valid()
      modifies this, order, order.Ring()`next, order.Ring()`prev
      ensures Valid() && order.Ring() <= old(order.Ring())
      ensures value == Reaped(old(value), now, idleClose, busy)
      ensures closed == old(closed) + ReapCloses(old(value), now, idleClose, busy)
    {
      ghost var q, c := value, closed;
      ghost var n: nat := |value|;
      ghost var kept, shut := Kept(value, |value|, now, busy), Shut(value, closed, |value|, now, busy);
      var el := order.Back();
      while el != null
        invariant Valid() && order.Ring() <= old(order.Ring())
        invariant AtEntry(el, n) && StillToReap(n, now, busy, kept, shut)
        decreases n
      {
        el, n := ReapNext(el, n, now, busy, kept, shut);
      }
      WholeIsReaped(q, c, now, busy);
    }

    /** The element stands at position n - 1, or there is none left. */
    ghost predicate AtEntry(el: Element?, n: nat)
      reads this, order
    {
      n <= |order.nodes| && if n == 0 then el == null else el == order.nodes[n - 1]
    }

    /** Looking at the first n entries from the back leaves `kept`, and `shut` closed. */
    ghost predicate StillToReap(n: nat, now: int, busy: set<int>, kept: seq<Entry>, shut: seq<int>)
      reads this
    {
      n <= |value| && Kept(value, n, now, busy) == kept && Shut(value, closed, n, now, busy) == shut
    }

    method ReapNext(el: Element, ghost n: nat, now: int, busy: set<int>, ghost kept: seq<Entry>, ghost shut: seq<int>)
      returns (prev: Element?, ghost m: nat)
      requires Valid() && 0 < n && AtEntry(el, n) && StillToReap(n, now, busy, kept, shut)
      modifies this, order, order.Ring()`next, order.Ring()`prev
      ensures Valid() && order.Ring() <= old(order.Ring())
      ensures m == n - 1 && AtEntry(prev, m) && StillToReap(m, now, busy, kept, shut)
    {
      m := n - 1;
      prev := ReapAt(el, m, now, busy);
    }

    ghost function Kept(q: seq<Entry>, n: nat, now: int, busy: set<int>): seq<Entry>
      requires n <= |q|
    {
      if n == 0 then q
      else Kept(if Reapable(q[n - 1], now, idleClose, busy) then Without(q, n - 1) else q, n - 1, now, busy)
    }

    ghost function Shut(q: seq<Entry>, c: seq<int>, n: nat, now: int, busy: set<int>): seq<int>
      requires n <= |q|
    {
      if n == 0 then c
      else if Reapable(q[n - 1], now, idleClose, busy) then
        Shut(Without(q, n - 1), c + [q[n - 1].pool], n - 1, now, busy)
      else Shut(q, c, n - 1, now, busy)
    }

    lemma WholeIsReaped(q: seq<Entry>, c: seq<int>, now: int, busy: set<int>)
      ensures Kept(q, |q|, now, busy) == Reaped(q, now, idleClose, busy)
      ensures Shut(q, c, |q|, now, busy) == c + ReapCloses(q, now, idleClose, busy)
    {
      KeptIsReaped(q, |q|, now, busy);
      ShutIsReaped(q, c, |q|, now, busy);
      assert q[..|q|] == q && q[|q|..] == [];
    }

    lemma {:induction false} KeptIsReaped(q: seq<Entry>, n: nat, now: int, busy: set<int>)
      requires n <= |q|
      ensures Kept(q, n, now, busy) == Reaped(q[..n], now, idleClose, busy) + q[n..]
      decreases n
    {
      if n == 0 {
        assert q[..0] == [] && q[0..] == q && [] + q == q;
      } else {
        var last, rest := q[n - 1], Reaped(q[..n - 1], now, idleClose, busy);
        ReapedLast(q, n, now, busy);
        if Reapable(last, now, idleClose, busy) {
          WithoutKeeps(q, n - 1);
          KeptIsReaped(Without(q, n - 1), n - 1, now, busy);
        } else {
          KeptIsReaped(q, n - 1, now, busy);
          OneKept(q, n, rest);
        }
      }
    }

    lemma OneKept(q: seq<Entry>, n: nat, rest: seq<Entry>)
      requires 0 < n <= |q|
      ensures rest + q[n - 1..] == (rest + [q[n - 1]]) + q[n..]
    {
      assert q[n - 1..] == [q[n - 1]] + q[n..];
    }

    lemma {:induction false} ShutIsReaped(q: seq<Entry>, c: seq<int>, n: nat, now: int, busy: set<int>)
      requires n <= |q|
      ensures Shut(q, c, n, now, busy) == c + ReapCloses(q[..n], now, idleClose, busy)
      decreases n
    {
      if n == 0 {
        assert q[..0] == [] && c + [] == c;
      } else {
        var last, closes := q[n - 1], ReapCloses(q[..n - 1], now, idleClose, busy);
        ReapedLast(q, n, now, busy);
        if Reapable(last, now, idleClose, busy) {
          WithoutKeeps(q, n - 1);
          ShutIsReaped(Without(q, n - 1), c + [last.pool], n - 1, now, busy);
          Regroup(c, last.pool, closes);
        } else {
          ShutIsReaped(q, c, n - 1, now, busy);
        }
      }
    }

    lemma WithoutKeeps(q: seq<Entry>, k: nat)
      requires k < |q|
      ensures |Without(q, k)| == |q| - 1 && Without(q, k)[..k] == q[..k] && Without(q, k)[k..] == q[k + 1..]
    {
    }

    lemma Regroup<T>(a: seq<T>, x: T, b: seq<T>)
      ensures (a + [x]) + b == a + ([x] + b)
    {
    }

    lemma ReapedLast(q: seq<Entry>, n: nat, now: int, busy: set<int>)
      requires 0 < n <= |q|
      ensures var rest := Reaped(q[..n - 1], now, idleClose, busy);
              var closes := ReapCloses(q[..n - 1], now, idleClose, busy);
              var reap := Reapable(q[n - 1], now, idleClose, busy);
              && Reaped(q[..n], now, idleClose, busy) == (if reap then rest else rest + [q[n - 1]])
              && ReapCloses(q[..n], now, idleClose, busy) == (if reap then [q[n - 1].pool] + closes else closes)
    {
      assert q[..n][..n - 1] == q[..n - 1];
    }

    /** Close: every registered pool, in the map's arbitrary order, then empty structures. */
    method Close() returns (ghost pools: seq<int>)
      requires Valid() && PoolsDistinct(value)
      modifies this, order, order.Ring()`next, order.Ring()`prev
      ensures Valid() && order.Ring() <= old(order.Ring()) && value == []
      ensures closed == old(closed) + pools && Distinct(pools) && forall p :: p in pools <==> p in PoolsOf(old(value))
    {
      MappedPools();
      pools := CloseEach(entries);
      entries := map[];
      order.Init();
      value := [];
    }

    /** The mapped elements hold the registry's pools, one each. */
    lemma MappedPools()
      requires Valid() && PoolsDistinct(value)
      ensures forall t, u :: t in entries && u in entries && t != u ==> entries[t].pool != entries[u].pool
      ensures forall p :: p in PoolsOf(value) <==> exists t :: t in entries && entries[t].pool == p
    {
      OneEntryEach();
      forall t | t in entries
        ensures Find(value, t) >= 0 && value[Find(value, t)] == Entry(t, entries[t].pool, entries[t].lastUsed)
      {
        Agreement(t);
        assert Shows(value[Find(value, t)], entries[t]);
      }
      forall p | p in PoolsOf(value) ensures exists t :: t in entries && entries[t].pool == p {
        var i :| 0 <= i < |value| && value[i].pool == p;
        FindUnique(value, value[i].tenant, i);
        Agreement(value[i].tenant);
        assert value[i].tenant in entries;
      }
    }

    method CloseEach(es: map<string, Element>) returns (ghost pools: seq<int>)
      requires forall t, u :: t in es && u in es && t != u ==> es[t].pool != es[u].pool
      modifies this`closed
      ensures closed == old(closed) + pools && Distinct(pools)
      ensures forall p :: p in pools <==> exists t :: t in es && es[t].pool == p
    {
      pools := [];
      var todo := es.Keys;
      while todo != {}
        invariant closed == old(closed) + pools && Distinct(pools)
        invariant todo <= es.Keys
        invariant forall p :: p in pools <==> exists t :: t in es && t !in todo && es[t].pool == p
        decreases |todo|
      {
        var t :| t in todo;
        assert es[t].pool !in pools;
        ghost var earlier := pools;
        closed := closed + [es[t].pool];
        pools := pools + [es[t].pool];
        DistinctConcat(earlier, [es[t].pool]);
        forall p | p in pools ensures exists u :: u in es && u !in todo - {t} && es[u].pool == p {
          if p in earlier {
            var u :| u in es && u !in todo && es[u].pool == p;
          }
        }
        todo := todo - {t};
      }
    }
  }

  // ----- Get, with the lock released while it dials -----

  lemma {:induction false} RunThen(s: State, run: seq<Action>, more: seq<Action>)
    requires IsRun(s, run) && IsRun(After(s, run), more)
    ensures IsRun(s, run + more) && After(s, run + more) == After(After(s, run), more)
    decreases |run|
  {
    if run == [] {
      assert run + more == more;
    } else {
      RunThen(Apply(s, run[0]), run[1..], more);
      assert (run + more)[0] == run[0] && (run + more)[1..] == run[1..] + more;
    }
  }

  predicate By(a: Action, g: int) {
    (a.Miss? || a.GiveUp? || a.Dial? || a.Register?) && a.g == g
  }

  lemma {:induction false} OthersLeaveGetter(s: State, more: seq<Action>, g: int)
    requires IsRun(s, more) && forall a :: a in more ==> !By(a, g)
    ensures var r := After(s, more);
            (g in r.getters <==> g in s.getters) && (g in s.getters ==> r.getters[g] == s.getters[g])
    decreases |more|
  {
    if more != [] {
      assert more[0] in more && forall a :: a in more[1..] ==> a in more;
      OthersLeaveGetter(Apply(s, more[0]), more[1..], g);
    }
  }

  datatype GetError = NoTenant | ResolveFailed | ConnectFailed

  class Pools {
    const reg: Registry
    var clock: int
    var nextPool: int
    ghost const start: State
    ghost var run: seq<Action>
    ghost var m: State

    /** The protocol's run so far, with registry q and the given pools closed. */
    ghost predicate Stands(q: seq<Entry>, closed: seq<int>)
      reads this
    {
      && Initial(start) && IsRun(start, run) && m == After(start, run)
      && m.registry == q && m.closed == closed && m.clock == clock
      && m.limit == reg.limit && m.idleClose == reg.idleClose
      && forall p :: p in m.created ==> p < nextPool
    }

    /** The object stands where some run of the protocol has led; `nextPool` names the next pool a
        dial opens. */
    ghost predicate Valid()
      reads this, reg, reg.order, reg.order.Ring()
    {
      reg.Valid() && Stands(reg.value, reg.closed)
    }

    constructor (limit: int, idleClose: int)
      ensures Valid() && fresh(reg) && fresh(reg.order) && fresh(reg.order.Ring())
    {
      var r := new Registry(limit, idleClose);
      reg, clock, nextPool := r, 0, 0;
      start := State(r.limit, idleClose, 0, [], map[], {}, []);
      run, m := [], State(r.limit, idleClose, 0, [], map[], {}, []);
    }

    /** Notes in the protocol's terms what the object has just done. */
    ghost method Note(a: Action)
      requires Initial(start) && IsRun(start, run) && m == After(start, run) && Enabled(m, a)
      modifies this`run, this`m
      ensures IsRun(start, run) && m == After(start, run) && m == Apply(old(m), a)
    {
      assert IsRun(m, [a]) && After(m, [a]) == Apply(m, a) by {
        assert [a][1..] == [] && IsRun(Apply(m, a), []) && After(Apply(m, a), []) == Apply(m, a);
      }
      RunThen(start, run, [a]);
      run, m := run + [a], Apply(m, a);
    }

    /** The lock is free: any steps of anyone but get g, for any time.  Doing nothing is one of them;
        callers know no more than the contract. */
    method Others(g: int) returns (ghost more: seq<Action>)
      requires Valid()
      modifies this, reg, reg.order, reg.order.Ring()
      ensures Valid() && fresh(reg.order.Ring() - old(reg.order.Ring()))
      ensures run == old(run) + more && IsRun(old(m), more) && m == After(old(m), more)
      ensures forall a :: a in more ==> !By(a, g)
    {
      more := [];
      assert run + more == run;
    }

    method Unlock(g: int)
      requires Valid()
      modifies this, reg, reg.order, reg.order.Ring()
      ensures Valid() && fresh(reg.order.Ring() - old(reg.order.Ring()))
      ensures (g in m.getters <==> g in old(m.getters)) && (g in m.getters ==> m.getters[g] == old(m.getters)[g])
    {
      var more := Others(g);
      OthersLeaveGetter(old(m), more, g);
    }

    /** The pool is the tenant's registered one, and so is not closed. */
    ghost predicate IsRegistered(t: string, pool: int)
      reads this
    {
      Find(m.registry, t) >= 0 && m.registry[Find(m.registry, t)].pool == pool && pool !in m.closed
    }

    lemma Reached()
      requires Valid()
      ensures Conserved(m)
    {
      RunKeepsAll(start, run);
    }

    lemma ShowRegistered(t: string, pool: int)
      requires Valid() && Find(m.registry, t) >= 0 && m.registry[Find(m.registry, t)].pool == pool
      ensures IsRegistered(t, pool)
    {
      Reached();
      assert pool in PoolsOf(m.registry);
    }

    lemma HitIsRegistered(q: seq<Entry>, t: string, touch: bool)
      requires Valid() && TenantsDistinct(q) && Find(q, t) >= 0 && m.registry == LookedUp(q, t, touch, clock)
      ensures IsRegistered(t, q[Find(q, t)].pool)
    {
      StillThere(q, t, touch, clock);
      ShowRegistered(t, q[Find(q, t)].pool);
    }

    ghost method NoteMiss(g: int, t: string, touch: bool)
      requires Valid() && g !in m.getters && t != "" && !HasTenant(m.registry, t)
      modifies this`run, this`m
      ensures Valid() && m.getters == old(m.getters)[g := Dialing(t, touch)]
    {
      assert Find(m.registry, t) < 0;
      Note(Miss(g, t, touch));
    }

    ghost method NoteHit(q: seq<Entry>, t: string, touch: bool)
      requires reg.Valid() && Stands(q, reg.closed) && TenantsDistinct(q) && Find(q, t) >= 0
      requires reg.value == LookedUp(q, t, touch, clock)
      modifies this`run, this`m
      ensures Valid() && m.getters == old(m.getters) && IsRegistered(t, q[Find(q, t)].pool)
      ensures HasTenant(q, t) && ServedAs(q, m.registry, t, q[Find(q, t)].pool, touch, clock, reg.limit)
    {
      Note(Hit(t, touch));
      HitIsRegistered(q, t, touch);
      HitLeads(q, t, touch, clock);
    }

    method Lookup(g: int, t: string, touch: bool) returns (pool: Option<int>)
      requires Valid() && g !in m.getters && t != ""
      modifies this, reg, reg.order, reg.order.Ring()
      ensures Valid() && reg.order.Ring() == old(reg.order.Ring())
      ensures match pool
              case Some(p) =>
                && g !in m.getters && IsRegistered(t, p) && HasTenant(old(m.registry), t)
                && ServedAs(old(m.registry), m.registry, t, p, touch, clock, reg.limit)
              case None => g in m.getters && m.getters[g] == Dialing(t, touch) && !HasTenant(old(m.registry), t)
    {
      Reached();
      ghost var q := m.registry;
      pool := reg.Lookup(t, touch, clock);
      if pool.Some? {
        NoteHit(q, t, touch);
      } else {
        NoteMiss(g, t, touch);
      }
    }

    /** resolve and connect: no lock is held. */
    method Open(g: int, t: string, touch: bool) returns (r: Result<int, GetError>)
      requires Valid() && g in m.getters && m.getters[g] == Dialing(t, touch)
      modifies this, reg, reg.order, reg.order.Ring()
      ensures Valid() && fresh(reg.order.Ring() - old(reg.order.Ring()))
      ensures match r
              case Ok(pool) => g in m.getters && m.getters[g] == Holding(t, touch, pool)
              case Err(e) => g !in m.getters && e != NoTenant
    {
      Unlock(g);
      var resolved, opens, answers: bool := *, *, *;
      if !resolved {
        Note(GiveUp(g));
        return Err(ResolveFailed);
      }
      Unlock(g);
      if !opens {
        Note(GiveUp(g));
        return Err(ConnectFailed);
      }
      r := Connected(g, t, touch, answers);
    }

    /** connect, once the pool exists: a pool that does not answer its ping is closed at once. */
    method Connected(g: int, t: string, touch: bool, answers: bool) returns (r: Result<int, GetError>)
      requires Valid() && g in m.getters && m.getters[g] == Dialing(t, touch)
      modifies this, reg
      ensures Valid()
      ensures if answers then r.Ok? && g in m.getters && m.getters[g] == Holding(t, touch, r.value)
              else r == Err(ConnectFailed) && g !in m.getters
    {
      var pool := nextPool;
      nextPool := nextPool + 1;
      Note(Dial(g, pool, answers));
      if !answers {
        reg.closed := reg.closed + [pool];
        return Err(ConnectFailed);
      }
      r := Ok(pool);
    }

    /** The second critical section. */
    method Install(g: int, t: string, touch: bool, pool: int) returns (got: int)
      requires Valid() && g in m.getters && m.getters[g] == Holding(t, touch, pool)
      modifies this, reg, reg.order, reg.order.Ring()
      ensures Valid() && fresh(reg.order.Ring() - old(reg.order.Ring()))
      ensures g !in m.getters && IsRegistered(t, got)
      ensures ServedAs(old(m.registry), m.registry, t, got, touch, clock, reg.limit)
    {
      Reached();
      ghost var q := m.registry;
      got := reg.Register(t, pool, touch, clock);
      Note(Register(g));
      Reached();
      RegisteredIsThere(q, t, pool, touch, clock, reg.limit);
      ShowRegistered(t, got);
    }

    /** get: the pool it answers is the tenant's registered one when the lock is released.  In its last
        critical section, from some registry, it was a hit, foreground or background as asked, or the
        new pool came in front; and a tenant registered at the call is a hit at once. */
    method Get(g: int, t: string, touch: bool) returns (r: Result<int, GetError>)
      requires Valid() && g !in m.getters
      modifies this, reg, reg.order, reg.order.Ring()
      ensures Valid() && fresh(reg.order.Ring() - old(reg.order.Ring())) && g !in m.getters
      ensures r.Ok? ==> IsRegistered(t, r.value)
      ensures r.Ok? ==> exists q :: ServedAs(q, m.registry, t, r.value, touch, clock, reg.limit)
      ensures t != "" && HasTenant(old(m.registry), t) ==>
                r.Ok? && ServedAs(old(m.registry), m.registry, t, r.value, touch, clock, reg.limit)
      ensures r == Err(NoTenant) <==> t == ""
    {
      if t == "" {
        return Err(NoTenant);
      }
      var hit := Lookup(g, t, touch);
      if hit.Some? {
        return Ok(hit.value);
      }
      r := Open(g, t, touch);
      if r.Ok? {
        Unlock(g);
        var got := Install(g, t, touch, r.value);
        r := Ok(got);
      }
    }
  }

  lemma StillThere(q: seq<Entry>, t: string, touch: bool, now: int)
    requires TenantsDistinct(q) && Find(q, t) >= 0
    ensures var r := LookedUp(q, t, touch, now);
            Find(r, t) >= 0 && r[Find(r, t)].pool == q[Find(q, t)].pool
  {
    if touch {
      UsedKeepsTenants(q, Find(q, t), now);
      FindUnique(Used(q, Find(q, t), now), t, 0);
    }
  }

  lemma UsedKeepsTenants(q: seq<Entry>, k: nat, now: int)
    requires k < |q| && TenantsDistinct(q)
    ensures TenantsDistinct(Used(q, k, now))
  {
    var r := Used(q, k, now);
    forall i, j | 0 <= i < j < |r| ensures r[i].tenant != r[j].tenant {
      UsedAt(q, k, now, i);
      UsedAt(q, k, now, j);
      assert Before(k, i) != Before(k, j);
    }
  }

  lemma RegisteredIsThere(q: seq<Entry>, t: string, pool: int, touch: bool, now: int, limit: nat)
    requires TenantsDistinct(q) && TenantsDistinct(Registered(q, t, pool, touch, now, limit)) && 1 <= limit
    ensures var r := Registered(q, t, pool, touch, now, limit);
            Find(r, t) >= 0 && r[Find(r, t)].pool == if Find(q, t) >= 0 then q[Find(q, t)].pool else pool
  {
    if Find(q, t) >= 0 {
      StillThere(q, t, touch, now);
    } else {
      FindUnique(Registered(q, t, pool, touch, now, limit), t, 0);
    }
  }
}
