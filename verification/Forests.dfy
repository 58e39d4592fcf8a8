/** Parent links as a map, and the chains up them: the theory both snapshot trees share. */
module Forests {
  import opened Sequences

  type Parents = map<int, int>

  /** Position i of the chain hangs below position i - 1. */
  predicate Hangs(p: Parents, xs: seq<int>, i: int)
    requires 0 < i < |xs|
  {
    xs[i] in p && p[xs[i]] == xs[i - 1] && xs[i - 1] != 0
  }

  /** A stretch of chain, from some ancestor of id down to id. */
  predicate IsStretch(p: Parents, xs: seq<int>, id: int) {
    && xs != [] && xs[|xs| - 1] == id
    && (forall i :: 0 <= i < |xs| ==> xs[i] in p)
    && (forall i :: 0 < i < |xs| ==> Hangs(p, xs, i))
  }

  /** The whole chain: it ends at a node without a parent, or below a parent that is missing. */
  predicate IsWalk(p: Parents, xs: seq<int>, id: int) {
    IsStretch(p, xs, id) && (p[xs[0]] == 0 || p[xs[0]] !in p)
  }

  /** The chain reaches a root. */
  predicate IsRooted(p: Parents, xs: seq<int>, id: int) {
    IsStretch(p, xs, id) && p[xs[0]] == 0
  }

  ghost predicate HasChain(p: Parents, id: int) {
    exists xs :: IsRooted(p, xs, id)
  }

  /** The node is `root` or has it among its ancestors. */
  ghost predicate Below(p: Parents, id: int, root: int) {
    exists xs :: IsStretch(p, xs, id) && xs[0] == root
  }

  /** The node is its own ancestor. */
  ghost predicate OnACycle(p: Parents, id: int) {
    exists xs :: IsStretch(p, xs, id) && |xs| > 1 && xs[0] == id
  }

  // ----- Putting stretches together and taking them apart -----

  lemma Prefix(p: Parents, xs: seq<int>, id: int, k: nat)
    requires IsStretch(p, xs, id) && k < |xs|
    ensures IsStretch(p, xs[..k + 1], xs[k])
  {
    var ys := xs[..k + 1];
    forall i | 0 < i < |ys| ensures Hangs(p, ys, i) {
      assert Hangs(p, xs, i);
    }
  }

  lemma Suffix(p: Parents, xs: seq<int>, id: int, k: nat)
    requires IsStretch(p, xs, id) && k < |xs|
    ensures IsStretch(p, xs[k..], id)
  {
    var ys := xs[k..];
    forall i | 0 < i < |ys| ensures Hangs(p, ys, i) {
      assert Hangs(p, xs, k + i);
    }
  }

  lemma OneBelow(p: Parents, xs: seq<int>, parent: int, id: int)
    requires IsStretch(p, xs, parent) && id in p && p[id] == parent && parent != 0
    ensures IsStretch(p, xs + [id], id)
  {
    var ys := xs + [id];
    forall i | 0 < i < |ys| ensures Hangs(p, ys, i) {
      assert i < |xs| ==> Hangs(p, xs, i);
    }
  }

  lemma OneAbove(p: Parents, xs: seq<int>, id: int)
    requires IsStretch(p, xs, id) && p[xs[0]] != 0 && p[xs[0]] in p
    ensures IsStretch(p, [p[xs[0]]] + xs, id)
  {
    var ys := [p[xs[0]]] + xs;
    forall i | 0 < i < |ys| ensures Hangs(p, ys, i) {
      assert i > 1 ==> Hangs(p, xs, i - 1);
    }
  }

  /** The stretch below xs goes on from where xs ends. */
  lemma Joined(p: Parents, xs: seq<int>, ys: seq<int>, top: int, id: int)
    requires IsStretch(p, xs, top) && IsStretch(p, ys, id) && ys[0] == top
    ensures IsStretch(p, xs + ys[1..], id)
  {
    var zs := xs + ys[1..];
    forall i | 0 < i < |zs| ensures Hangs(p, zs, i) {
      if i < |xs| {
        assert Hangs(p, xs, i);
      } else {
        assert Hangs(p, ys, i - |xs| + 1) && zs[i - 1] == ys[i - |xs|];
      }
    }
  }

  /** One step up the chain: the parent is the position before, unless the chain starts here. */
  lemma ParentOnWalk(p: Parents, xs: seq<int>, id: int, k: nat)
    requires IsWalk(p, xs, id) && k < |xs|
    ensures xs[k] in p && (k == 0 ==> p[xs[k]] == 0 || p[xs[k]] !in p)
    ensures k > 0 ==> p[xs[k]] == xs[k - 1] && xs[k - 1] != 0 && xs[k - 1] in p
  {
    assert k > 0 ==> Hangs(p, xs, k);
  }

  /** There is one way up: two stretches to one id agree as far as both go. */
  lemma {:induction false} OneWayUp(p: Parents, xs: seq<int>, ys: seq<int>, id: int)
    requires IsStretch(p, xs, id) && IsStretch(p, ys, id) && |xs| <= |ys|
    ensures xs == ys[|ys| - |xs|..]
    decreases |xs|
  {
    var m, n := |xs| - 1, |ys| - 1;
    if m > 0 {
      assert Hangs(p, xs, m) && Hangs(p, ys, n);
      Prefix(p, xs, id, m - 1);
      Prefix(p, ys, id, n - 1);
      OneWayUp(p, xs[..m], ys[..n], p[id]);
      assert xs == xs[..m] + [id] && ys == ys[..n] + [id];
    }
  }

  lemma GoesOnUp(p: Parents, xs: seq<int>, id: int, k: nat)
    requires IsStretch(p, xs, id) && 0 < k < |xs|
    ensures p[xs[k]] != 0 && p[xs[k]] in p
  {
    assert Hangs(p, xs, k);
  }

  /** No stretch is longer than the whole chain. */
  lemma WalkIsLongest(p: Parents, xs: seq<int>, ys: seq<int>, id: int)
    requires IsWalk(p, xs, id) && IsStretch(p, ys, id)
    ensures |ys| <= |xs| && ys == xs[|xs| - |ys|..]
  {
    if |xs| < |ys| {
      OneWayUp(p, xs, ys, id);
      GoesOnUp(p, ys, id, |ys| - |xs|);
    } else {
      OneWayUp(p, ys, xs, id);
    }
  }

  lemma WalkIsUnique(p: Parents, xs: seq<int>, ys: seq<int>, id: int)
    requires IsWalk(p, xs, id) && IsWalk(p, ys, id)
    ensures xs == ys
  {
    WalkIsLongest(p, xs, ys, id);
    WalkIsLongest(p, ys, xs, id);
  }

  /** Being below a node is having it on the chain, if the chain ends. */
  lemma BelowIsOnWalk(p: Parents, xs: seq<int>, id: int, root: int)
    requires IsWalk(p, xs, id)
    ensures root in xs <==> Below(p, id, root)
  {
    if root in xs {
      var k :| 0 <= k < |xs| && xs[k] == root;
      Suffix(p, xs, id, k);
      assert xs[k..][0] == root;
    }
    if ys :| IsStretch(p, ys, id) && ys[0] == root {
      WalkIsLongest(p, xs, ys, id);
      assert xs[|xs| - |ys|] == root;
    }
  }

  // ----- Cycles -----

  /** A chain that ends has no cycle. */
  lemma WalkHasNoCycle(p: Parents, xs: seq<int>, id: int)
    requires IsWalk(p, xs, id)
    ensures !OnACycle(p, id)
  {
    if ys :| IsStretch(p, ys, id) && |ys| > 1 && ys[0] == id {
      Joined(p, xs, ys, id, id);
      WalkIsLongest(p, xs, xs + ys[1..], id);
    }
  }

  lemma StretchIsDistinct(p: Parents, xs: seq<int>, id: int)
    requires IsStretch(p, xs, id) && forall x :: x in xs ==> !OnACycle(p, x)
    ensures Distinct(xs) && |xs| <= |p|
  {
    forall i, j | 0 <= i < j < |xs| ensures xs[i] != xs[j] {
      Prefix(p, xs, id, j);
      Suffix(p, xs[..j + 1], xs[j], i);
      var ys := xs[..j + 1][i..];
      assert ys[0] == xs[i] && |ys| > 1;
      assert xs[j] in xs && !OnACycle(p, xs[j]);
    }
    DistinctFits(xs, p.Keys);
  }

  /** No id appears twice on its own chain. */
  lemma WalkIsDistinct(p: Parents, xs: seq<int>, id: int)
    requires IsWalk(p, xs, id)
    ensures Distinct(xs) && |xs| <= |p|
  {
    forall x | x in xs ensures !OnACycle(p, x) {
      var k :| 0 <= k < |xs| && xs[k] == x;
      Prefix(p, xs, id, k);
      assert xs[..k + 1][0] == xs[0];
      WalkHasNoCycle(p, xs[..k + 1], x);
    }
    StretchIsDistinct(p, xs, id);
  }

  /** Every parent is 0 or present, and no node is its own ancestor. */
  ghost predicate IsForest(p: Parents) {
    && (forall id :: id in p ==> !OnACycle(p, id))
    && forall id :: id in p ==> p[id] == 0 || p[id] in p
  }

  lemma {:induction false} ClimbToRoot(p: Parents, xs: seq<int>, id: int) returns (ys: seq<int>)
    requires IsForest(p) && IsStretch(p, xs, id)
    ensures IsRooted(p, ys, id)
    decreases |p| - |xs|
  {
    StretchIsDistinct(p, xs, id);
    assert xs[0] in p;
    if p[xs[0]] == 0 {
      ys := xs;
    } else {
      OneAbove(p, xs, id);
      StretchIsDistinct(p, [p[xs[0]]] + xs, id);
      ys := ClimbToRoot(p, [p[xs[0]]] + xs, id);
    }
  }

  lemma RootedIsOffCycle(p: Parents, id: int)
    requires id in p && HasChain(p, id)
    ensures !OnACycle(p, id) && (p[id] == 0 || p[id] in p)
  {
    var xs :| IsRooted(p, xs, id);
    WalkHasNoCycle(p, xs, id);
    ParentOnWalk(p, xs, id, |xs| - 1);
  }

  lemma ForestIsRooted(p: Parents, id: int)
    requires IsForest(p) && id in p
    ensures HasChain(p, id)
  {
    var xs := ClimbToRoot(p, [id], id);
  }

  /** Every node has a chain to a root exactly when the links make a forest. */
  lemma AllRootedIffForest(p: Parents)
    ensures (forall id :: id in p ==> HasChain(p, id)) <==> IsForest(p)
  {
    if IsForest(p) {
      forall id | id in p ensures HasChain(p, id) {
        ForestIsRooted(p, id);
      }
    }
    if forall id :: id in p ==> HasChain(p, id) {
      forall id | id in p ensures !OnACycle(p, id) && (p[id] == 0 || p[id] in p) {
        RootedIsOffCycle(p, id);
      }
    }
  }

  // ----- Walks that stop early -----

  /** The links a walk follows that stops at the nodes of `stops`. */
  function StopAt(p: Parents, stops: set<int>): Parents {
    map id | id in p :: if id in stops then 0 else p[id]
  }

  /** Below its top a walk meets no stop, and to there it is a stretch of the real chain. */
  lemma StoppedIsStretch(p: Parents, stops: set<int>, xs: seq<int>, id: int)
    requires IsStretch(StopAt(p, stops), xs, id)
    ensures IsStretch(p, xs, id) && forall i :: 0 < i < |xs| ==> xs[i] !in stops
  {
    var q := StopAt(p, stops);
    forall i | 0 < i < |xs| ensures Hangs(p, xs, i) && xs[i] !in stops {
      assert Hangs(q, xs, i);
    }
  }

  lemma FreeStretchIsKept(p: Parents, stops: set<int>, xs: seq<int>, id: int)
    requires IsStretch(p, xs, id) && forall x :: x in xs ==> x !in stops
    ensures IsStretch(StopAt(p, stops), xs, id)
  {
    forall i | 0 < i < |xs| ensures Hangs(StopAt(p, stops), xs, i) {
      assert Hangs(p, xs, i);
      var x := xs[i];
      assert x in xs;
      assert x !in stops;
    }
  }

  /** The chain reaches a root past no stop. */
  ghost predicate FreeToRoot(p: Parents, stops: set<int>, id: int) {
    exists xs :: IsRooted(p, xs, id) && forall x :: x in xs ==> x !in stops
  }

  /** A walk that stops early ends at a root exactly when the whole chain is free to the root. */
  lemma EndsFreeIffFreeToRoot(p: Parents, stops: set<int>, xs: seq<int>, id: int)
    requires IsWalk(StopAt(p, stops), xs, id)
    ensures (xs[0] !in stops && p[xs[0]] == 0) <==> FreeToRoot(p, stops, id)
  {
    StoppedIsStretch(p, stops, xs, id);
    if xs[0] !in stops && p[xs[0]] == 0 {
      assert IsRooted(p, xs, id) && forall x :: x in xs ==> x !in stops;
    }
    if ys :| IsRooted(p, ys, id) && forall x :: x in ys ==> x !in stops {
      FreeStretchIsKept(p, stops, ys, id);
      assert ys[0] in ys;
      WalkIsUnique(StopAt(p, stops), xs, ys, id);
    }
  }

  /** One more stop closes exactly what hangs below it. */
  lemma StopClosesWhatIsBelow(p: Parents, stops: set<int>, n: int, id: int)
    ensures FreeToRoot(p, stops + {n}, id) <==> FreeToRoot(p, stops, id) && !Below(p, id, n)
  {
    if xs :| IsRooted(p, xs, id) && forall x :: x in xs ==> x !in stops + {n} {
      BelowIsOnWalk(p, xs, id, n);
      assert forall x :: x in xs ==> x !in stops;
    }
    if FreeToRoot(p, stops, id) && !Below(p, id, n) {
      var xs :| IsRooted(p, xs, id) && forall x :: x in xs ==> x !in stops;
      BelowIsOnWalk(p, xs, id, n);
      assert forall x :: x in xs ==> x !in stops + {n};
    }
  }
}
