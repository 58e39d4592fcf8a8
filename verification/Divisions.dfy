/** The organisational tree's snapshot (divisions/client.go): built once from the backend's answer,
    then walked downwards by Subtree and upwards by validate, Ancestors and Path. */
module Divisions {
  import opened Results
  import opened Sequences
  import opened Forests

  datatype Division = Division(id: int, parent: int, code: string, active: bool)

  datatype Node = Node(parent: int, code: string, active: bool)

  datatype Tree = Tree(nodes: map<int, Node>, children: map<int, seq<int>>)

  function ParentsOf(t: Tree): Parents {
    map id | id in t.nodes :: t.nodes[id].parent
  }

  function Kids(t: Tree, id: int): seq<int> {
    if id in t.children then t.children[id] else []
  }

  // ----- Building -----

  function NodesOf(ds: seq<Division>): map<int, Node> {
    if ds == [] then map[]
    else var d := ds[|ds| - 1]; NodesOf(ds[..|ds| - 1])[d.id := Node(d.parent, d.code, d.active)]
  }

  function ChildrenOf(ds: seq<Division>): map<int, seq<int>> {
    if ds == [] then map[]
    else
      var d, before := ds[|ds| - 1], ChildrenOf(ds[..|ds| - 1]);
      if d.parent == 0 then before
      else before[d.parent := (if d.parent in before then before[d.parent] else []) + [d.id]]
  }

  /** Each id the backend answered is a node, with the parent, code and flag of the last division that
      carries it; each parent lists the divisions that name it, in the answer's order. */
  method BuildTree(ds: seq<Division>) returns (t: Tree)
    ensures t == Tree(NodesOf(ds), ChildrenOf(ds))
    ensures forall id :: id in t.nodes <==> HasId(ds, id)
    ensures forall i :: 0 <= i < |ds| && IsLast(ds, i) ==>
              ds[i].id in t.nodes && t.nodes[ds[i].id] == Node(ds[i].parent, ds[i].code, ds[i].active)
    ensures forall p :: Kids(t, p) == if p == 0 then [] else IdsUnder(ds, p)
  {
    var nodes: map<int, Node>, children: map<int, seq<int>> := map[], map[];
    for i := 0 to |ds|
      invariant nodes == NodesOf(ds[..i]) && children == ChildrenOf(ds[..i])
    {
      var d := ds[i];
      assert ds[..i + 1][..i] == ds[..i];
      nodes := nodes[d.id := Node(d.parent, d.code, d.active)];
      if d.parent != 0 {
        children := children[d.parent := (if d.parent in children then children[d.parent] else []) + [d.id]];
      }
    }
    assert ds[..|ds|] == ds;
    t := Tree(nodes, children);
    BuiltNodes(ds);
    BuiltChildren(ds);
  }

  /** No later division has the id. */
  predicate IsLast(ds: seq<Division>, i: int)
    requires 0 <= i < |ds|
  {
    forall j :: i < j < |ds| ==> ds[j].id != ds[i].id
  }

  function IdsUnder(ds: seq<Division>, parent: int): seq<int> {
    if ds == [] then []
    else IdsUnder(ds[..|ds| - 1], parent) + if ds[|ds| - 1].parent == parent then [ds[|ds| - 1].id] else []
  }

  lemma {:induction false} BuiltChildren(ds: seq<Division>)
    ensures forall p :: Kids(Tree(NodesOf(ds), ChildrenOf(ds)), p) == if p == 0 then [] else IdsUnder(ds, p)
  {
    if ds != [] {
      var init, d := ds[..|ds| - 1], ds[|ds| - 1];
      BuiltChildren(init);
      var t, u := Tree(NodesOf(init), ChildrenOf(init)), Tree(NodesOf(ds), ChildrenOf(ds));
      forall p ensures Kids(u, p) == if p == 0 then [] else IdsUnder(ds, p) {
        assert Kids(t, p) == if p == 0 then [] else IdsUnder(init, p);
        assert Kids(u, p) == if p == d.parent && p != 0 then Kids(t, p) + [d.id] else Kids(t, p);
      }
    }
  }

  /** With unique ids every division is a node of its own, as it was answered. */
  lemma BuiltAsAnswered(ds: seq<Division>, d: Division)
    requires UniqueIds(ds) && d in ds
    ensures d.id in NodesOf(ds) && NodesOf(ds)[d.id] == Node(d.parent, d.code, d.active)
  {
    var i :| 0 <= i < |ds| && ds[i] == d;
    assert IsLast(ds, i);
    BuiltNodes(ds);
  }

  /** Each node is listed once, under its own parent and nowhere else. */
  ghost predicate ChildrenMatch(t: Tree) {
    && (forall id, p :: id in Kids(t, p) <==> id in t.nodes && p != 0 && t.nodes[id].parent == p)
    && forall p :: Distinct(Kids(t, p))
  }

  predicate UniqueIds(ds: seq<Division>) {
    forall i, j :: 0 <= i < j < |ds| ==> ds[i].id != ds[j].id
  }

  predicate HasId(ds: seq<Division>, id: int) {
    exists i :: 0 <= i < |ds| && ds[i].id == id
  }

  lemma OneMoreId(ds: seq<Division>, d: Division)
    ensures forall id :: HasId(ds + [d], id) <==> HasId(ds, id) || id == d.id
  {
    var all := ds + [d];
    assert all[|ds|] == d;
    forall id | HasId(ds, id) ensures HasId(all, id) {
      var i :| 0 <= i < |ds| && ds[i].id == id;
      assert all[i].id == id;
    }
  }

  lemma {:induction false} BuiltNodes(ds: seq<Division>)
    ensures forall id :: id in NodesOf(ds) <==> HasId(ds, id)
    ensures forall i :: 0 <= i < |ds| ==> ds[i].id in NodesOf(ds)
    ensures forall i :: 0 <= i < |ds| && IsLast(ds, i) ==>
              NodesOf(ds)[ds[i].id] == Node(ds[i].parent, ds[i].code, ds[i].active)
  {
    if ds != [] {
      var init, d := ds[..|ds| - 1], ds[|ds| - 1];
      assert ds == init + [d];
      BuiltNodes(init);
      OneMoreId(init, d);
      forall i | 0 <= i < |ds| ensures ds[i].id in NodesOf(ds) {
        assert i < |init| ==> init[i].id == ds[i].id;
      }
      forall i | 0 <= i < |ds| && IsLast(ds, i)
        ensures NodesOf(ds)[ds[i].id] == Node(ds[i].parent, ds[i].code, ds[i].active)
      {
        LastStaysLast(ds, i);
      }
    }
  }

  lemma LastStaysLast(ds: seq<Division>, i: int)
    requires 0 <= i < |ds| && IsLast(ds, i)
    ensures i < |ds| - 1 ==> ds[i].id != ds[|ds| - 1].id && ds[..|ds| - 1][i] == ds[i] && IsLast(ds[..|ds| - 1], i)
  {
  }

  lemma OneMoreKid(t: Tree, u: Tree, d: Division)
    requires ChildrenMatch(t) && d.id !in t.nodes
    requires u.nodes == t.nodes[d.id := Node(d.parent, d.code, d.active)]
    requires forall p :: Kids(u, p) == if p == d.parent && p != 0 then Kids(t, p) + [d.id] else Kids(t, p)
    ensures ChildrenMatch(u)
  {
    forall p ensures Distinct(Kids(u, p)) {
      assert d.id !in Kids(t, p);
      assert Distinct(Kids(t, p));
    }
    forall id, p ensures id in Kids(u, p) <==> id in u.nodes && p != 0 && u.nodes[id].parent == p {
      assert id in Kids(t, p) <==> id in t.nodes && p != 0 && t.nodes[id].parent == p;
    }
  }

  /** From an answer without repeated ids, the built tree lists every child under its parent. */
  lemma {:induction false} BuiltTreeMatches(ds: seq<Division>)
    requires UniqueIds(ds)
    ensures ChildrenMatch(Tree(NodesOf(ds), ChildrenOf(ds)))
  {
    if ds != [] {
      var init, d := ds[..|ds| - 1], ds[|ds| - 1];
      BuiltTreeMatches(init);
      BuiltNodes(init);
      var t := Tree(NodesOf(init), ChildrenOf(init));
      var u := Tree(NodesOf(ds), ChildrenOf(ds));
      OneMoreKid(t, u, d);
    }
  }

  // ----- Up -----

  datatype TreeError = NotFound | BrokenChain

  /** Swaps from both ends towards the middle. */
  method Reverse<T>(xs: seq<T>) returns (ys: seq<T>)
    ensures |ys| == |xs| && forall k :: 0 <= k < |xs| ==> ys[k] == xs[|xs| - 1 - k]
  {
    ys := xs;
    var i, j := 0, |ys| - 1;
    while i < j
      invariant |ys| == |xs| && 0 <= i <= j + 1 && i + j == |xs| - 1
      invariant forall k :: i <= k <= j ==> ys[k] == xs[k]
      invariant forall k :: 0 <= k < i ==> ys[k] == xs[|xs| - 1 - k]
      invariant forall k :: j < k < |xs| ==> ys[k] == xs[|xs| - 1 - k]
    {
      ys := ys[i := ys[j]][j := ys[i]];
      i, j := i + 1, j - 1;
    }
  }

  /** Position i of the climb is the parent of position i - 1. */
  predicate Climbs(p: Parents, out: seq<int>, i: int)
    requires 0 < i < |out|
  {
    out[i - 1] in p && p[out[i - 1]] == out[i] && out[i] != 0
  }

  /** The chain climbed so far, nearest first. */
  ghost predicate Climbed(p: Parents, out: seq<int>, id: int) {
    out != [] && out[0] == id && forall i :: 0 < i < |out| ==> Climbs(p, out, i)
  }

  lemma ClimbIsWalk(p: Parents, out: seq<int>, ys: seq<int>, id: int)
    requires Climbed(p, out, id) && out[|out| - 1] in p && p[out[|out| - 1]] == 0
    requires |ys| == |out| && forall k :: 0 <= k < |out| ==> ys[k] == out[|out| - 1 - k]
    ensures IsRooted(p, ys, id)
  {
    var n := |ys|;
    forall i | 0 < i < n ensures Hangs(p, ys, i) {
      assert Climbs(p, out, n - i) && ys[i] == out[n - 1 - i] && ys[i - 1] == out[n - i];
    }
    forall i | 0 <= i < n ensures ys[i] in p {
      assert i > 0 ==> Hangs(p, ys, i);
      assert ys[0] == out[n - 1];
    }
  }

  /** If the chain reaches a root, the climb stays on it, and so is no longer than the node count. */
  lemma ClimbStaysOnWalk(p: Parents, out: seq<int>, xs: seq<int>, id: int)
    requires Climbed(p, out, id) && IsRooted(p, xs, id)
    ensures |out| <= |xs| <= |p| && out[|out| - 1] == xs[|xs| - |out|]
    decreases |out|
  {
    WalkIsDistinct(p, xs, id);
    DistinctFits(xs, p.Keys);
    var n := |out| - 1;
    if n > 0 {
      var low := out[..n];
      forall i | 0 < i < n ensures Climbs(p, low, i) {
        assert Climbs(p, out, i);
      }
      ClimbStaysOnWalk(p, low, xs, id);
      assert Climbs(p, out, n);
      assert p[xs[|xs| - n]] == out[n] != 0;
      assert |xs| - n > 0;
      assert Hangs(p, xs, |xs| - n);
    }
  }

  /** Ancestors never loops, whatever the snapshot: it answers the chain from the root down exactly
      when there is one, and an error for an unknown id or a chain that breaks or goes round. */
  method Ancestors(t: Tree, id: int) returns (r: Result<seq<int>, TreeError>)
    ensures r == Err(NotFound) <==> id !in t.nodes
    ensures r.Ok? ==> IsRooted(ParentsOf(t), r.value, id)
    ensures r == Err(BrokenChain) ==> !HasChain(ParentsOf(t), id)
    ensures IsForest(ParentsOf(t)) && id in t.nodes ==> r.Ok?
  {
    if id !in t.nodes {
      return Err(NotFound);
    }
    ghost var p := ParentsOf(t);
    if IsForest(p) {
      ForestIsRooted(p, id);
    }
    NodeCount(t);
    var n, out := t.nodes[id], [id];
    var steps := 0;
    while steps <= |t.nodes|
      invariant 0 <= steps <= |t.nodes| + 1 && |out| == steps + 1
      invariant Climbed(p, out, id) && out[|out| - 1] in t.nodes && n == t.nodes[out[|out| - 1]]
    {
      if n.parent == 0 {
        var ys := Reverse(out);
        ClimbIsWalk(p, out, ys, id);
        return Ok(ys);
      }
      ClimbOn(p, out, id, n.parent);
      out := out + [n.parent];
      if n.parent !in t.nodes {
        OffTheMap(p, out, id);
        return Err(BrokenChain);
      }
      n := t.nodes[n.parent];
      steps := steps + 1;
    }
    TooLong(p, out, id);
    r := Err(BrokenChain);
  }

  lemma ClimbOn(p: Parents, out: seq<int>, id: int, parent: int)
    requires Climbed(p, out, id) && out[|out| - 1] in p && p[out[|out| - 1]] == parent && parent != 0
    ensures Climbed(p, out + [parent], id)
  {
    var up := out + [parent];
    forall i | 0 < i < |up| ensures Climbs(p, up, i) {
      assert i < |out| ==> Climbs(p, out, i);
    }
  }

  lemma OffTheMap(p: Parents, out: seq<int>, id: int)
    requires Climbed(p, out, id) && out[|out| - 1] !in p
    ensures !HasChain(p, id)
  {
    if xs :| IsRooted(p, xs, id) {
      ClimbStaysOnWalk(p, out, xs, id);
    }
  }

  lemma TooLong(p: Parents, out: seq<int>, id: int)
    requires Climbed(p, out, id) && |out| > |p|
    ensures !HasChain(p, id)
  {
    if xs :| IsRooted(p, xs, id) {
      ClimbStaysOnWalk(p, out, xs, id);
    }
  }

  lemma NodeCount(t: Tree)
    ensures |ParentsOf(t)| == |t.nodes|
  {
    var p := ParentsOf(t);
    assert p.Keys == t.nodes.Keys;
    assert |p| == |p.Keys| && |t.nodes| == |t.nodes.Keys|;
  }

  function Join(parts: seq<string>, sep: string): string {
    if parts == [] then ""
    else if |parts| == 1 then parts[0]
    else Join(parts[..|parts| - 1], sep) + sep + parts[|parts| - 1]
  }

  lemma LastPart(a: string, b: string, x: string, y: string)
    requires '/' !in x && '/' !in y && a + "/" + x == b + "/" + y
    ensures a == b && x == y
  {
    var s, t := a + "/" + x, b + "/" + y;
    assert s[|a|] == '/' && t[|b|] == '/';
    assert forall i :: |a| < i < |s| ==> s[i] == x[i - |a| - 1] && x[i - |a| - 1] in x;
    assert forall i :: |b| < i < |t| ==> t[i] == y[i - |b| - 1] && y[i - |b| - 1] in y;
    assert |a| == |b|;
    assert a == s[..|a|] && b == t[..|b|] && x == s[|a| + 1..] && y == t[|b| + 1..];
  }

  lemma {:induction false} JoinedHasSeparator(codes: seq<string>)
    requires |codes| > 1
    ensures '/' in Join(codes, "/")
  {
    var head := Join(codes[..|codes| - 1], "/");
    assert (head + "/" + codes[|codes| - 1])[|head|] == '/';
  }

  /** Codes without a slash can be read off the path again: two chains of codes have one path only if
      they are the same. */
  lemma {:induction false} PathTellsTheCodes(a: seq<string>, b: seq<string>)
    requires a != [] && b != [] && Join(a, "/") == Join(b, "/")
    requires forall code :: code in a || code in b ==> '/' !in code
    ensures a == b
    decreases |a|
  {
    assert a[|a| - 1] in a && b[|b| - 1] in b;
    if |a| == 1 || |b| == 1 {
      assert a[0] in a && b[0] in b;
      if |a| > 1 { JoinedHasSeparator(a); }
      if |b| > 1 { JoinedHasSeparator(b); }
    } else {
      var x, y := a[..|a| - 1], b[..|b| - 1];
      LastPart(Join(x, "/"), Join(y, "/"), a[|a| - 1], b[|b| - 1]);
      PathTellsTheCodes(x, y);
      assert a == x + [a[|a| - 1]] && b == y + [b[|b| - 1]];
    }
  }

  ghost predicate AreCodes(t: Tree, xs: seq<int>, codes: seq<string>) {
    |codes| == |xs| && forall i :: 0 <= i < |xs| ==> xs[i] in t.nodes && codes[i] == t.nodes[xs[i]].code
  }

  /** The codes of the chain's first entries, as many as there are. */
  ghost predicate CodesBegin(t: Tree, out: seq<int>, parts: seq<string>) {
    |parts| <= |out| && forall i :: 0 <= i < |parts| ==> out[i] in t.nodes && parts[i] == t.nodes[out[i]].code
  }

  ghost predicate IsPathOf(t: Tree, id: int, path: string) {
    exists xs, codes :: IsRooted(ParentsOf(t), xs, id) && AreCodes(t, xs, codes) && path == Join(codes, "/")
  }

  lemma PathFound(t: Tree, out: seq<int>, parts: seq<string>, codes: seq<string>, id: int)
    requires Climbed(ParentsOf(t), out, id) && CodesBegin(t, out, parts) && |out| == |parts| == |codes|
    requires t.nodes[out[|out| - 1]].parent == 0
    requires forall k :: 0 <= k < |codes| ==> codes[k] == parts[|codes| - 1 - k]
    ensures IsPathOf(t, id, Join(codes, "/"))
  {
    var xs := seq(|out|, i requires 0 <= i < |out| => out[|out| - 1 - i]);
    ClimbIsWalk(ParentsOf(t), out, xs, id);
    assert AreCodes(t, xs, codes);
  }

  /** Path joins the codes of the very chain Ancestors answers, and fails when it fails. */
  method Path(t: Tree, id: int) returns (r: Result<string, TreeError>)
    ensures r == Err(NotFound) <==> id !in t.nodes
    ensures r.Ok? ==> IsPathOf(t, id, r.value)
    ensures r == Err(BrokenChain) ==> !HasChain(ParentsOf(t), id)
    ensures IsForest(ParentsOf(t)) && id in t.nodes ==> r.Ok?
  {
    if id !in t.nodes {
      return Err(NotFound);
    }
    ghost var p := ParentsOf(t);
    if IsForest(p) {
      ForestIsRooted(p, id);
    }
    NodeCount(t);
    var n, parts := t.nodes[id], [];
    ghost var out := [id];
    var steps := 0;
    while steps <= |t.nodes|
      invariant 0 <= steps <= |t.nodes| + 1 && |out| == steps + 1 && |parts| == steps
      invariant Climbed(p, out, id) && out[|out| - 1] in t.nodes && n == t.nodes[out[|out| - 1]]
      invariant CodesBegin(t, out, parts)
    {
      parts := parts + [n.code];
      if n.parent == 0 {
        var codes := Reverse(parts);
        PathFound(t, out, parts, codes, id);
        return Ok(Join(codes, "/"));
      }
      ClimbOn(p, out, id, n.parent);
      out := out + [n.parent];
      if n.parent !in t.nodes {
        OffTheMap(p, out, id);
        return Err(BrokenChain);
      }
      n := t.nodes[n.parent];
      steps := steps + 1;
    }
    TooLong(p, out, id);
    r := Err(BrokenChain);
  }

  // ----- Down -----

  /** A child of something below root is below root; if it is root itself, root is on a cycle. */
  lemma ChildIsBelow(p: Parents, root: int, parent: int, child: int)
    requires Below(p, parent, root) && child in p && p[child] == parent && parent != 0
    ensures Below(p, child, root) && (child == root ==> OnACycle(p, root))
  {
    var xs :| IsStretch(p, xs, parent) && xs[0] == root;
    OneBelow(p, xs, parent, child);
    assert (xs + [child])[0] == root;
  }

  /** Position k of the queue has its parent among the first i. */
  predicate ExpandedBefore(p: Parents, out: seq<int>, i: nat, k: int)
    requires 0 <= k < |out| && i <= |out|
  {
    out[k] in p && exists j :: 0 <= j < i && out[j] == p[out[k]]
  }

  /** What the breadth-first queue keeps: its first i entries are expanded. */
  ghost predicate Expanded(t: Tree, p: Parents, out: seq<int>, i: nat, root: int) {
    && i <= |out| && out != [] && out[0] == root && Distinct(out)
    && (forall k :: 0 <= k < |out| ==> Below(p, out[k], root))
    && (forall k :: 0 < k < |out| ==> ExpandedBefore(p, out, i, k))
    && (forall k, c :: 0 <= k < i && c in Kids(t, out[k]) ==> c in out)
  }

  lemma KidsAreNew(t: Tree, p: Parents, out: seq<int>, i: nat, root: int, c: int)
    requires p == ParentsOf(t) && !OnACycle(p, root) && ChildrenMatch(t) && Distinct(out) && i < |out|
    requires out[0] == root && Below(p, out[i], root)
    requires forall k :: 0 < k < |out| ==> ExpandedBefore(p, out, i, k)
    requires c in Kids(t, out[i])
    ensures Below(p, c, root) && c in p && p[c] == out[i] && c !in out
  {
    var parent := out[i];
    assert c in t.nodes && t.nodes[c].parent == parent && parent != 0;
    ChildIsBelow(p, root, parent, c);
    forall k | 0 <= k < |out| ensures out[k] != c {
      assert k > 0 ==> ExpandedBefore(p, out, i, k);
    }
  }

  lemma ExpandOne(t: Tree, p: Parents, out: seq<int>, i: nat, root: int)
    requires p == ParentsOf(t) && !OnACycle(p, root) && ChildrenMatch(t) && Expanded(t, p, out, i, root) && i < |out|
    ensures Expanded(t, p, out + Kids(t, out[i]), i + 1, root)
  {
    var kids := Kids(t, out[i]);
    forall c | c in kids ensures Below(p, c, root) && c in p && p[c] == out[i] && c !in out {
      KidsAreNew(t, p, out, i, root, c);
    }
    DistinctConcat(out, kids);
    QueueGrows(t, p, out, kids, i, root);
  }

  lemma QueueGrows(t: Tree, p: Parents, out: seq<int>, kids: seq<int>, i: nat, root: int)
    requires Expanded(t, p, out, i, root) && i < |out| && kids == Kids(t, out[i]) && Distinct(out + kids)
    requires forall c :: c in kids ==> Below(p, c, root) && c in p && p[c] == out[i]
    ensures Expanded(t, p, out + kids, i + 1, root)
  {
    var next := out + kids;
    forall k | 0 <= k < |next| ensures Below(p, next[k], root) && (k > 0 ==> ExpandedBefore(p, next, i + 1, k)) {
      if 0 < k < |out| {
        assert ExpandedBefore(p, out, i, k);
        var j :| 0 <= j < i && out[j] == p[out[k]];
        assert next[j] == out[j];
      } else if |out| <= k {
        assert next[k] == kids[k - |out|] && next[k] in kids && next[i] == out[i];
      }
    }
    forall k, c | 0 <= k < i + 1 && c in Kids(t, next[k]) ensures c in next {
      assert next[k] == out[k];
    }
  }

  lemma {:induction false} ClosedIsComplete(t: Tree, p: Parents, out: seq<int>, root: int, xs: seq<int>, id: int)
    requires p == ParentsOf(t) && ChildrenMatch(t) && Expanded(t, p, out, |out|, root)
    requires IsStretch(p, xs, id) && xs[0] == root
    ensures id in out
    decreases |xs|
  {
    var m := |xs| - 1;
    if m == 0 {
      assert out[0] == id;
    } else {
      assert Hangs(p, xs, m);
      Prefix(p, xs, id, m - 1);
      ClosedIsComplete(t, p, out, root, xs[..m], xs[m - 1]);
      assert id in Kids(t, xs[m - 1]);
    }
  }

  /** The queue after i turns of the loop. */
  ghost function Queue(t: Tree, root: int, i: nat): seq<int> {
    if i == 0 then [root]
    else
      var q := Queue(t, root, i - 1);
      if i - 1 < |q| then q + Kids(t, q[i - 1]) else q
  }

  /** The downward search finds, once each, exactly the divisions whose upward chain has the root.
      It needs a root that is not its own ancestor; cycles elsewhere do not matter. */
  method Subtree(t: Tree, root: int) returns (r: Result<seq<int>, TreeError>)
    requires ChildrenMatch(t) && !OnACycle(ParentsOf(t), root)
    ensures root !in t.nodes ==> r == Err(NotFound)
    ensures root in t.nodes ==> r.Ok? && Distinct(r.value)
    ensures r.Ok? ==> forall id :: id in r.value <==> Below(ParentsOf(t), id, root)
  {
    if root !in t.nodes {
      return Err(NotFound);
    }
    ghost var p := ParentsOf(t);
    var out := [root];
    StartIsExpanded(t, root);
    var i := 0;
    while i < |out|
      invariant 0 <= i && out == Queue(t, root, i) && Expanded(t, p, out, i, root)
      decreases |p| - i
    {
      QueueFits(t, out, i, root);
      ExpandOne(t, p, out, i, root);
      out := out + Kids(t, out[i]);
      i := i + 1;
    }
    forall id ensures id in out <==> Below(p, id, root) {
      if xs :| IsStretch(p, xs, id) && xs[0] == root {
        ClosedIsComplete(t, p, out, root, xs, id);
      }
    }
    r := Ok(out);
  }

  lemma StartIsExpanded(t: Tree, root: int)
    requires root in t.nodes
    ensures Expanded(t, ParentsOf(t), [root], 0, root)
  {
    assert IsStretch(ParentsOf(t), [root], root) && [root][0] == root;
  }

  lemma QueueFits(t: Tree, out: seq<int>, i: nat, root: int)
    requires Expanded(t, ParentsOf(t), out, i, root)
    ensures |out| <= |ParentsOf(t)|
  {
    var p := ParentsOf(t);
    forall k | 0 <= k < |out| ensures out[k] in p.Keys {
      assert Below(p, out[k], root);
    }
    DistinctFits(out, p.Keys);
  }

  // ----- When the search ends -----

  lemma {:induction false} QueueIsExpanded(t: Tree, root: int, i: nat)
    requires ChildrenMatch(t) && root in t.nodes && !OnACycle(ParentsOf(t), root)
    ensures Expanded(t, ParentsOf(t), Queue(t, root, i), AtMost(i, Queue(t, root, i)), root)
  {
    if i == 0 {
      StartIsExpanded(t, root);
    } else {
      QueueIsExpanded(t, root, i - 1);
      ExpandNext(t, root, Queue(t, root, i - 1), i - 1);
    }
  }

  /** One turn more, from a queue whose first i entries, or all, are expanded. */
  lemma ExpandNext(t: Tree, root: int, q: seq<int>, i: nat)
    requires ChildrenMatch(t) && !OnACycle(ParentsOf(t), root)
    requires Expanded(t, ParentsOf(t), q, AtMost(i, q), root)
    ensures var r := if i < |q| then q + Kids(t, q[i]) else q; Expanded(t, ParentsOf(t), r, AtMost(i + 1, r), root)
  {
    if i < |q| {
      ExpandOne(t, ParentsOf(t), q, i, root);
    }
  }

  function AtMost(i: nat, q: seq<int>): nat {
    if i <= |q| then i else |q|
  }

  /** Position k has c at a later position. */
  predicate ComesLater(q: seq<int>, k: nat, c: int) {
    exists m :: k < m < |q| && q[m] == c
  }

  lemma {:induction false} KidsComeLater(t: Tree, root: int, i: nat)
    ensures var q := Queue(t, root, i); q != [] && q[0] == root
    ensures var q := Queue(t, root, i);
            forall k: nat, c :: k < i && k < |q| && c in Kids(t, q[k]) ==> ComesLater(q, k, c)
  {
    if i > 0 {
      KidsComeLater(t, root, i - 1);
      var before, q := Queue(t, root, i - 1), Queue(t, root, i);
      forall k: nat, c | k < i && k < |q| && c in Kids(t, q[k]) ensures ComesLater(q, k, c) {
        if k < i - 1 {
          assert k < |before| && q[k] == before[k] && ComesLater(before, k, c);
          var m :| k < m < |before| && before[m] == c;
          assert q[m] == c;
        } else {
          var m :| 0 <= m < |Kids(t, q[k])| && Kids(t, q[k])[m] == c;
          assert q[|before| + m] == c;
        }
      }
    }
  }

  /** A cycle through the root keeps coming back: some node of it stands at position n or later. */
  lemma {:induction false} CycleComesBack(t: Tree, q: seq<int>, xs: seq<int>, root: int, n: nat)
      returns (k: nat, j: nat)
    requires ChildrenMatch(t) && IsStretch(ParentsOf(t), xs, root) && |xs| > 1 && xs[0] == root
    requires q != [] && q[0] == root && forall k: nat, c :: k < |q| && c in Kids(t, q[k]) ==> ComesLater(q, k, c)
    ensures n <= k < |q| && j < |xs| - 1 && q[k] == xs[j]
  {
    if n == 0 {
      k, j := 0, 0;
    } else {
      var k0, j0 := CycleComesBack(t, q, xs, root, n - 1);
      assert Hangs(ParentsOf(t), xs, j0 + 1);
      var c := xs[j0 + 1];
      assert c in t.nodes && t.nodes[c].parent == xs[j0];
      assert c in Kids(t, xs[j0]);
      assert ComesLater(q, k0, c);
      k :| k0 < k < |q| && q[k] == c;
      j := if j0 + 1 == |xs| - 1 then 0 else j0 + 1;
    }
  }

  /** The search ends exactly when the root is not its own ancestor. */
  lemma SearchEndsIffRootOffCycle(t: Tree, root: int)
    requires ChildrenMatch(t) && root in t.nodes
    ensures (exists i: nat :: |Queue(t, root, i)| <= i) <==> !OnACycle(ParentsOf(t), root)
  {
    var p := ParentsOf(t);
    if !OnACycle(p, root) {
      QueueIsExpanded(t, root, |p|);
      var q := Queue(t, root, |p|);
      QueueFits(t, q, AtMost(|p|, q), root);
    }
    if i: nat :| |Queue(t, root, i)| <= i {
      KidsComeLater(t, root, i);
      if xs :| IsStretch(p, xs, root) && |xs| > 1 && xs[0] == root {
        var k, j := CycleComesBack(t, Queue(t, root, i), xs, root, |Queue(t, root, i)|);
      }
    }
  }

  // ----- Validity -----

  datatype RefStatus = Valid | Missing | Inactive | BrokenAbove | InactiveAncestor(code: string)

  function InactiveIds(t: Tree): set<int> {
    set id | id in t.nodes && !t.nodes[id].active
  }

  /** The walk of validate ends at the first inactive division above, or where the chain does. */
  ghost predicate WalkEnds(t: Tree, id: int) {
    exists xs :: IsWalk(StopAt(ParentsOf(t), InactiveIds(t)), xs, id)
  }

  /** Valid means: present, on a chain that reaches a root, and active all the way up. */
  ghost predicate IsValid(t: Tree, id: int) {
    exists xs :: IsRooted(ParentsOf(t), xs, id) && forall x :: x in xs ==> t.nodes[x].active
  }

  lemma ValidIsFree(t: Tree, id: int)
    ensures IsValid(t, id) <==> FreeToRoot(ParentsOf(t), InactiveIds(t), id)
  {
    if xs :| IsRooted(ParentsOf(t), xs, id) && forall x :: x in xs ==> t.nodes[x].active {
      assert forall x :: x in xs ==> x !in InactiveIds(t);
    }
    if xs :| IsRooted(ParentsOf(t), xs, id) && forall x :: x in xs ==> x !in InactiveIds(t) {
      forall x | x in xs ensures t.nodes[x].active {
        assert x !in InactiveIds(t) && x in ParentsOf(t);
      }
    }
  }

  /** What the top of that walk says. */
  ghost function Status(t: Tree, id: int): RefStatus
    requires id in t.nodes ==> WalkEnds(t, id)
  {
    if id !in t.nodes then Missing
    else if !t.nodes[id].active then Inactive
    else
      var xs :| IsWalk(StopAt(ParentsOf(t), InactiveIds(t)), xs, id);
      StatusAtTop(t.nodes[xs[0]])
  }

  function StatusAtTop(top: Node): RefStatus {
    if !top.active then InactiveAncestor(top.code) else if top.parent != 0 then BrokenAbove else Valid
  }

  /** From id up to `top`, the division itself aside, everything on the chain is active. */
  ghost predicate ActiveUpTo(t: Tree, id: int, top: int) {
    exists xs :: IsStretch(ParentsOf(t), xs, id) && xs[0] == top && forall i :: 0 < i < |xs| ==> t.nodes[xs[i]].active
  }

  lemma WalkIsActive(t: Tree, id: int, xs: seq<int>)
    requires IsWalk(StopAt(ParentsOf(t), InactiveIds(t)), xs, id)
    ensures ActiveUpTo(t, id, xs[0])
  {
    StoppedIsStretch(ParentsOf(t), InactiveIds(t), xs, id);
    forall i | 0 < i < |xs| ensures t.nodes[xs[i]].active {
      assert xs[i] in ParentsOf(t) && xs[i] !in InactiveIds(t);
    }
  }

  lemma StatusIsAtTop(t: Tree, id: int, xs: seq<int>)
    requires id in t.nodes && t.nodes[id].active && IsWalk(StopAt(ParentsOf(t), InactiveIds(t)), xs, id)
    ensures xs[0] in t.nodes && Status(t, id) == StatusAtTop(t.nodes[xs[0]])
  {
    var p := StopAt(ParentsOf(t), InactiveIds(t));
    forall ys | IsWalk(p, ys, id) ensures ys == xs {
      WalkIsUnique(p, xs, ys, id);
    }
  }

  /** The upward walk of validate.  It needs a chain that ends, at an inactive ancestor at the latest;
      a missing parent is an answer. */
  method Validate(t: Tree, id: int) returns (r: RefStatus)
    requires id in t.nodes ==> WalkEnds(t, id)
    ensures r == Status(t, id)
    ensures r.Valid? <==> IsValid(t, id)
    ensures r.Missing? <==> id !in t.nodes
    ensures r.Inactive? <==> id in t.nodes && !t.nodes[id].active
    ensures r.BrokenAbove? ==> exists top :: ActiveUpTo(t, id, top) && top in t.nodes && t.nodes[top].active
                                 && t.nodes[top].parent != 0 && t.nodes[top].parent !in t.nodes
    ensures r.InactiveAncestor? ==> exists top :: ActiveUpTo(t, id, top) && top != id && top in t.nodes
                                      && !t.nodes[top].active && t.nodes[top].code == r.code
  {
    ValidIsFree(t, id);
    if id !in t.nodes {
      return Missing;
    }
    var n := t.nodes[id];
    if !n.active {
      return Inactive;
    }
    ghost var p := StopAt(ParentsOf(t), InactiveIds(t));
    ghost var xs :| IsWalk(p, xs, id);
    StatusIsAtTop(t, id, xs);
    WalkIsActive(t, id, xs);
    EndsFreeIffFreeToRoot(ParentsOf(t), InactiveIds(t), xs, id);
    ghost var k := |xs| - 1;
    var cur := n;
    while cur.parent != 0
      invariant 0 <= k < |xs| && xs[k] in t.nodes && cur == t.nodes[xs[k]] && cur.active
      decreases k
    {
      ParentOnWalk(p, xs, id, k);
      if cur.parent !in t.nodes {
        return BrokenAbove;
      }
      cur := t.nodes[cur.parent];
      k := k - 1;
      if !cur.active {
        assert xs[k] in InactiveIds(t) && p[xs[k]] == 0;
        ParentOnWalk(p, xs, id, k);
        assert k == 0 && cur == t.nodes[xs[0]];
        return InactiveAncestor(cur.code);
      }
    }
    ParentOnWalk(p, xs, id, k);
    r := Valid;
  }

  function Deactivate(t: Tree, n: int): Tree
    requires n in t.nodes
  {
    t.(nodes := t.nodes[n := t.nodes[n].(active := false)])
  }

  /** Deactivating a division closes exactly its subtree, on any snapshot: the ids that stop being
      valid are the previously valid ones below it, and no other id's validity changes. */
  lemma DeactivationClosesTheSubtree(t: Tree, n: int, id: int)
    requires n in t.nodes
    ensures ParentsOf(Deactivate(t, n)) == ParentsOf(t)
    ensures IsValid(Deactivate(t, n), id) <==> IsValid(t, id) && !Below(ParentsOf(t), id, n)
  {
    var t' := Deactivate(t, n);
    assert ParentsOf(t') == ParentsOf(t);
    assert InactiveIds(t') == InactiveIds(t) + {n};
    ValidIsFree(t, id);
    ValidIsFree(t', id);
    StopClosesWhatIsBelow(ParentsOf(t), InactiveIds(t), n, id);
  }

  /** The upward answer and the downward one agree: Ancestors of a division has the root exactly when
      Subtree of the root has the division. */
  lemma AncestorsAgreeWithSubtree(t: Tree, id: int, root: int, up: seq<int>)
    requires IsRooted(ParentsOf(t), up, id)
    ensures root in up <==> Below(ParentsOf(t), id, root)
  {
    BelowIsOnWalk(ParentsOf(t), up, id, root);
  }
}
