/** The cost-centre snapshot and its coherence with the organisational tree
    (divisions/catalogs.go). */
module Catalogs {
  import opened Results
  import opened Forests
  import D = Divisions

  type Day = int

  datatype Center = Center(parent: int, anchor: int, code: string, active: bool, starts: Option<Day>, ends: Option<Day>)

  type Centers = map<int, Center>

  function ParentsOf(cs: Centers): Parents {
    map id | id in cs :: cs[id].parent
  }

  // ----- Windows and validity -----

  datatype Window = OpenToday | OpensOn(day: Day) | ClosedSince(day: Day)

  datatype Verdict =
    | Valid
    | Missing
    | Inactive
    | OutOfWindow(why: Window)
    | BrokenAbove
    | InactiveAncestor(code: string)
    | AncestorOutOfWindow(code: string, reason: Window)

  function WindowOn(c: Center, today: Day): (w: Window)
    ensures w.OpenToday? <==> (c.starts.Some? ==> c.starts.value <= today) && (c.ends.Some? ==> today <= c.ends.value)
    ensures w.OpensOn? <==> c.starts.Some? && today < c.starts.value
    ensures w.OpensOn? ==> w.day == c.starts.value
    ensures w.ClosedSince? ==> c.ends.Some? && w.day == c.ends.value
  {
    if c.starts.Some? && today < c.starts.value then OpensOn(c.starts.value)
    else if c.ends.Some? && today > c.ends.value then ClosedSince(c.ends.value)
    else OpenToday
  }

  predicate Open(c: Center, today: Day) {
    c.active && WindowOn(c, today).OpenToday?
  }

  function ClosedIds(cs: Centers, today: Day): set<int> {
    set id | id in cs && !Open(cs[id], today)
  }

  /** The walk of validate ends at the first centre above that is not open, or where the chain does. */
  ghost predicate WalkEnds(cs: Centers, id: int, today: Day) {
    exists xs :: IsWalk(StopAt(ParentsOf(cs), ClosedIds(cs, today)), xs, id)
  }

  /** Valid means: on a chain that reaches a root, all of it active and inside its window. */
  ghost predicate IsValid(cs: Centers, id: int, today: Day) {
    exists xs :: IsRooted(ParentsOf(cs), xs, id) && forall x :: x in xs ==> Open(cs[x], today)
  }

  lemma ValidIsFree(cs: Centers, id: int, today: Day)
    ensures IsValid(cs, id, today) <==> FreeToRoot(ParentsOf(cs), ClosedIds(cs, today), id)
  {
    if xs :| IsRooted(ParentsOf(cs), xs, id) && forall x :: x in xs ==> Open(cs[x], today) {
      assert forall x :: x in xs ==> x !in ClosedIds(cs, today);
    }
    if xs :| IsRooted(ParentsOf(cs), xs, id) && forall x :: x in xs ==> x !in ClosedIds(cs, today) {
      forall x | x in xs ensures Open(cs[x], today) {
        assert x !in ClosedIds(cs, today) && x in ParentsOf(cs);
      }
    }
  }

  /** What a centre says of itself, and what it says of those below it when the walk ends there. */
  function OwnVerdict(c: Center, today: Day): Verdict {
    if !c.active then Inactive
    else if !WindowOn(c, today).OpenToday? then OutOfWindow(WindowOn(c, today))
    else Valid
  }

  function VerdictAtTop(top: Center, today: Day): Verdict {
    if !top.active then InactiveAncestor(top.code)
    else if !WindowOn(top, today).OpenToday? then AncestorOutOfWindow(top.code, WindowOn(top, today))
    else if top.parent != 0 then BrokenAbove
    else Valid
  }

  ghost function Judge(cs: Centers, id: int, today: Day): Verdict
    requires id in cs ==> WalkEnds(cs, id, today)
  {
    if id !in cs then Missing
    else if !Open(cs[id], today) then OwnVerdict(cs[id], today)
    else
      var xs :| IsWalk(StopAt(ParentsOf(cs), ClosedIds(cs, today)), xs, id);
      VerdictAtTop(cs[xs[0]], today)
  }

  /** From id up to `top`, the centre itself aside, everything on the chain is open. */
  ghost predicate OpenUpTo(cs: Centers, id: int, today: Day, top: int) {
    exists xs :: IsStretch(ParentsOf(cs), xs, id) && xs[0] == top && forall i :: 0 < i < |xs| ==> Open(cs[xs[i]], today)
  }

  lemma WalkIsOpen(cs: Centers, id: int, today: Day, xs: seq<int>)
    requires IsWalk(StopAt(ParentsOf(cs), ClosedIds(cs, today)), xs, id)
    ensures OpenUpTo(cs, id, today, xs[0])
  {
    StoppedIsStretch(ParentsOf(cs), ClosedIds(cs, today), xs, id);
    forall i | 0 < i < |xs| ensures Open(cs[xs[i]], today) {
      assert xs[i] in ParentsOf(cs) && xs[i] !in ClosedIds(cs, today);
    }
  }

  lemma VerdictIsAtTop(cs: Centers, id: int, today: Day, xs: seq<int>)
    requires id in cs && Open(cs[id], today) && IsWalk(StopAt(ParentsOf(cs), ClosedIds(cs, today)), xs, id)
    ensures xs[0] in cs && Judge(cs, id, today) == VerdictAtTop(cs[xs[0]], today)
  {
    var p := StopAt(ParentsOf(cs), ClosedIds(cs, today));
    forall ys | IsWalk(p, ys, id) ensures ys == xs {
      WalkIsUnique(p, xs, ys, id);
    }
  }

  /** The upward walk of validate.  It needs a chain that ends, at a closed ancestor at the latest. */
  method Validate(cs: Centers, id: int, today: Day) returns (r: Verdict)
    requires id in cs ==> WalkEnds(cs, id, today)
    ensures r == Judge(cs, id, today)
    ensures r.Valid? <==> IsValid(cs, id, today)
    ensures r.Missing? <==> id !in cs
    ensures r.Inactive? <==> id in cs && !cs[id].active
    ensures r.OutOfWindow? <==> id in cs && cs[id].active && WindowOn(cs[id], today) != OpenToday
    ensures r.OutOfWindow? ==> r.why == WindowOn(cs[id], today)
    ensures r.BrokenAbove? ==> exists top :: OpenUpTo(cs, id, today, top) && top in cs && Open(cs[top], today)
                                 && cs[top].parent != 0 && cs[top].parent !in cs
    ensures r.InactiveAncestor? ==> exists top :: OpenUpTo(cs, id, today, top) && top != id && top in cs
                                      && !cs[top].active && cs[top].code == r.code
    ensures r.AncestorOutOfWindow? ==>
              exists top :: OpenUpTo(cs, id, today, top) && top != id && top in cs && cs[top].active
                && cs[top].code == r.code && r.reason == WindowOn(cs[top], today) && r.reason != OpenToday
  {
    ValidIsFree(cs, id, today);
    if id !in cs {
      return Missing;
    }
    var cur := cs[id];
    if !cur.active {
      return Inactive;
    }
    var w := WindowOn(cur, today);
    if w != OpenToday {
      return OutOfWindow(w);
    }
    ghost var p := StopAt(ParentsOf(cs), ClosedIds(cs, today));
    ghost var xs :| IsWalk(p, xs, id);
    VerdictIsAtTop(cs, id, today, xs);
    WalkIsOpen(cs, id, today, xs);
    EndsFreeIffFreeToRoot(ParentsOf(cs), ClosedIds(cs, today), xs, id);
    ghost var k := |xs| - 1;
    while cur.parent != 0
      invariant 0 <= k < |xs| && xs[k] in cs && cur == cs[xs[k]] && Open(cur, today)
      decreases k
    {
      ParentOnWalk(p, xs, id, k);
      if cur.parent !in cs {
        return BrokenAbove;
      }
      cur := cs[cur.parent];
      k := k - 1;
      ClosedIsTop(cs, id, today, xs, k);
      if !cur.active {
        return InactiveAncestor(cur.code);
      }
      w := WindowOn(cur, today);
      if w != OpenToday {
        return AncestorOutOfWindow(cur.code, w);
      }
    }
    ParentOnWalk(p, xs, id, k);
    r := Valid;
  }

  lemma ClosedIsTop(cs: Centers, id: int, today: Day, xs: seq<int>, k: nat)
    requires IsWalk(StopAt(ParentsOf(cs), ClosedIds(cs, today)), xs, id) && k < |xs|
    ensures xs[k] in cs && (!Open(cs[xs[k]], today) ==> k == 0)
  {
    ParentOnWalk(StopAt(ParentsOf(cs), ClosedIds(cs, today)), xs, id, k);
  }

  /** Shutting a centre for today, by its flag or by its window, shuts exactly what hangs below it. */
  lemma ShuttingClosesTheSubtree(cs: Centers, n: int, c: Center, id: int, today: Day)
    requires n in cs && c.parent == cs[n].parent && !Open(c, today)
    ensures ParentsOf(cs[n := c]) == ParentsOf(cs)
    ensures IsValid(cs[n := c], id, today) <==> IsValid(cs, id, today) && !Below(ParentsOf(cs), id, n)
  {
    var cs' := cs[n := c];
    assert ParentsOf(cs') == ParentsOf(cs);
    assert ClosedIds(cs', today) == ClosedIds(cs, today) + {n};
    ValidIsFree(cs, id, today);
    ValidIsFree(cs', id, today);
    StopClosesWhatIsBelow(ParentsOf(cs), ClosedIds(cs, today), n, id);
  }

  /** The days on which a centre is valid have no gap. */
  lemma ValidDaysAreAnInterval(cs: Centers, id: int, first: Day, between: Day, last: Day)
    requires first <= between <= last && IsValid(cs, id, first) && IsValid(cs, id, last)
    ensures IsValid(cs, id, between)
  {
    var p := ParentsOf(cs);
    var xs :| IsRooted(p, xs, id) && forall x :: x in xs ==> Open(cs[x], first);
    var ys :| IsRooted(p, ys, id) && forall x :: x in ys ==> Open(cs[x], last);
    WalkIsUnique(p, xs, ys, id);
    forall x | x in xs ensures Open(cs[x], between) {
      assert Open(cs[x], first) && Open(cs[x], last);
    }
  }

  // ----- Coherence -----

  function Anchor(cs: Centers, id: int): Result<int, D.TreeError> {
    if id in cs then Ok(cs[id].anchor) else Err(D.NotFound)
  }

  /** A division and a cost centre are coherent exactly when the centre's anchor is on the
      division's chain of ancestors, the division itself included.  The answer comes from a
      downward search of the anchor's subtree; the contract speaks of the upward chain. */
  method CheckCoherence(t: D.Tree, cs: Centers, division: int, center: int) returns (r: Result<bool, D.TreeError>)
    requires D.ChildrenMatch(t) && (center in cs ==> !OnACycle(D.ParentsOf(t), cs[center].anchor))
    ensures r.Err? <==> center !in cs || cs[center].anchor !in t.nodes
    ensures r.Err? ==> r.error == D.NotFound
    ensures r.Ok? ==> (r.value <==> Below(D.ParentsOf(t), division, cs[center].anchor))
    ensures r.Ok? ==> forall up :: IsRooted(D.ParentsOf(t), up, division) ==> (r.value <==> cs[center].anchor in up)
  {
    var a := Anchor(cs, center);
    if a.Err? {
      return Err(a.error);
    }
    var s := D.Subtree(t, a.value);
    if s.Err? {
      return Err(s.error);
    }
    ghost var p := D.ParentsOf(t);
    forall up | IsRooted(p, up, division) ensures a.value in up <==> Below(p, division, a.value) {
      D.AncestorsAgreeWithSubtree(t, division, a.value, up);
    }
    var ids := s.value;
    for i := 0 to |ids|
      invariant division !in ids[..i]
    {
      if ids[i] == division {
        assert Below(p, division, a.value);
        return Ok(true);
      }
    }
    assert division !in ids;
    r := Ok(false);
  }
}
