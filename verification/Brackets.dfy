/** Progressive bracket tables (hcmrules/bracket.go).  Its decimals add, subtract, multiply and
    compare exactly, so they are reals here. */
module Brackets {
  import opened Results

  datatype Tier = Tier(seqNo: int, lower: real, upper: Option<real>, rate: real, quick: real)

  // ----- The stable sort -----

  /** Behind every tier that is not above it, so tiers with equal bounds keep their order. */
  function Insert(ts: seq<Tier>, t: Tier): (r: seq<Tier>)
    ensures multiset(r) == multiset(ts) + multiset{t}
  {
    if ts == [] || ts[|ts| - 1].lower <= t.lower then ts + [t]
    else
      var init, last := ts[..|ts| - 1], ts[|ts| - 1];
      assert ts == init + [last];
      Insert(init, t) + [last]
  }

  function SortedByLowerBound(ts: seq<Tier>): (r: seq<Tier>)
    ensures multiset(r) == multiset(ts) && |r| == |ts|
  {
    if ts == [] then []
    else
      assert ts == ts[..|ts| - 1] + [ts[|ts| - 1]];
      var r := Insert(SortedByLowerBound(ts[..|ts| - 1]), ts[|ts| - 1]);
      assert |multiset(r)| == |r|;
      r
  }

  predicate Ascending(ts: seq<Tier>) {
    forall i, j :: 0 <= i < j < |ts| ==> ts[i].lower <= ts[j].lower
  }

  /** The tiers starting at one bound, in their order. */
  function StartingAt(ts: seq<Tier>, bound: real): seq<Tier> {
    if ts == [] then []
    else
      var init, last := StartingAt(ts[..|ts| - 1], bound), ts[|ts| - 1];
      if last.lower == bound then init + [last] else init
  }

  ghost predicate Stable(ts: seq<Tier>, r: seq<Tier>) {
    forall bound :: StartingAt(r, bound) == StartingAt(ts, bound)
  }

  function OnlyAt(t: Tier, bound: real): seq<Tier> {
    if t.lower == bound then [t] else []
  }

  lemma OneIsEmpty(a: seq<Tier>, x: seq<Tier>, y: seq<Tier>)
    requires x == [] || y == []
    ensures (a + x) + y == (a + y) + x
  {
  }

  lemma StartingAtAppend(ts: seq<Tier>, t: Tier, bound: real)
    ensures StartingAt(ts + [t], bound) == StartingAt(ts, bound) + OnlyAt(t, bound)
  {
    assert (ts + [t])[..|ts|] == ts;
  }

  /** The new tier comes behind those that start where it does. */
  lemma {:induction false} InsertIsStable(ts: seq<Tier>, t: Tier, bound: real)
    ensures StartingAt(Insert(ts, t), bound) == StartingAt(ts, bound) + OnlyAt(t, bound)
  {
    if ts == [] || ts[|ts| - 1].lower <= t.lower {
      StartingAtAppend(ts, t, bound);
    } else {
      var init, last := ts[..|ts| - 1], ts[|ts| - 1];
      InsertIsStable(init, t, bound);
      StartingAtAppend(Insert(init, t), last, bound);
      StartingAtAppend(init, last, bound);
      assert ts == init + [last];
      OneIsEmpty(StartingAt(init, bound), OnlyAt(t, bound), OnlyAt(last, bound));
    }
  }

  predicate AllUpTo(ts: seq<Tier>, bound: real) {
    forall i :: 0 <= i < |ts| ==> ts[i].lower <= bound
  }

  lemma {:induction false} InsertStaysBelow(ts: seq<Tier>, t: Tier, bound: real)
    requires AllUpTo(ts, bound) && t.lower <= bound
    ensures AllUpTo(Insert(ts, t), bound)
  {
    if ts != [] && ts[|ts| - 1].lower > t.lower {
      InsertStaysBelow(ts[..|ts| - 1], t, bound);
    }
  }

  lemma {:induction false} InsertKeepsOrder(ts: seq<Tier>, t: Tier)
    requires Ascending(ts)
    ensures Ascending(Insert(ts, t))
  {
    if ts != [] && ts[|ts| - 1].lower > t.lower {
      var init, last := ts[..|ts| - 1], ts[|ts| - 1];
      InsertKeepsOrder(init, t);
      InsertStaysBelow(init, t, last.lower);
    }
  }

  /** The sort answers an ascending arrangement of the same tiers, ties in their given order. */
  lemma {:induction false} SortIsStable(ts: seq<Tier>)
    ensures Ascending(SortedByLowerBound(ts)) && Stable(ts, SortedByLowerBound(ts))
  {
    if ts != [] {
      var init, last := ts[..|ts| - 1], ts[|ts| - 1];
      SortIsStable(init);
      var s := SortedByLowerBound(init);
      InsertKeepsOrder(s, last);
      assert ts == init + [last];
      forall bound ensures StartingAt(SortedByLowerBound(ts), bound) == StartingAt(ts, bound) {
        InsertIsStable(s, last, bound);
        StartingAtAppend(init, last, bound);
        assert StartingAt(s, bound) == StartingAt(init, bound);
      }
    }
  }

  lemma {:induction false} StartingAtFinds(ts: seq<Tier>, bound: real)
    ensures forall k :: 0 <= k < |ts| && ts[k].lower == bound ==> ts[k] in StartingAt(ts, bound)
    ensures forall t :: t in StartingAt(ts, bound) ==> t in ts && t.lower == bound
  {
    if ts != [] {
      StartingAtFinds(ts[..|ts| - 1], bound);
    }
  }

  /** A stable ascending arrangement is unique: every stable sort answers what this one does. */
  lemma {:induction false} StableSortIsUnique(xs: seq<Tier>, ys: seq<Tier>)
    requires Ascending(xs) && Ascending(ys) && Stable(xs, ys)
    ensures xs == ys
    decreases |xs| + |ys|
  {
    if xs == [] || ys == [] {
      if xs != [] { StartingAtFinds(xs, xs[0].lower); }
      if ys != [] { StartingAtFinds(ys, ys[0].lower); }
    } else {
      var x, y := xs[|xs| - 1], ys[|ys| - 1];
      TopBoundsAgree(xs, ys);
      var xi, yi := xs[..|xs| - 1], ys[..|ys| - 1];
      assert StartingAt(xs, x.lower) == StartingAt(ys, x.lower);
      SameLast(StartingAt(xi, x.lower), x, StartingAt(yi, x.lower), y);
      forall bound ensures StartingAt(yi, bound) == StartingAt(xi, bound) {
        assert StartingAt(xs, bound) == StartingAt(ys, bound);
      }
      StableSortIsUnique(xi, yi);
      assert xs == xi + [x] && ys == yi + [y];
    }
  }

  lemma SameLast(a: seq<Tier>, x: Tier, b: seq<Tier>, y: Tier)
    requires a + [x] == b + [y]
    ensures a == b && x == y
  {
    assert (a + [x])[|a|] == x && (b + [y])[|b|] == y && |a| == |b|;
    assert a == (a + [x])[..|a|] && b == (b + [y])[..|b|];
  }

  lemma TopBoundsAgree(xs: seq<Tier>, ys: seq<Tier>)
    requires Ascending(xs) && Ascending(ys) && Stable(xs, ys) && xs != [] && ys != []
    ensures xs[|xs| - 1].lower == ys[|ys| - 1].lower
  {
    var x, y := xs[|xs| - 1], ys[|ys| - 1];
    StartingAtFinds(xs, x.lower);
    StartingAtFinds(ys, x.lower);
    StartingAtFinds(xs, y.lower);
    StartingAtFinds(ys, y.lower);
    assert StartingAt(xs, x.lower) == StartingAt(ys, x.lower) && StartingAt(xs, y.lower) == StartingAt(ys, y.lower);
    assert x in ys && y in xs;
  }

  // ----- Marginal accumulation -----

  /** The part of the base inside the tier's own range. */
  function Portion(t: Tier, base: real): real {
    if base <= t.lower then 0.0
    else (if t.upper.Some? && t.upper.value < base then t.upper.value else base) - t.lower
  }

  function Due(t: Tier, base: real): real {
    Portion(t, base) * t.rate
  }

  /** The legal definition: each portion at its own rate. */
  function Tax(ts: seq<Tier>, base: real): real {
    if ts == [] then 0.0
    else Tax(ts[..|ts| - 1], base) + Due(ts[|ts| - 1], base)
  }

  method Marginal(ts: seq<Tier>, base: real) returns (total: real)
    ensures total == Tax(ts, base)
  {
    total := 0.0;
    for i := 0 to |ts|
      invariant total == Tax(ts[..i], base)
    {
      var t := ts[i];
      assert ts[..i + 1][..i] == ts[..i];
      if base <= t.lower {
        continue;
      }
      var upper := base;
      if t.upper.Some? && t.upper.value < base {
        upper := t.upper.value;
      }
      var portion := upper - t.lower;
      total := total + portion * t.rate;
    }
    assert ts[..|ts|] == ts;
  }

  datatype BracketError = NoTiers | NegativeBase | NoTierContains | BaseWentDown

  /** The order the tiers come in never matters. */
  method EvalBracket(ts: seq<Tier>, base: real) returns (r: Result<real, BracketError>)
    ensures r == if ts == [] then Err(NoTiers) else if base < 0.0 then Err(NegativeBase) else Ok(Tax(ts, base))
  {
    if |ts| == 0 {
      return Err(NoTiers);
    }
    if base < 0.0 {
      return Err(NegativeBase);
    }
    var total := Marginal(SortedByLowerBound(ts), base);
    OrderIsIrrelevant(SortedByLowerBound(ts), ts, base);
    r := Ok(total);
  }

  method EvalBracketIncremental(ts: seq<Tier>, before: real, after: real) returns (r: Result<real, BracketError>)
    ensures r == if after < before then Err(BaseWentDown)
                 else if ts == [] then Err(NoTiers)
                 else if before < 0.0 then Err(NegativeBase)
                 else Ok(Increment(ts, before, after))
  {
    if after < before {
      return Err(BaseWentDown);
    }
    var hi := EvalBracket(ts, after);
    if hi.Err? {
      return hi;
    }
    var lo := EvalBracket(ts, before);
    if lo.Err? {
      return lo;
    }
    r := Ok(hi.value - lo.value);
  }

  lemma {:induction false} TaxSplits(a: seq<Tier>, b: seq<Tier>, base: real)
    ensures Tax(a + b, base) == Tax(a, base) + Tax(b, base)
  {
    if b == [] {
      assert a + b == a;
    } else {
      assert (a + b)[..|a + b| - 1] == a + b[..|b| - 1];
      TaxSplits(a, b[..|b| - 1], base);
    }
  }

  /** The tax depends on which tiers there are, not on their order. */
  lemma {:induction false} OrderIsIrrelevant(xs: seq<Tier>, ys: seq<Tier>, base: real)
    requires multiset(xs) == multiset(ys)
    ensures Tax(xs, base) == Tax(ys, base)
    decreases |xs|
  {
    if xs == [] {
      assert |multiset(ys)| == 0;
    } else {
      var init, last := xs[..|xs| - 1], xs[|xs| - 1];
      assert xs == init + [last];
      assert last in multiset(ys);
      var k :| 0 <= k < |ys| && ys[k] == last;
      var a, b := ys[..k], ys[k + 1..];
      assert ys == a + [last] + b;
      SameRest(init, last, a, b);
      OrderIsIrrelevant(init, a + b, base);
      TakingOneOut(a, last, b, base);
    }
  }

  lemma SameRest(init: seq<Tier>, t: Tier, a: seq<Tier>, b: seq<Tier>)
    requires multiset(init + [t]) == multiset(a + [t] + b)
    ensures multiset(init) == multiset(a + b)
  {
    assert multiset(init) == multiset(init + [t]) - multiset{t};
    assert multiset(a + b) == multiset(a + [t] + b) - multiset{t};
  }

  lemma TakingOneOut(a: seq<Tier>, t: Tier, b: seq<Tier>, base: real)
    ensures Tax(a + [t] + b, base) == Tax(a + b, base) + Due(t, base)
  {
    TaxSplits(a, b, base);
    TaxSplits(a + [t], b, base);
    assert (a + [t])[..|a|] == a;
  }

  // ----- Increments -----

  /** What the slice between two bases adds. */
  function Increment(ts: seq<Tier>, before: real, after: real): real {
    Tax(ts, after) - Tax(ts, before)
  }

  lemma SlicesJoin(ts: seq<Tier>, a: real, b: real, c: real)
    ensures Increment(ts, a, b) + Increment(ts, b, c) == Increment(ts, a, c) && Increment(ts, a, a) == 0.0
  {
  }

  /** What each payment of the month withholds. */
  function Increments(ts: seq<Tier>, bases: seq<real>): (r: seq<real>)
    ensures |r| == if bases == [] then 0 else |bases| - 1
  {
    if |bases| <= 1 then []
    else Increments(ts, bases[..|bases| - 1]) + [Increment(ts, bases[|bases| - 2], bases[|bases| - 1])]
  }

  function Sum(xs: seq<real>): real {
    if xs == [] then 0.0 else Sum(xs[..|xs| - 1]) + xs[|xs| - 1]
  }

  predicate NonDecreasing(bases: seq<real>) {
    forall i, j :: 0 <= i < j < |bases| ==> bases[i] <= bases[j]
  }

  predicate BoundsOrdered(ts: seq<Tier>) {
    forall i :: 0 <= i < |ts| ==> ts[i].upper.Some? ==> ts[i].lower <= ts[i].upper.value
  }

  predicate WellPriced(ts: seq<Tier>) {
    BoundsOrdered(ts) && forall i :: 0 <= i < |ts| ==> ts[i].rate >= 0.0
  }

  lemma DueGrows(t: Tier, before: real, after: real)
    requires t.rate >= 0.0 && (t.upper.Some? ==> t.lower <= t.upper.value) && before <= after
    ensures Due(t, before) <= Due(t, after)
  {
    assert Portion(t, before) <= Portion(t, after);
  }

  lemma {:induction false} TaxGrows(ts: seq<Tier>, before: real, after: real)
    requires WellPriced(ts) && before <= after
    ensures Tax(ts, before) <= Tax(ts, after)
  {
    if ts != [] {
      TaxGrows(ts[..|ts| - 1], before, after);
      DueGrows(ts[|ts| - 1], before, after);
    }
  }

  lemma SumOfOneMore(xs: seq<real>, x: real)
    ensures Sum(xs + [x]) == Sum(xs) + x
  {
    assert (xs + [x])[..|xs|] == xs;
  }

  lemma {:induction false} IncrementsTelescope(ts: seq<Tier>, bases: seq<real>)
    requires bases != []
    ensures Sum(Increments(ts, bases)) == Increment(ts, bases[0], bases[|bases| - 1])
  {
    if |bases| > 1 {
      var n := |bases| - 1;
      IncrementsTelescope(ts, bases[..n]);
      SumOfOneMore(Increments(ts, bases[..n]), Increment(ts, bases[n - 1], bases[n]));
      SlicesJoin(ts, bases[0], bases[n - 1], bases[n]);
    } else {
      SlicesJoin(ts, bases[0], bases[0], bases[0]);
    }
  }

  /** On a table with ordered bounds and no negative rate, no payment of a growing month is negative. */
  lemma {:induction false} IncrementsAreNotNegative(ts: seq<Tier>, bases: seq<real>, k: nat)
    requires NonDecreasing(bases) && WellPriced(ts) && k < |Increments(ts, bases)|
    ensures Increments(ts, bases)[k] >= 0.0
  {
    var n := |bases| - 1;
    if k < n - 1 {
      IncrementsAreNotNegative(ts, bases[..n], k);
    } else {
      TaxGrows(ts, bases[n - 1], bases[n]);
    }
  }

  /** The withholdings of a month that starts at or below the table's first bound add up to the tax
      of its total, in whatever order the table's tiers come. */
  lemma {:induction false} MonthIsWithheldInFull(ts: seq<Tier>, bases: seq<real>, shuffled: seq<Tier>)
    requires bases != [] && forall i :: 0 <= i < |ts| ==> bases[0] <= ts[i].lower
    requires multiset(shuffled) == multiset(ts)
    ensures Sum(Increments(shuffled, bases)) == Tax(ts, bases[|bases| - 1])
  {
    IncrementsTelescope(shuffled, bases);
    OrderIsIrrelevant(shuffled, ts, bases[0]);
    OrderIsIrrelevant(shuffled, ts, bases[|bases| - 1]);
    NothingBelowTheFirstBound(ts, bases[0]);
  }

  lemma {:induction false} NothingBelowTheFirstBound(ts: seq<Tier>, base: real)
    requires forall i :: 0 <= i < |ts| ==> base <= ts[i].lower
    ensures Tax(ts, base) == 0.0
  {
    if ts != [] {
      NothingBelowTheFirstBound(ts[..|ts| - 1], base);
    }
  }

  // ----- Quick deduction -----

  predicate Contains(t: Tier, base: real) {
    t.lower <= base && (t.upper.Some? ==> base <= t.upper.value)
  }

  predicate FirstContaining(ts: seq<Tier>, base: real, k: nat) {
    k < |ts| && Contains(ts[k], base) && forall j :: 0 <= j < k ==> !Contains(ts[j], base)
  }

  /** One lookup instead of a walk: base times rate less a deduction. */
  function Lookup(t: Tier, base: real, deduction: real): real {
    base * t.rate - deduction
  }

  method QuickDeduction(ts: seq<Tier>, base: real) returns (r: Result<real, BracketError>)
    ensures r.Ok? ==> exists k: nat :: FirstContaining(ts, base, k) && r.value == Lookup(ts[k], base, ts[k].quick)
    ensures r.Err? ==> r.error == NoTierContains && forall k :: 0 <= k < |ts| ==> !Contains(ts[k], base)
  {
    for i := 0 to |ts|
      invariant forall j :: 0 <= j < i ==> !Contains(ts[j], base)
    {
      var t := ts[i];
      var inLower := base >= t.lower;
      var inUpper := t.upper.None? || base <= t.upper.value;
      if inLower && inUpper {
        assert FirstContaining(ts, base, i);
        return Ok(base * t.rate - t.quick);
      }
    }
    r := Err(NoTierContains);
  }

  /** Each tier starts where the one before it ends; only the last may be uncapped. */
  predicate Contiguous(ts: seq<Tier>) {
    && ts != []
    && BoundsOrdered(ts)
    && forall i :: 0 < i < |ts| ==> Joins(ts, i)
  }

  predicate Joins(ts: seq<Tier>, i: int)
    requires 0 < i < |ts|
  {
    ts[i - 1].upper == Some(ts[i].lower)
  }

  /** From the first lower bound up to the last upper bound, if there is one. */
  predicate Covered(ts: seq<Tier>, base: real)
    requires ts != []
  {
    ts[0].lower <= base && (ts[|ts| - 1].upper.Some? ==> base <= ts[|ts| - 1].upper.value)
  }

  function Step(t: Tier, next: Tier): real {
    next.lower * (next.rate - t.rate)
  }

  /** The deduction a published table should carry: q0 = L0 r0, then a step of L(i+1) (r(i+1) - r(i)) per tier. */
  function Deduction(ts: seq<Tier>, i: nat): real
    requires i < |ts|
  {
    if i == 0 then ts[0].lower * ts[0].rate
    else Deduction(ts, i - 1) + Step(ts[i - 1], ts[i])
  }

  /** A base outside a contiguous table is in no tier, and every base inside it is in one. */
  lemma {:induction false} CoveredMeansContained(ts: seq<Tier>, base: real)
    requires Contiguous(ts)
    ensures Covered(ts, base) <==> exists k: nat :: FirstContaining(ts, base, k)
    decreases |ts|
  {
    BoundsAscend(ts);
    if ts[0].lower <= base && Covered(ts, base) {
      var n := |ts| - 1;
      if n == 0 {
        assert FirstContaining(ts, base, 0);
      } else {
        assert Joins(ts, n);
        if base <= ts[n].lower {
          CoveredInFront(ts, base);
        } else {
          forall j | 0 <= j < n ensures !Contains(ts[j], base) {
            assert ts[j].upper.Some? && ts[j].upper.value <= ts[n].lower;
          }
          assert FirstContaining(ts, base, n);
        }
      }
    }
  }

  lemma {:induction false} CoveredInFront(ts: seq<Tier>, base: real)
    requires Contiguous(ts) && |ts| > 1 && ts[0].lower <= base <= ts[|ts| - 1].lower
    ensures exists k: nat :: FirstContaining(ts, base, k)
    decreases |ts|, 0
  {
    var init := ts[..|ts| - 1];
    assert Joins(ts, |ts| - 1);
    forall i | 0 < i < |init| ensures Joins(init, i) {
      assert Joins(ts, i);
    }
    CoveredMeansContained(init, base);
    var k :| FirstContaining(init, base, k);
    assert FirstContaining(ts, base, k);
  }

  /** Bounds climb: an earlier tier ends no later than a later one starts. */
  lemma {:induction false} BoundsAscend(ts: seq<Tier>)
    requires Contiguous(ts)
    ensures forall i, j :: 0 <= i < j < |ts| ==> ts[i].upper.Some? && ts[i].lower <= ts[i].upper.value <= ts[j].lower
    decreases |ts|
  {
    if |ts| > 1 {
      var n := |ts| - 1;
      var init := ts[..n];
      forall i | 0 < i < n ensures Joins(init, i) {
        assert Joins(ts, i);
      }
      assert Joins(ts, n);
      BoundsAscend(init);
      assert ts[n - 1].lower <= ts[n].lower;
      forall i | 0 <= i < n ensures ts[i].upper.Some? && ts[i].lower <= ts[i].upper.value <= ts[n].lower {
        assert i < n - 1 ==> init[i].upper.Some? && init[i].upper.value <= init[n - 1].lower;
      }
    }
  }

  /** What a full tier adds, folded into the next tier's deduction. */
  lemma NextTier(below: real, t: Tier, next: Tier, base: real, d: real)
    requires below == Lookup(t, t.lower, d)
    requires t.upper == Some(next.lower) && t.lower <= next.lower <= base
    ensures below + Due(t, base) == Lookup(next, next.lower, d + Step(t, next))
  {
    assert Portion(t, base) == next.lower - t.lower;
  }

  lemma LastDue(ts: seq<Tier>, i: nat, base: real)
    requires i < |ts|
    ensures Tax(ts[..i + 1], base) == Tax(ts[..i], base) + Due(ts[i], base)
  {
    assert ts[..i + 1][..i] == ts[..i];
  }

  /** Everything below tier i, once the base is past it. */
  lemma {:induction false} TiersBelow(ts: seq<Tier>, i: nat, base: real)
    requires Contiguous(ts) && i < |ts| && ts[i].lower <= base
    ensures Tax(ts[..i], base) == Lookup(ts[i], ts[i].lower, Deduction(ts, i))
  {
    if i > 0 {
      BoundsAscend(ts);
      assert Joins(ts, i);
      TiersBelow(ts, i - 1, base);
      LastDue(ts, i - 1, base);
      NextTier(Tax(ts[..i - 1], base), ts[i - 1], ts[i], base, Deduction(ts, i - 1));
    }
  }

  lemma InsideTier(below: real, t: Tier, base: real, d: real)
    requires below == Lookup(t, t.lower, d) && Contains(t, base)
    ensures below + Due(t, base) == Lookup(t, base, d)
  {
    assert Portion(t, base) == base - t.lower;
  }

  /** Inside tier i the tax is one lookup with the derived deduction. */
  lemma TaxInTier(ts: seq<Tier>, i: nat, base: real)
    requires Contiguous(ts) && i < |ts| && Contains(ts[i], base)
    ensures Tax(ts, base) == Lookup(ts[i], base, Deduction(ts, i))
  {
    TiersBelow(ts, i, base);
    BoundsAscend(ts);
    var rest := ts[i + 1..];
    NothingBelowTheFirstBound(rest, base);
    assert ts == ts[..i + 1] + rest;
    TaxSplits(ts[..i + 1], rest, base);
    LastDue(ts, i, base);
    InsideTier(Tax(ts[..i], base), ts[i], base, Deduction(ts, i));
  }

  /** The first tier whose lookup a base can reach: the first, or one with some width. */
  predicate Reached(ts: seq<Tier>, i: nat) {
    i < |ts| && (i == 0 || ts[i].upper.None? || ts[i].lower < ts[i].upper.value)
  }

  lemma ReachedByABase(ts: seq<Tier>, i: nat) returns (base: real)
    requires Contiguous(ts) && Reached(ts, i)
    ensures Covered(ts, base) && FirstContaining(ts, base, i)
  {
    BoundsAscend(ts);
    base := if i == 0 then ts[0].lower else if ts[i].upper.Some? then ts[i].upper.value else ts[i].lower + 1.0;
    forall j | 0 <= j < i ensures !Contains(ts[j], base) {
      assert ts[j].upper.value <= ts[i].lower < base;
    }
    CoveredMeansContained(ts, base);
  }

  /** The lookup reads only reached tiers. */
  lemma FirstIsReached(ts: seq<Tier>, base: real, k: nat)
    requires Contiguous(ts) && FirstContaining(ts, base, k)
    ensures Reached(ts, k)
  {
    if k > 0 {
      BoundsAscend(ts);
      assert Joins(ts, k);
      assert !Contains(ts[k - 1], base);
    }
  }

  ghost predicate Agree(ts: seq<Tier>, base: real) {
    forall k: nat :: FirstContaining(ts, base, k) ==> Tax(ts, base) == Lookup(ts[k], base, ts[k].quick)
  }

  lemma SameLookup(t: Tier, base: real, d: real, e: real)
    requires Lookup(t, base, d) == Lookup(t, base, e)
    ensures d == e
  {
  }

  lemma DerivedAgree(ts: seq<Tier>, base: real)
    requires Contiguous(ts) && forall i: nat :: Reached(ts, i) ==> ts[i].quick == Deduction(ts, i)
    ensures Agree(ts, base)
  {
    forall k: nat | FirstContaining(ts, base, k) ensures Tax(ts, base) == Lookup(ts[k], base, ts[k].quick) {
      TaxInTier(ts, k, base);
      FirstIsReached(ts, base, k);
    }
  }

  /** The published shortcut agrees with the legal definition at every base the table covers,
      boundaries included, exactly when every tier the lookup can reach carries the derived
      deduction. */
  lemma ShortcutAgreesIffDeductionsDerived(ts: seq<Tier>)
    requires Contiguous(ts)
    ensures (forall base :: Covered(ts, base) ==> Agree(ts, base))
       <==> (forall i: nat :: Reached(ts, i) ==> ts[i].quick == Deduction(ts, i))
  {
    if forall i: nat :: Reached(ts, i) ==> ts[i].quick == Deduction(ts, i) {
      forall base | Covered(ts, base) ensures Agree(ts, base) {
        DerivedAgree(ts, base);
      }
    }
    if forall base :: Covered(ts, base) ==> Agree(ts, base) {
      forall i: nat | Reached(ts, i) ensures ts[i].quick == Deduction(ts, i) {
        var base := ReachedByABase(ts, i);
        assert Agree(ts, base);
        TaxInTier(ts, i, base);
        SameLookup(ts[i], base, ts[i].quick, Deduction(ts, i));
      }
    }
  }

  /** Above a capped table the tax stops accruing, where the lookup has no answer. */
  lemma CappedTaxStops(ts: seq<Tier>, base: real)
    requires Contiguous(ts) && ts[|ts| - 1].upper.Some? && ts[|ts| - 1].upper.value < base
    ensures Tax(ts, base) == Tax(ts, ts[|ts| - 1].upper.value)
    ensures !exists k: nat :: FirstContaining(ts, base, k)
  {
    var cap := ts[|ts| - 1].upper.value;
    BoundsAscend(ts);
    CoveredMeansContained(ts, base);
    StopsAtCap(ts, cap, base);
  }

  lemma {:induction false} StopsAtCap(ts: seq<Tier>, cap: real, base: real)
    requires BoundsOrdered(ts) && forall i :: 0 <= i < |ts| ==> ts[i].upper.Some? && ts[i].upper.value <= cap
    requires cap <= base
    ensures Tax(ts, base) == Tax(ts, cap)
  {
    if ts != [] {
      StopsAtCap(ts[..|ts| - 1], cap, base);
      assert Portion(ts[|ts| - 1], base) == Portion(ts[|ts| - 1], cap);
    }
  }
}
