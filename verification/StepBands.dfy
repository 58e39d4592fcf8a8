/** Step lookups by threshold (hcmrules/formula.go): the band that answers, and what its choice
    guarantees. */
module StepBands {
  import opened Results

  datatype StepBand = StepBand(min: real, exclusive: bool, value: real)

  predicate MetBy(b: StepBand, x: real) {
    if b.exclusive then x > b.min else x >= b.min
  }

  predicate Outranks(b: StepBand, o: StepBand) {
    if b.min != o.min then b.min > o.min else b.exclusive && !o.exclusive
  }

  /** Band k answers x: it is met, no met band outranks it, and it comes first among its equals. */
  predicate Wins(bands: seq<StepBand>, x: real, k: nat) {
    && k < |bands| && MetBy(bands[k], x)
    && (forall j :: 0 <= j < |bands| && MetBy(bands[j], x) ==> !Outranks(bands[j], bands[k]))
    && (forall j :: 0 <= j < k && MetBy(bands[j], x) ==> Outranks(bands[k], bands[j]))
  }

  predicate NoneMet(bands: seq<StepBand>, x: real) {
    forall j :: 0 <= j < |bands| ==> !MetBy(bands[j], x)
  }

  /** What the lookup answers. */
  ghost predicate Answers(bands: seq<StepBand>, x: real, r: Option<real>) {
    match r
    case None => NoneMet(bands, x)
    case Some(v) => exists k: nat :: Wins(bands, x, k) && bands[k].value == v
  }

  method HighestMet(bands: seq<StepBand>, x: real) returns (value: real, ok: bool)
    ensures ok <==> !NoneMet(bands, x)
    ensures Answers(bands, x, if ok then Some(value) else None)
    ensures !ok ==> value == 0.0
  {
    var best := StepBand(0.0, false, 0.0);
    ok := false;
    ghost var k: nat := 0;
    for i := 0 to |bands|
      invariant !ok ==> best.value == 0.0 && NoneMet(bands[..i], x)
      invariant ok ==> Wins(bands[..i], x, k) && best == bands[k]
    {
      var b := bands[i];
      assert bands[..i + 1] == bands[..i] + [b];
      if MetBy(b, x) && (!ok || Outranks(b, best)) {
        best, ok := b, true;
        k := i;
      }
    }
    assert bands[..|bands|] == bands;
    value := best.value;
  }

  lemma WinnerIsUnique(bands: seq<StepBand>, x: real, j: nat, k: nat)
    requires Wins(bands, x, j) && Wins(bands, x, k)
    ensures j == k
  {
  }

  lemma {:induction false} SomeBandWins(bands: seq<StepBand>, x: real) returns (k: nat)
    requires !NoneMet(bands, x)
    ensures Wins(bands, x, k)
  {
    var init, last := bands[..|bands| - 1], bands[|bands| - 1];
    assert bands == init + [last];
    if NoneMet(init, x) {
      k := |bands| - 1;
    } else {
      k := SomeBandWins(init, x);
      if MetBy(last, x) && Outranks(last, bands[k]) {
        k := |bands| - 1;
      }
    }
  }

  // ----- The order of the bands -----

  /** Bands met by x that nothing met outranks all carry one value. */
  predicate TopTiesAgree(bands: seq<StepBand>, x: real) {
    forall i, j :: 0 <= i < |bands| && 0 <= j < |bands| && IsTop(bands, x, i) && IsTop(bands, x, j)
      ==> bands[i].value == bands[j].value
  }

  predicate IsTop(bands: seq<StepBand>, x: real, i: int)
    requires 0 <= i < |bands|
  {
    MetBy(bands[i], x) && forall j :: 0 <= j < |bands| && MetBy(bands[j], x) ==> !Outranks(bands[j], bands[i])
  }

  lemma SameTops(xs: seq<StepBand>, ys: seq<StepBand>, x: real, i: nat) returns (j: nat)
    requires multiset(xs) == multiset(ys) && i < |ys| && IsTop(ys, x, i)
    ensures j < |xs| && xs[j] == ys[i] && IsTop(xs, x, j)
  {
    assert ys[i] in multiset(ys);
    assert ys[i] in xs;
    j :| 0 <= j < |xs| && xs[j] == ys[i];
    forall k | 0 <= k < |xs| && MetBy(xs[k], x) ensures !Outranks(xs[k], xs[j]) {
      assert xs[k] in multiset(xs);
      assert xs[k] in ys;
    }
  }

  /** Bands may come in any order, as long as equal thresholds do not disagree on the value. */
  lemma AnyOrderAnswersTheSame(xs: seq<StepBand>, ys: seq<StepBand>, x: real, r: Option<real>)
    requires multiset(xs) == multiset(ys) && TopTiesAgree(xs, x) && Answers(xs, x, r)
    ensures Answers(ys, x, r)
  {
    if NoneMet(xs, x) {
      forall k | 0 <= k < |ys| ensures !MetBy(ys[k], x) {
        assert ys[k] in multiset(ys);
        assert ys[k] in xs;
      }
    } else {
      var i: nat :| Wins(xs, x, i) && Some(xs[i].value) == r;
      assert xs[i] in multiset(xs);
      assert xs[i] in ys;
      var k := SomeBandWins(ys, x);
      var j := SameTops(xs, ys, x, k);
      assert IsTop(xs, x, i);
    }
  }

  /** Band m brought to the front. */
  function FirstComes(xs: seq<StepBand>, m: nat): (ys: seq<StepBand>)
    requires m < |xs|
    ensures multiset(ys) == multiset(xs)
  {
    assert xs == xs[..m] + [xs[m]] + xs[m + 1..];
    [xs[m]] + xs[..m] + xs[m + 1..]
  }

  lemma FrontTopWins(xs: seq<StepBand>, x: real, m: nat)
    requires m < |xs| && IsTop(xs, x, m)
    ensures Answers(FirstComes(xs, m), x, Some(xs[m].value))
  {
    var ys := FirstComes(xs, m);
    assert ys[0] == xs[m];
    forall q | 0 <= q < |ys| && MetBy(ys[q], x) ensures !Outranks(ys[q], ys[0]) {
      assert ys[q] in multiset(ys);
      assert ys[q] in xs;
    }
    assert Wins(ys, x, 0);
  }

  /** ... and otherwise some order gives another answer: bringing a dissenting tie to the front. */
  lemma TiesMakeOrderMatter(xs: seq<StepBand>, x: real) returns (ys: seq<StepBand>, r: Option<real>, s: Option<real>)
    requires !TopTiesAgree(xs, x)
    ensures multiset(xs) == multiset(ys) && Answers(xs, x, r) && Answers(ys, x, s) && r != s
  {
    var i, j :| 0 <= i < |xs| && 0 <= j < |xs| && IsTop(xs, x, i) && IsTop(xs, x, j) && xs[i].value != xs[j].value;
    var k := SomeBandWins(xs, x);
    var m := if xs[i].value != xs[k].value then i else j;
    FrontTopWins(xs, x, m);
    ys, r, s := FirstComes(xs, m), Some(xs[k].value), Some(xs[m].value);
  }

  /** The order of the bands never matters exactly when top-ranked ties agree. */
  lemma OrderIsFreeIffTiesAgree(xs: seq<StepBand>, x: real)
    ensures TopTiesAgree(xs, x)
       <==> forall ys, r :: multiset(ys) == multiset(xs) && Answers(xs, x, r) ==> Answers(ys, x, r)
  {
    if TopTiesAgree(xs, x) {
      forall ys, r | multiset(ys) == multiset(xs) && Answers(xs, x, r) ensures Answers(ys, x, r) {
        AnyOrderAnswersTheSame(xs, ys, x, r);
      }
    } else {
      var ys, r, s := TiesMakeOrderMatter(xs, x);
      if Answers(ys, x, r) {
        OneAnswer(ys, x, r, s);
      }
    }
  }

  lemma OneAnswer(bands: seq<StepBand>, x: real, r: Option<real>, s: Option<real>)
    requires Answers(bands, x, r) && Answers(bands, x, s)
    ensures r == s
  {
  }

  /** Bands of one threshold carry one value. */
  predicate EqualRanksAgree(bands: seq<StepBand>) {
    forall i, j :: 0 <= i < j < |bands| && bands[i].min == bands[j].min && bands[i].exclusive == bands[j].exclusive
      ==> bands[i].value == bands[j].value
  }

  /** A check of the table alone: at every tenure the order is free exactly when no two bands of one
      threshold disagree. */
  lemma OrderIsAlwaysFreeIffEqualRanksAgree(bands: seq<StepBand>)
    ensures (forall x :: TopTiesAgree(bands, x)) <==> EqualRanksAgree(bands)
  {
    if forall x :: TopTiesAgree(bands, x) {
      forall i, j | 0 <= i < j < |bands| && bands[i].min == bands[j].min && bands[i].exclusive == bands[j].exclusive
        ensures bands[i].value == bands[j].value
      {
        var x := Reach(bands, bands[i]);
        ReachIsTop(bands, i);
        ReachIsTop(bands, j);
        assert TopTiesAgree(bands, x);
      }
    }
  }

  lemma ReachIsTop(bands: seq<StepBand>, k: nat)
    requires k < |bands|
    ensures IsTop(bands, Reach(bands, bands[k]), k)
  {
    var x := Reach(bands, bands[k]);
    forall j | 0 <= j < |bands| && MetBy(bands[j], x) ensures !Outranks(bands[j], bands[k]) {
      assert bands[j] in bands;
    }
  }

  // ----- More tenure -----

  predicate FirstOfItsRank(bands: seq<StepBand>, k: nat) {
    k < |bands| && forall j :: 0 <= j < k ==> Outranks(bands[j], bands[k]) || Outranks(bands[k], bands[j])
  }

  /** Values never fall as the rank rises.  Bands behind an equal one never answer. */
  ghost predicate ValuesClimb(bands: seq<StepBand>) {
    forall i: nat, j: nat :: FirstOfItsRank(bands, i) && FirstOfItsRank(bands, j) && Outranks(bands[j], bands[i])
      ==> bands[i].value <= bands[j].value
  }

  ghost predicate Monotone(bands: seq<StepBand>) {
    forall x, y, v, w :: x <= y && Answers(bands, x, Some(v)) && Answers(bands, y, Some(w)) ==> v <= w
  }

  /** A point above m and below every larger threshold. */
  function JustAbove(bands: seq<StepBand>, m: real): (x: real)
    ensures m < x && forall b :: b in bands && b.min > m ==> x < b.min
  {
    if bands == [] then m + 1.0
    else
      var b, x := bands[|bands| - 1], JustAbove(bands[..|bands| - 1], m);
      assert forall o :: o in bands ==> o == b || o in bands[..|bands| - 1];
      if b.min > m && b.min <= x then (m + b.min) / 2.0 else x
  }

  /** A point the band answers. */
  function Reach(bands: seq<StepBand>, b: StepBand): real {
    if b.exclusive then JustAbove(bands, b.min) else b.min
  }

  lemma FirstOfRankWins(bands: seq<StepBand>, k: nat)
    requires FirstOfItsRank(bands, k)
    ensures Wins(bands, Reach(bands, bands[k]), k)
  {
    ReachIsTop(bands, k);
  }

  lemma ReachGrowsWithRank(bands: seq<StepBand>, b: StepBand, o: StepBand)
    requires b in bands && o in bands && Outranks(b, o)
    ensures Reach(bands, o) <= Reach(bands, b)
  {
  }

  /** More tenure never answers a smaller value exactly when the values climb with the rank. */
  lemma MonotoneIffValuesClimb(bands: seq<StepBand>)
    ensures Monotone(bands) <==> ValuesClimb(bands)
  {
    if ValuesClimb(bands) {
      forall x, y, v, w | x <= y && Answers(bands, x, Some(v)) && Answers(bands, y, Some(w)) ensures v <= w {
        var i: nat :| Wins(bands, x, i) && bands[i].value == v;
        var j: nat :| Wins(bands, y, j) && bands[j].value == w;
        LaterWinnerRanksHigher(bands, x, y, i, j);
      }
    }
    if Monotone(bands) {
      forall i: nat, j: nat | FirstOfItsRank(bands, i) && FirstOfItsRank(bands, j) && Outranks(bands[j], bands[i])
        ensures bands[i].value <= bands[j].value
      {
        FirstOfRankWins(bands, i);
        FirstOfRankWins(bands, j);
        ReachGrowsWithRank(bands, bands[j], bands[i]);
        assert Answers(bands, Reach(bands, bands[i]), Some(bands[i].value));
        assert Answers(bands, Reach(bands, bands[j]), Some(bands[j].value));
      }
    }
  }

  lemma LaterWinnerRanksHigher(bands: seq<StepBand>, x: real, y: real, i: nat, j: nat)
    requires x <= y && Wins(bands, x, i) && Wins(bands, y, j)
    ensures FirstOfItsRank(bands, i) && FirstOfItsRank(bands, j)
    ensures i == j || Outranks(bands[j], bands[i])
  {
    WinnerIsFirst(bands, x, i);
    WinnerIsFirst(bands, y, j);
    assert MetBy(bands[i], y) && !Outranks(bands[i], bands[j]);
  }

  lemma WinnerIsFirst(bands: seq<StepBand>, x: real, k: nat)
    requires Wins(bands, x, k)
    ensures FirstOfItsRank(bands, k)
  {
    forall j | 0 <= j < k ensures Outranks(bands[j], bands[k]) || Outranks(bands[k], bands[j]) {
      if !MetBy(bands[j], x) {
        assert bands[j].min != bands[k].min || bands[j].exclusive != bands[k].exclusive;
      }
    }
  }
}
