/** The cumulative severance formula (hcmrules/formula.go, evalCesantiaCR): a loop over bands that
    stops early, and turns out to be the progressive tax of Brackets over the bands as tiers. */
module Severance {
  import opened Results
  import opened RuleValues
  import B = Brackets

  function Min(a: real, b: real): real {
    if b < a then b else a
  }

  /** What the bands from i on add, the years up to `from` being counted already. */
  function DaysFrom(c: Values, years: real, from: real, i: nat, n: int): Result<real, RuleError>
    decreases n - i
  {
    if i > n || years <= from then Ok(0.0)
    else if UptoYears(i) !in c then Err(MissingValue(UptoYears(i)))
    else if DaysPerYear(i) !in c then Err(MissingValue(DaysPerYear(i)))
    else Plus(BandDays(c[UptoYears(i)], c[DaysPerYear(i)], years, from), DaysFrom(c, years, c[UptoYears(i)], i + 1, n))
  }

  function BandDays(upto: real, daysPerYear: real, years: real, from: real): real {
    SpanDays(Min(upto, years) - from, daysPerYear)
  }

  function SpanDays(span: real, daysPerYear: real): real {
    if span > 0.0 then span * daysPerYear else 0.0
  }

  method AddSpan(total: real, span: real, daysPerYear: real) returns (sum: real)
    ensures sum == total + SpanDays(span, daysPerYear)
  {
    sum := total;
    if span > 0.0 {
      sum := sum + span * daysPerYear;
    }
  }

  function Plus(x: real, r: Result<real, RuleError>): Result<real, RuleError> {
    if r.Ok? then Ok(x + r.value) else r
  }

  function CesantiaOf(c: Values, inputs: Values): Result<real, RuleError> {
    if YearsOfService !in inputs then Err(MissingValue(YearsOfService))
    else if CapYears !in c then Err(MissingValue(CapYears))
    else if BandCount !in c then Err(MissingValue(BandCount))
    else DaysFrom(c, Min(inputs[YearsOfService], c[CapYears]), 0.0, 1, IntPart(c[BandCount]))
  }

  method Cesantia(c: Values, inputs: Values) returns (r: Result<real, RuleError>)
    ensures r == CesantiaOf(c, inputs)
  {
    var years := Require(inputs, YearsOfService);
    if years.Err? { return Err(years.error); }
    var capYears := Require(c, CapYears);
    if capYears.Err? { return Err(capYears.error); }
    var count := Require(c, BandCount);
    if count.Err? { return Err(count.error); }
    var bandCount := IntPart(count.value);

    var effective := years.value;
    if effective > capYears.value {
      effective := capYears.value;
    }
    var total, previous := 0.0, 0.0;
    var i: nat := 1;
    ghost var whole := DaysFrom(c, effective, 0.0, 1, bandCount);
    while i <= bandCount
      invariant Plus(total, DaysFrom(c, effective, previous, i, bandCount)) == whole
    {
      if !(effective > previous) {
        break;
      }
      var upto := Require(c, UptoYears(i));
      if upto.Err? { return Err(upto.error); }
      var daysPerYear := Require(c, DaysPerYear(i));
      if daysPerYear.Err? { return Err(daysPerYear.error); }
      var bandTop := upto.value;
      if bandTop > effective {
        bandTop := effective;
      }
      var span := bandTop - previous;
      AddBand(c, effective, previous, i, bandCount, total);
      total := AddSpan(total, span, daysPerYear.value);
      assert span == Min(upto.value, effective) - previous;
      previous := upto.value;
      i := i + 1;
    }
    r := Ok(total);
  }

  predicate BandComplete(c: Values, i: nat) {
    UptoYears(i) in c && DaysPerYear(i) in c
  }

  lemma AddBand(c: Values, years: real, from: real, i: nat, n: int, total: real)
    requires i <= n && years > from && BandComplete(c, i)
    ensures var upto, rate := c[UptoYears(i)], c[DaysPerYear(i)];
            Plus(total, DaysFrom(c, years, from, i, n))
            == Plus(total + BandDays(upto, rate, years, from), DaysFrom(c, years, upto, i + 1, n))
  {
  }

  // ----- As a progressive table -----

  predicate Complete(c: Values, n: nat) {
    forall i: nat :: 1 <= i <= n ==> BandComplete(c, i)
  }

  /** Where band i starts: at the ceiling of the band before, the first one at 0. */
  function Floor(c: Values, i: nat): real
    requires i > 1 ==> UptoYears(i - 1) in c
  {
    if i <= 1 then 0.0 else c[UptoYears(i - 1)]
  }

  /** Ceilings never go down, from 0 up. */
  predicate CeilingsClimb(c: Values, n: nat)
  {
    forall i: nat :: 1 <= i <= n ==> Climbs(c, i)
  }

  predicate Climbs(c: Values, i: nat) {
    BandComplete(c, i) && (i > 1 ==> BandComplete(c, i - 1)) && Floor(c, i) <= c[UptoYears(i)]
  }

  /** Band i as a tier from its floor up to its ceiling, taxed at its days per year. */
  function BandTier(c: Values, i: nat): B.Tier
    requires BandComplete(c, i) && (i > 1 ==> BandComplete(c, i - 1))
  {
    B.Tier(i, Floor(c, i), Some(c[UptoYears(i)]), c[DaysPerYear(i)], 0.0)
  }

  /** Bands i up to n as a bracket table. */
  function BandTiers(c: Values, i: nat, n: nat): (ts: seq<B.Tier>)
    requires Complete(c, n) && 1 <= i
    decreases n + 1 - i
  {
    if i > n then []
    else
      assert BandComplete(c, i) && (i > 1 ==> BandComplete(c, i - 1));
      [BandTier(c, i)] + BandTiers(c, i + 1, n)
  }

  /** Tier i of the table is band i: from the ceiling of the band before, or 0, up to its own, at its
      days per year. */
  predicate TierIs(c: Values, ts: seq<B.Tier>, i: nat)
    requires 1 <= i <= |ts|
  {
    && BandComplete(c, i) && (i > 1 ==> UptoYears(i - 1) in c)
    && ts[i - 1].lower == (if i == 1 then 0.0 else c[UptoYears(i - 1)])
    && ts[i - 1].upper == Some(c[UptoYears(i)]) && ts[i - 1].rate == c[DaysPerYear(i)]
  }

  lemma {:induction false} TiersFrom(c: Values, i: nat, n: nat)
    requires Complete(c, n) && 1 <= i <= n + 1
    ensures |BandTiers(c, i, n)| == n + 1 - i
    ensures forall j: nat :: i <= j <= n ==> BandTiers(c, i, n)[j - i] == BandTierAt(c, n, j)
    decreases n + 1 - i
  {
    if i <= n {
      TiersFrom(c, i + 1, n);
      assert BandComplete(c, i) && (i > 1 ==> BandComplete(c, i - 1));
      forall j: nat | i <= j <= n ensures BandTiers(c, i, n)[j - i] == BandTierAt(c, n, j) {
        assert j > i ==> BandTiers(c, i, n)[j - i] == BandTiers(c, i + 1, n)[j - (i + 1)];
      }
    }
  }

  function BandTierAt(c: Values, n: nat, j: nat): B.Tier
    requires Complete(c, n) && 1 <= j <= n
  {
    assert BandComplete(c, j) && (j > 1 ==> BandComplete(c, j - 1));
    BandTier(c, j)
  }

  lemma {:induction false} LaterBandsStartHigher(c: Values, i: nat, n: nat)
    requires Complete(c, n) && CeilingsClimb(c, n) && 1 <= i <= n
    ensures Climbs(c, i) && forall k :: 0 <= k < |BandTiers(c, i, n)| ==> Floor(c, i) <= BandTiers(c, i, n)[k].lower
    decreases n - i
  {
    assert Climbs(c, i);
    if i < n {
      LaterBandsStartHigher(c, i + 1, n);
    }
  }

  lemma OneBand(c: Values, i: nat, years: real)
    requires BandComplete(c, i) && (i > 1 ==> BandComplete(c, i - 1))
    requires Floor(c, i) <= c[UptoYears(i)] && Floor(c, i) < years
    ensures BandDays(c[UptoYears(i)], c[DaysPerYear(i)], years, Floor(c, i)) == B.Due(BandTier(c, i), years)
  {
    var span := Min(c[UptoYears(i)], years) - Floor(c, i);
    assert B.Portion(BandTier(c, i), years) == span;
    assert span >= 0.0;
  }

  lemma FirstBand(t: B.Tier, ts: seq<B.Tier>, years: real)
    ensures B.Tax([t] + ts, years) == B.Due(t, years) + B.Tax(ts, years)
  {
    B.TaxSplits([t], ts, years);
    assert [t][..0] == [] && B.Tax([t][..0], years) == 0.0;
  }

  lemma {:induction false} TailIsProgressive(c: Values, years: real, i: nat, n: nat)
    requires Complete(c, n) && CeilingsClimb(c, n) && 1 <= i <= n + 1 && (i > 1 ==> UptoYears(i - 1) in c)
    ensures DaysFrom(c, years, Floor(c, i), i, n) == Ok(B.Tax(BandTiers(c, i, n), years))
    decreases n + 1 - i
  {
    if i <= n {
      assert Climbs(c, i);
      if years <= Floor(c, i) {
        LaterBandsStartHigher(c, i, n);
        B.NothingBelowTheFirstBound(BandTiers(c, i, n), years);
      } else {
        TailIsProgressive(c, years, i + 1, n);
        OneBand(c, i, years);
        FirstBand(BandTier(c, i), BandTiers(c, i + 1, n), years);
      }
    }
  }

  /** On bands whose ceilings climb from 0, the severance is the marginal accumulation of the bands
      as tiers, at the years capped: stopping early loses nothing. */
  lemma SeveranceIsProgressive(c: Values, inputs: Values)
    requires YearsOfService in inputs && CapYears in c && BandCount in c
    requires var n := IntPart(c[BandCount]); n >= 0 && Complete(c, n) && CeilingsClimb(c, n)
    ensures var ts := BandTiers(c, 1, IntPart(c[BandCount]));
            var years := if inputs[YearsOfService] < c[CapYears] then inputs[YearsOfService] else c[CapYears];
            && CesantiaOf(c, inputs) == Ok(B.Tax(ts, years))
            && |ts| == IntPart(c[BandCount]) && forall i: nat :: 1 <= i <= |ts| ==> TierIs(c, ts, i)
  {
    var n := IntPart(c[BandCount]);
    TiersFrom(c, 1, n);
    forall i: nat | 1 <= i <= n ensures TierIs(c, BandTiers(c, 1, n), i) {
      assert BandTiers(c, 1, n)[i - 1] == BandTierAt(c, n, i);
      assert BandComplete(c, i) && (i > 1 ==> BandComplete(c, i - 1));
    }
    TailIsProgressive(c, Min(inputs[YearsOfService], c[CapYears]), 1, IntPart(c[BandCount]));
  }

  /** More tenure never owes less, when no band has a negative rate. */
  lemma SeveranceGrowsWithTenure(c: Values, less: Values, more: Values)
    requires YearsOfService in less && YearsOfService in more && less[YearsOfService] <= more[YearsOfService]
    requires CapYears in c && BandCount in c
    requires var n := IntPart(c[BandCount]);
             && n >= 0 && Complete(c, n) && CeilingsClimb(c, n)
             && forall i: nat :: 1 <= i <= n ==> BandComplete(c, i) && c[DaysPerYear(i)] >= 0.0
    ensures CesantiaOf(c, less).Ok? && CesantiaOf(c, more).Ok? && CesantiaOf(c, less).value <= CesantiaOf(c, more).value
  {
    var n := IntPart(c[BandCount]);
    SeveranceIsProgressive(c, less);
    SeveranceIsProgressive(c, more);
    TiersArePriced(c, 1, n);
    B.TaxGrows(BandTiers(c, 1, n), Min(less[YearsOfService], c[CapYears]), Min(more[YearsOfService], c[CapYears]));
  }

  lemma {:induction false} TiersArePriced(c: Values, i: nat, n: nat)
    requires Complete(c, n) && CeilingsClimb(c, n) && 1 <= i
    requires forall k: nat :: 1 <= k <= n ==> BandComplete(c, k) && c[DaysPerYear(k)] >= 0.0
    ensures B.WellPriced(BandTiers(c, i, n))
    decreases n + 1 - i
  {
    if i <= n {
      assert Climbs(c, i) && BandComplete(c, i);
      TiersArePriced(c, i + 1, n);
    }
  }

  // ----- Missing bands -----

  predicate Passes(c: Values, years: real, i: nat) {
    BandComplete(c, i) && years > c[UptoYears(i)]
  }

  /** The years get past every band from i up to k, and band k is not complete. */
  predicate Blocked(c: Values, years: real, i: nat, k: nat) {
    i <= k && !BandComplete(c, k) && forall j: nat :: i <= j < k ==> Passes(c, years, j)
  }

  /** A missing coefficient is an error exactly for the tenures that reach its band. */
  lemma {:induction false} OnlyReachedBandsFail(c: Values, years: real, from: real, i: nat, n: int)
    ensures DaysFrom(c, years, from, i, n).Err? <==> years > from && exists k: nat :: k <= n && Blocked(c, years, i, k)
    decreases n - i
  {
    if i <= n && years > from {
      if !BandComplete(c, i) {
        assert Blocked(c, years, i, i);
      } else {
        OnlyReachedBandsFail(c, years, c[UptoYears(i)], i + 1, n);
        BlockedFurtherOn(c, years, i, i + 1, n);
      }
    }
  }

  lemma BlockedFurtherOn(c: Values, years: real, i: nat, next: nat, n: int)
    requires next == i + 1 &&  BandComplete(c, i)
    ensures (exists k: nat :: k <= n && Blocked(c, years, i, k))
       <==> (years > c[UptoYears(i)] && exists k: nat :: k <= n && Blocked(c, years, next, k))
  {
    if k: nat :| k <= n && Blocked(c, years, i, k) {
      assert Passes(c, years, i);
      assert Blocked(c, years, next, k);
    }
    if k: nat :| years > c[UptoYears(i)] && k <= n && Blocked(c, years, next, k) {
      assert Blocked(c, years, i, k);
    }
  }
}
