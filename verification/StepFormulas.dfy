/** The step-lookup formulas of hcmrules/formula.go: notice, severance under article 29 and the
    employer's share of an absence. */
module StepFormulas {
  import opened Results
  import opened RuleValues
  import opened StepBands

  // ----- Reading a numbered table -----

  /** Rows 1..n read in order; the first one that cannot be read is the error.  A reader sees the
      rows before its own. */
  function ReadAll<T>(read: (nat, seq<T>) -> Result<T, RuleError>, n: nat): (r: Result<seq<T>, RuleError>)
    ensures r.Ok? ==> |r.value| == n
  {
    if n == 0 then Ok([])
    else
      var before := ReadAll(read, n - 1);
      if before.Err? then before
      else
        var row := read(n, before.value);
        if row.Err? then Err(row.error) else Ok(before.value + [row.value])
  }

  lemma {:induction false} ErrorStands<T>(read: (nat, seq<T>) -> Result<T, RuleError>, i: nat, n: nat)
    requires i <= n && ReadAll(read, i).Err?
    ensures ReadAll(read, n) == ReadAll(read, i)
    decreases n - i
  {
    if i < n {
      ErrorStands(read, i + 1, n);
    }
  }

  lemma {:induction false} RowsAreRead<T>(read: (nat, seq<T>) -> Result<T, RuleError>, n: nat, k: nat)
    requires ReadAll(read, n).Ok? && k < n
    ensures ReadAll(read, k).Ok? && ReadAll(read, k).value == ReadAll(read, n).value[..k]
    ensures read(k + 1, ReadAll(read, k).value) == Ok(ReadAll(read, n).value[k])
  {
    if k < n - 1 {
      RowsAreRead(read, n - 1, k);
      assert ReadAll(read, n).value[..k] == ReadAll(read, n - 1).value[..k];
    } else {
      assert ReadAll(read, n).value[..k] == ReadAll(read, n - 1).value;
    }
  }

  /** The amount of the band that answers, or nothing when none is met. */
  ghost predicate Owed(bands: seq<StepBand>, x: real, amount: real) {
    if NoneMet(bands, x) then amount == 0.0 else Answers(bands, x, Some(amount))
  }

  // ----- Notice -----

  function NoticeBand(c: Values, i: nat): Result<StepBand, RuleError> {
    if MinYears(i) !in c then Err(MissingValue(MinYears(i)))
    else if NoticeDays(i) !in c then Err(MissingValue(NoticeDays(i)))
    else
      var exclusive := OptionalFlag(c, Exclusive(i));
      if exclusive.Err? then Err(exclusive.error) else Ok(StepBand(c[MinYears(i)], exclusive.value, c[NoticeDays(i)]))
  }

  function NoticeReader(c: Values): (nat, seq<StepBand>) -> Result<StepBand, RuleError> {
    (i: nat, before: seq<StepBand>) => NoticeBand(c, i)
  }

  function NoticeTable(c: Values): Result<seq<StepBand>, RuleError> {
    var n := RequireCount(c, BandCount, 0);
    if n.Err? then Err(n.error) else ReadAll(NoticeReader(c), n.value)
  }

  predicate IsFlag(x: real) { x == 0.0 || x == 1.0 }

  predicate IsCount(c: Values, k: Key, atLeast: nat) {
    k in c && IsInteger(c[k]) && atLeast as real <= c[k] <= 100.0
  }

  /** Row i + 1 can be read, if the rows before it can. */
  predicate NextReads<T>(read: (nat, seq<T>) -> Result<T, RuleError>, i: nat) {
    ReadAll(read, i).Ok? ==> read(i + 1, ReadAll(read, i).value).Ok?
  }

  lemma {:induction false} AllRead<T>(read: (nat, seq<T>) -> Result<T, RuleError>, n: nat)
    requires forall i: nat :: i < n ==> NextReads(read, i)
    ensures ReadAll(read, n).Ok?
  {
    if n > 0 {
      AllRead(read, n - 1);
      assert NextReads(read, n - 1);
    }
  }

  predicate NoticeReadable(c: Values, i: nat) {
    MinYears(i) in c && NoticeDays(i) in c && (Exclusive(i) in c ==> IsFlag(c[Exclusive(i)]))
  }

  /** Band i as its coefficients have it, met only above its threshold exactly if its flag is 1. */
  predicate NoticeBandIs(c: Values, bands: seq<StepBand>, i: nat)
    requires 1 <= i <= |bands|
  {
    && NoticeReadable(c, i)
    && bands[i - 1].min == c[MinYears(i)] && bands[i - 1].value == c[NoticeDays(i)]
    && (bands[i - 1].exclusive <==> Exclusive(i) in c && c[Exclusive(i)] == 1.0)
  }

  lemma NoticeBandsAre(c: Values, n: nat)
    ensures ReadAll(NoticeReader(c), n).Ok? <==> forall i: nat :: 1 <= i <= n ==> NoticeReadable(c, i)
    ensures ReadAll(NoticeReader(c), n).Ok? ==>
              forall i: nat :: 1 <= i <= n ==> NoticeBandIs(c, ReadAll(NoticeReader(c), n).value, i)
  {
    var read := NoticeReader(c);
    if forall i: nat :: 1 <= i <= n ==> NoticeReadable(c, i) {
      forall i: nat | i < n ensures NextReads(read, i) {
        assert NoticeReadable(c, i + 1);
      }
      AllRead(read, n);
    }
    if ReadAll(read, n).Ok? {
      forall i: nat | 1 <= i <= n ensures NoticeBandIs(c, ReadAll(read, n).value, i) {
        RowsAreRead(read, n, i - 1);
      }
      assert forall i: nat :: 1 <= i <= n ==> NoticeBandIs(c, ReadAll(read, n).value, i) && NoticeReadable(c, i);
    }
  }

  /** The notice table can be read exactly if its count is a whole number up to 100 and every band has
      its threshold, its days and no flag but 0 or 1; and then its bands are as their coefficients
      have them. */
  lemma NoticeTableIs(c: Values)
    ensures NoticeTable(c).Ok? <==>
              IsCount(c, BandCount, 0) && forall i: nat :: 1 <= i <= c[BandCount].Floor ==> NoticeReadable(c, i)
    ensures NoticeTable(c).Ok? ==>
              var bands := NoticeTable(c).value;
              |bands| as real == c[BandCount] && forall i: nat :: 1 <= i <= |bands| ==> NoticeBandIs(c, bands, i)
  {
    var count := RequireCount(c, BandCount, 0);
    if count.Ok? {
      NoticeBandsAre(c, count.value);
    }
  }

  /** The single highest band the tenure meets is owed. */
  method Preaviso(c: Values, inputs: Values) returns (r: Result<real, RuleError>)
    ensures YearsOfService !in inputs ==> r == Err(MissingValue(YearsOfService))
    ensures YearsOfService in inputs ==>
              match NoticeTable(c)
              case Err(e) => r == Err(e)
              case Ok(bands) => r.Ok? && Owed(bands, inputs[YearsOfService], r.value)
  {
    var years := Require(inputs, YearsOfService);
    if years.Err? { return Err(years.error); }
    var count := RequireCount(c, BandCount, 0);
    if count.Err? { return Err(count.error); }
    var bands: seq<StepBand> := [];
    for i := 1 to count.value + 1
      invariant ReadAll(NoticeReader(c), i - 1) == Ok(bands)
    {
      ghost var row := NoticeReader(c)(i, bands);
      assert row == NoticeBand(c, i);
      if row.Err? { ErrorStands(NoticeReader(c), i, count.value); }
      var minYears := Require(c, MinYears(i));
      if minYears.Err? { return Err(minYears.error); }
      var days := Require(c, NoticeDays(i));
      if days.Err? { return Err(days.error); }
      var exclusive := OptionalFlag(c, Exclusive(i));
      if exclusive.Err? { return Err(exclusive.error); }
      bands := bands + [StepBand(minYears.value, exclusive.value, days.value)];
    }
    var days, ok := HighestMet(bands, years.value);
    if ok {
      return Ok(days);
    }
    r := Ok(0.0);
  }

  /** Two notice bands with one threshold, a year, and the given days. */
  function TiedNotice(first: real, second: real): Values {
    map[BandCount := 2.0, MinYears(1) := 1.0, NoticeDays(1) := first, MinYears(2) := 1.0, NoticeDays(2) := second]
  }

  lemma TiedNoticeIsRead(first: real, second: real)
    ensures NoticeTable(TiedNotice(first, second)) == Ok([StepBand(1.0, false, first), StepBand(1.0, false, second)])
  {
    var c := TiedNotice(first, second);
    assert NoticeBand(c, 1) == Ok(StepBand(1.0, false, first)) && NoticeBand(c, 2) == Ok(StepBand(1.0, false, second));
    var read, one, two := NoticeReader(c), StepBand(1.0, false, first), StepBand(1.0, false, second);
    assert read(1, []) == NoticeBand(c, 1) && read(2, [one]) == NoticeBand(c, 2);
    ReadNext(read, 0, [], one);
    assert [] + [one] == [one] && [one] + [two] == [one, two];
    ReadNext(read, 1, [one], two);
    assert RequireCount(c, BandCount, 0) == Ok(2);
  }

  lemma ReadNext<T>(read: (nat, seq<T>) -> Result<T, RuleError>, n: nat, before: seq<T>, row: T)
    requires ReadAll(read, n) == Ok(before) && read(n + 1, before) == Ok(row)
    ensures ReadAll(read, n + 1) == Ok(before + [row])
  {
  }

  /** The notice formula reads such a table whichever way it is numbered, and then at exactly a year
      the numbering alone decides which notice is owed. */
  lemma TiedNoticeDependsOnOrder(first: real, second: real)
    requires first != second
    ensures NoticeTable(TiedNotice(first, second)).Ok? && NoticeTable(TiedNotice(second, first)).Ok?
    ensures var here := NoticeTable(TiedNotice(first, second)).value;
            var there := NoticeTable(TiedNotice(second, first)).value;
            && multiset(here) == multiset(there) && !TopTiesAgree(here, 1.0)
            && Owed(here, 1.0, first) && Owed(there, 1.0, second) && !Owed(there, 1.0, first)
  {
    TiedNoticeIsRead(first, second);
    TiedNoticeIsRead(second, first);
    var one, two := StepBand(1.0, false, first), StepBand(1.0, false, second);
    TiedBands(one, two);
    TiedBands(two, one);
    assert [one, two] == [one] + [two] && [two, one] == [two] + [one];
    OneAnswerOnly([two, one], 1.0, second, first);
  }

  lemma TiedBands(one: StepBand, two: StepBand)
    requires one.min == two.min == 1.0 && !one.exclusive && !two.exclusive && one.value != two.value
    ensures !TopTiesAgree([one, two], 1.0) && !NoneMet([one, two], 1.0) && Owed([one, two], 1.0, one.value)
  {
    var bands := [one, two];
    assert IsTop(bands, 1.0, 0) && IsTop(bands, 1.0, 1) && bands[0].value != bands[1].value;
    assert Wins(bands, 1.0, 0);
  }

  lemma OneAnswerOnly(bands: seq<StepBand>, x: real, owed: real, other: real)
    requires !NoneMet(bands, x) && Owed(bands, x, owed) && other != owed
    ensures !Owed(bands, x, other)
  {
    if Answers(bands, x, Some(other)) {
      OneAnswer(bands, x, Some(owed), Some(other));
    }
  }

  // ----- Absences -----

  predicate StartsOn(bands: seq<StepBand>, day: real) {
    exists k :: 0 <= k < |bands| && bands[k].min == day
  }

  function AbsenceBand(c: Values, i: nat, before: seq<StepBand>): Result<StepBand, RuleError> {
    if FromDay(i) !in c then Err(MissingValue(FromDay(i)))
    else if !IsInteger(c[FromDay(i)]) || c[FromDay(i)] < 1.0 then Err(BadDay(FromDay(i)))
    else if StartsOn(before, c[FromDay(i)]) then Err(RepeatedDay(c[FromDay(i)]))
    else if BandRate(i) !in c then Err(MissingValue(BandRate(i)))
    else Ok(StepBand(c[FromDay(i)], false, c[BandRate(i)]))
  }

  function AbsenceReader(c: Values): (nat, seq<StepBand>) -> Result<StepBand, RuleError> {
    (i: nat, before: seq<StepBand>) => AbsenceBand(c, i, before)
  }

  function AbsenceTable(c: Values): Result<seq<StepBand>, RuleError> {
    var n := RequireCount(c, BandCount, 1);
    if n.Err? then Err(n.error) else ReadAll(AbsenceReader(c), n.value)
  }

  predicate AbsenceReadable(c: Values, i: nat) {
    FromDay(i) in c && BandRate(i) in c && IsInteger(c[FromDay(i)]) && c[FromDay(i)] >= 1.0
  }

  /** Band i as its coefficients have it, met from its day on. */
  predicate AbsenceBandIs(c: Values, bands: seq<StepBand>, i: nat)
    requires 1 <= i <= |bands|
  {
    AbsenceReadable(c, i) && bands[i - 1] == StepBand(c[FromDay(i)], false, c[BandRate(i)])
  }

  predicate DifferentStarts(c: Values, i: nat, j: nat) {
    FromDay(i) in c && FromDay(j) in c && c[FromDay(i)] != c[FromDay(j)]
  }

  ghost predicate StartsDiffer(c: Values, n: int) {
    forall i: nat, j: nat :: 1 <= i < j <= n ==> DifferentStarts(c, i, j)
  }

  lemma AbsenceBandsAre(c: Values, n: nat)
    requires ReadAll(AbsenceReader(c), n).Ok?
    ensures forall i: nat :: 1 <= i <= n ==> AbsenceBandIs(c, ReadAll(AbsenceReader(c), n).value, i)
  {
    forall i: nat | 1 <= i <= n ensures AbsenceBandIs(c, ReadAll(AbsenceReader(c), n).value, i) {
      RowsAreRead(AbsenceReader(c), n, i - 1);
      var before := ReadAll(AbsenceReader(c), i - 1).value;
      assert AbsenceReader(c)(i, before) == AbsenceBand(c, i, before);
    }
  }

  lemma NoEarlierStart(c: Values, n: nat, i: nat)
    requires 1 <= i <= n && StartsDiffer(c, n) && ReadAll(AbsenceReader(c), i - 1).Ok? && FromDay(i) in c
    ensures !StartsOn(ReadAll(AbsenceReader(c), i - 1).value, c[FromDay(i)])
  {
    var before := ReadAll(AbsenceReader(c), i - 1).value;
    AbsenceBandsAre(c, i - 1);
    forall k | 0 <= k < |before| ensures before[k].min != c[FromDay(i)] {
      assert AbsenceBandIs(c, before, k + 1) && DifferentStarts(c, k + 1, i);
    }
  }

  lemma AbsenceReadsIf(c: Values, n: nat)
    requires StartsDiffer(c, n) && forall i: nat :: 1 <= i <= n ==> AbsenceReadable(c, i)
    ensures ReadAll(AbsenceReader(c), n).Ok?
  {
    var read := AbsenceReader(c);
    forall i: nat | i < n ensures NextReads(read, i) {
      assert AbsenceReadable(c, i + 1);
      if ReadAll(read, i).Ok? {
        NoEarlierStart(c, n, i + 1);
        assert read(i + 1, ReadAll(read, i).value) == AbsenceBand(c, i + 1, ReadAll(read, i).value);
      }
    }
    AllRead(read, n);
  }

  /** The absence table can be read exactly if its count is a whole number from 1 to 100, every band
      starts on a day from 1 on and has its rate, and no two start on one day; and then its bands are
      as their coefficients have them. */
  lemma AbsenceTableIs(c: Values)
    ensures AbsenceTable(c).Ok? <==>
              && IsCount(c, BandCount, 1)
              && (forall i: nat :: 1 <= i <= c[BandCount].Floor ==> AbsenceReadable(c, i))
              && StartsDiffer(c, c[BandCount].Floor)
    ensures AbsenceTable(c).Ok? ==>
              var bands := AbsenceTable(c).value;
              |bands| as real == c[BandCount] && forall i: nat :: 1 <= i <= |bands| ==> AbsenceBandIs(c, bands, i)
  {
    var count := RequireCount(c, BandCount, 1);
    if count.Ok? {
      var n := count.value;
      if StartsDiffer(c, n) && forall i: nat :: 1 <= i <= n ==> AbsenceReadable(c, i) {
        AbsenceReadsIf(c, n);
      }
      if ReadAll(AbsenceReader(c), n).Ok? {
        AbsenceReadOnlyIf(c, n);
      }
    }
  }

  lemma AbsenceReadOnlyIf(c: Values, n: nat)
    requires AbsenceTable(c).Ok? && RequireCount(c, BandCount, 1) == Ok(n)
    ensures forall i: nat :: 1 <= i <= n ==> AbsenceReadable(c, i) && AbsenceBandIs(c, AbsenceTable(c).value, i)
    ensures StartsDiffer(c, n)
  {
    var bands := AbsenceTable(c).value;
    AbsenceBandsAre(c, n);
    forall i: nat | 1 <= i <= n ensures AbsenceReadable(c, i) && AbsenceBandIs(c, bands, i) {
      assert AbsenceBandIs(c, bands, i);
    }
    forall i: nat, j: nat | 1 <= i < j <= n ensures DifferentStarts(c, i, j) {
      DaysAreDistinct(c, i - 1, j - 1);
      assert AbsenceBandIs(c, bands, i) && AbsenceBandIs(c, bands, j);
    }
  }

  predicate IsDay(vs: Values, k: Key) {
    k in vs && IsInteger(vs[k]) && vs[k] >= 1.0
  }

  /** Band k starts latest among those that start on the day or before. */
  predicate Covers(bands: seq<StepBand>, day: real, k: nat) {
    && k < |bands| && bands[k].min <= day
    && forall j :: 0 <= j < |bands| && bands[j].min <= day ==> bands[j].min <= bands[k].min
  }

  /** The share is that of the band that starts latest, and a day before every band is an error,
      not a zero. */
  method AbsenceEmployerShare(c: Values, inputs: Values) returns (r: Result<real, RuleError>)
    ensures !IsDay(inputs, AbsenceDay) ==> r.Err?
    ensures IsDay(inputs, AbsenceDay) ==>
              match AbsenceTable(c)
              case Err(e) => r == Err(e)
              case Ok(bands) =>
                && (r.Err? ==> r == Err(NotCovered(inputs[AbsenceDay]))
                               && forall k :: 0 <= k < |bands| ==> bands[k].min > inputs[AbsenceDay])
                && (r.Ok? ==> exists k: nat :: Covers(bands, inputs[AbsenceDay], k) && bands[k].value == r.value)
  {
    var index := Require(inputs, AbsenceDay);
    if index.Err? { return Err(index.error); }
    if !IsInteger(index.value) || index.value < 1.0 { return Err(BadDay(AbsenceDay)); }
    var count := RequireCount(c, BandCount, 1);
    if count.Err? { return Err(count.error); }
    var bands: seq<StepBand> := [];
    var seen: set<real> := {};
    for i := 1 to count.value + 1
      invariant ReadAll(AbsenceReader(c), i - 1) == Ok(bands)
      invariant forall day :: day in seen <==> StartsOn(bands, day)
      invariant forall k :: 0 <= k < |bands| ==> !bands[k].exclusive
    {
      ghost var row := AbsenceReader(c)(i, bands);
      assert row == AbsenceBand(c, i, bands);
      if row.Err? { ErrorStands(AbsenceReader(c), i, count.value); }
      var fromDay := Require(c, FromDay(i));
      if fromDay.Err? { return Err(fromDay.error); }
      if !IsInteger(fromDay.value) || fromDay.value < 1.0 { return Err(BadDay(FromDay(i))); }
      if fromDay.value in seen { return Err(RepeatedDay(fromDay.value)); }
      seen := seen + {fromDay.value};
      var rate := Require(c, BandRate(i));
      if rate.Err? { return Err(rate.error); }
      ghost var was := bands;
      bands := bands + [StepBand(fromDay.value, false, rate.value)];
      OneMoreDay(was, bands[|was|]);
    }
    var rate, ok := HighestMet(bands, index.value);
    if !ok {
      return Err(NotCovered(index.value));
    }
    ghost var k: nat :| Wins(bands, index.value, k) && bands[k].value == rate;
    assert Covers(bands, index.value, k);
    r := Ok(rate);
  }

  lemma OneMoreDay(bands: seq<StepBand>, b: StepBand)
    ensures forall day :: StartsOn(bands + [b], day) <==> day == b.min || StartsOn(bands, day)
  {
    assert (bands + [b])[|bands|] == b;
    forall day | StartsOn(bands, day) ensures StartsOn(bands + [b], day) {
      var k :| 0 <= k < |bands| && bands[k].min == day;
      assert (bands + [b])[k].min == day;
    }
  }

  /** Every absence table that can be read starts its bands on different days. */
  lemma DaysAreDistinct(c: Values, j: nat, k: nat)
    requires AbsenceTable(c).Ok? && j < k < |AbsenceTable(c).value|
    ensures AbsenceTable(c).value[j].min != AbsenceTable(c).value[k].min
  {
    var n := RequireCount(c, BandCount, 1).value;
    RowsAreRead(AbsenceReader(c), n, k);
    var before := ReadAll(AbsenceReader(c), k).value;
    assert before[j] == AbsenceTable(c).value[j];
  }

  /** So the order the bands are numbered in never matters: two tables with the same bands answer
      every day alike. */
  lemma AbsenceBandsInAnyOrder(c: Values, d: Values, day: real, r: Option<real>)
    requires AbsenceTable(c).Ok? && AbsenceTable(d).Ok?
    requires multiset(AbsenceTable(c).value) == multiset(AbsenceTable(d).value)
    ensures Answers(AbsenceTable(c).value, day, r) <==> Answers(AbsenceTable(d).value, day, r)
  {
    TiesNeverHappen(c, day);
    TiesNeverHappen(d, day);
    if Answers(AbsenceTable(c).value, day, r) {
      AnyOrderAnswersTheSame(AbsenceTable(c).value, AbsenceTable(d).value, day, r);
    }
    if Answers(AbsenceTable(d).value, day, r) {
      AnyOrderAnswersTheSame(AbsenceTable(d).value, AbsenceTable(c).value, day, r);
    }
  }

  lemma TiesNeverHappen(c: Values, day: real)
    requires AbsenceTable(c).Ok?
    ensures TopTiesAgree(AbsenceTable(c).value, day)
  {
    var bands := AbsenceTable(c).value;
    forall i, j | 0 <= i < |bands| && 0 <= j < |bands| && IsTop(bands, day, i) && IsTop(bands, day, j)
      ensures bands[i].value == bands[j].value
    {
      if i < j { DaysAreDistinct(c, i, j); }
      if j < i { DaysAreDistinct(c, j, i); }
    }
  }

  // ----- Severance under article 29 -----

  datatype Table29 = Table29(subYear: seq<StepBand>, rows: seq<real>, cap: real, fraction: StepBand)

  function SubYearBand(c: Values, i: nat): Result<StepBand, RuleError> {
    if SubYearMin(i) !in c then Err(MissingValue(SubYearMin(i)))
    else
      var inclusive := RequireFlag(c, SubYearInclusive(i));
      if inclusive.Err? then Err(inclusive.error)
      else if SubYearDays(i) !in c then Err(MissingValue(SubYearDays(i)))
      else Ok(StepBand(c[SubYearMin(i)], !inclusive.value, c[SubYearDays(i)]))
  }

  function SubYearReader(c: Values): (nat, seq<StepBand>) -> Result<StepBand, RuleError> {
    (i: nat, before: seq<StepBand>) => SubYearBand(c, i)
  }

  function RowReader(c: Values): (nat, seq<real>) -> Result<real, RuleError> {
    (i: nat, before: seq<real>) => Require(c, RowDays(i))
  }

  function ReadTable29(c: Values): (r: Result<Table29, RuleError>)
    ensures r.Ok? ==> 1 <= |r.value.rows| <= MaxCount && r.value.cap > 0.0
  {
    var bands := RequireCount(c, SubYearCount, 0);
    if bands.Err? then Err(bands.error) else
    var subYear := ReadAll(SubYearReader(c), bands.value);
    if subYear.Err? then Err(subYear.error) else
    var count := RequireCount(c, RowCount, 1);
    if count.Err? then Err(count.error) else
    var rows := ReadAll(RowReader(c), count.value);
    if rows.Err? then Err(rows.error)
    else if CapYears !in c then Err(MissingValue(CapYears))
    else if c[CapYears] <= 0.0 then Err(NotPositive(CapYears))
    else if FractionMin !in c then Err(MissingValue(FractionMin))
    else
      var inclusive := RequireFlag(c, FractionInclusive);
      if inclusive.Err? then Err(inclusive.error)
      else Ok(Table29(subYear.value, rows.value, c[CapYears], StepBand(c[FractionMin], !inclusive.value, 0.0)))
  }

  predicate SubYearReadable(c: Values, i: nat) {
    SubYearMin(i) in c && SubYearDays(i) in c && SubYearInclusive(i) in c && IsFlag(c[SubYearInclusive(i)])
  }

  /** Band i as its coefficients have it, met at its threshold exactly if its flag is 1. */
  predicate SubYearBandIs(c: Values, bands: seq<StepBand>, i: nat)
    requires 1 <= i <= |bands|
  {
    && SubYearReadable(c, i)
    && bands[i - 1].min == c[SubYearMin(i)] && bands[i - 1].value == c[SubYearDays(i)]
    && (bands[i - 1].exclusive <==> c[SubYearInclusive(i)] == 0.0)
  }

  predicate RowIs(c: Values, rows: seq<real>, i: nat)
    requires 1 <= i <= |rows|
  {
    RowDays(i) in c && rows[i - 1] == c[RowDays(i)]
  }

  lemma SubYearsAre(c: Values, n: nat)
    ensures ReadAll(SubYearReader(c), n).Ok? <==> forall i: nat :: 1 <= i <= n ==> SubYearReadable(c, i)
    ensures ReadAll(SubYearReader(c), n).Ok? ==>
              forall i: nat :: 1 <= i <= n ==> SubYearBandIs(c, ReadAll(SubYearReader(c), n).value, i)
  {
    var read := SubYearReader(c);
    if forall i: nat :: 1 <= i <= n ==> SubYearReadable(c, i) {
      forall i: nat | i < n ensures NextReads(read, i) {
        assert SubYearReadable(c, i + 1);
      }
      AllRead(read, n);
    }
    if ReadAll(read, n).Ok? {
      forall i: nat | 1 <= i <= n ensures SubYearBandIs(c, ReadAll(read, n).value, i) {
        RowsAreRead(read, n, i - 1);
      }
      assert forall i: nat :: 1 <= i <= n ==> SubYearBandIs(c, ReadAll(read, n).value, i) && SubYearReadable(c, i);
    }
  }

  lemma RowsAre(c: Values, n: nat)
    ensures ReadAll(RowReader(c), n).Ok? <==> forall i: nat :: 1 <= i <= n ==> RowDays(i) in c
    ensures ReadAll(RowReader(c), n).Ok? ==>
              forall i: nat :: 1 <= i <= n ==> RowIs(c, ReadAll(RowReader(c), n).value, i)
  {
    var read := RowReader(c);
    if forall i: nat :: 1 <= i <= n ==> RowDays(i) in c {
      forall i: nat | i < n ensures NextReads(read, i) {
        assert RowDays(i + 1) in c;
      }
      AllRead(read, n);
    }
    if ReadAll(read, n).Ok? {
      forall i: nat | 1 <= i <= n ensures RowIs(c, ReadAll(read, n).value, i) {
        RowsAreRead(read, n, i - 1);
      }
      assert forall i: nat :: 1 <= i <= n ==> RowIs(c, ReadAll(read, n).value, i) && RowDays(i) in c;
    }
  }

  /** The article 29 table can be read exactly if its counts are whole numbers in range, every band
      and row is there, the cap is positive and the flags are 0 or 1; and then bands, rows, cap and
      fraction are as their coefficients have them. */
  lemma Table29Is(c: Values)
    ensures ReadTable29(c).Ok? <==>
              && IsCount(c, SubYearCount, 0) && IsCount(c, RowCount, 1)
              && (forall i: nat :: 1 <= i <= c[SubYearCount].Floor ==> SubYearReadable(c, i))
              && (forall i: nat :: 1 <= i <= c[RowCount].Floor ==> RowDays(i) in c)
              && CapYears in c && c[CapYears] > 0.0 && FractionMin in c && FractionInclusive in c
              && IsFlag(c[FractionInclusive])
    ensures ReadTable29(c).Ok? ==>
              var t := ReadTable29(c).value;
              && |t.rows| as real == c[RowCount] && (forall i: nat :: 1 <= i <= |t.rows| ==> RowIs(c, t.rows, i))
              && |t.subYear| as real == c[SubYearCount]
              && (forall i: nat :: 1 <= i <= |t.subYear| ==> SubYearBandIs(c, t.subYear, i))
              && t.cap == c[CapYears] && t.fraction.min == c[FractionMin]
              && (t.fraction.exclusive <==> c[FractionInclusive] == 0.0)
  {
    if IsCount(c, SubYearCount, 0) {
      SubYearsAre(c, RequireCount(c, SubYearCount, 0).value);
    }
    if IsCount(c, RowCount, 1) {
      RowsAre(c, RequireCount(c, RowCount, 1).value);
    }
  }

  /** Whole years, and months short of a year beyond them. */
  predicate IsTenure(vs: Values) {
    && CompletedYears in vs && IsInteger(vs[CompletedYears]) && vs[CompletedYears] >= 0.0
    && RemainderMonths in vs && 0.0 <= vs[RemainderMonths] < 12.0
  }

  /** The years paid: one more than completed exactly when the fraction counts, unless the cap is less. */
  function Counted(t: Table29, years: nat, months: real): (r: real)
    ensures r <= t.cap && (r == t.cap || r == years as real || r == years as real + 1.0)
    ensures MetBy(t.fraction, months) && years as real + 1.0 <= t.cap ==> r == years as real + 1.0
    ensures !MetBy(t.fraction, months) && years as real <= t.cap ==> r == years as real
    ensures t.cap <= years as real ==> r == t.cap
  {
    var counted := if MetBy(t.fraction, months) then years as real + 1.0 else years as real;
    if counted > t.cap then t.cap else counted
  }

  /** From one completed year on: the days of the row of the completed years, or of the last row past
      the table's end, for each year counted. */
  function Paid29(t: Table29, years: nat, months: real): (r: real)
    requires t.rows != [] && years >= 1
    ensures years < |t.rows| ==> r == t.rows[years - 1] * Counted(t, years, months)
    ensures years >= |t.rows| ==> r == t.rows[|t.rows| - 1] * Counted(t, years, months)
  {
    t.rows[(if years < |t.rows| then years else |t.rows|) - 1] * Counted(t, years, months)
  }

  /** The fraction of a year moves the multiplier, never the row: whatever the months beyond the
      completed years, one row decides, and it is the one of the completed years. */
  lemma FractionNeverMovesTheRow(t: Table29, years: nat)
    requires t.rows != [] && years >= 1
    ensures exists row :: 0 <= row < |t.rows| && (row == years - 1 || (row < years - 1 && row == |t.rows| - 1))
                          && forall months :: Paid29(t, years, months) == t.rows[row] * Counted(t, years, months)
  {
    var row := if years < |t.rows| then years - 1 else |t.rows| - 1;
    assert forall months :: Paid29(t, years, months) == t.rows[row] * Counted(t, years, months);
  }

  /** One year and eight months, on a table of 19.5 and 20 days with a fraction from 6 months: 39 days. */
  lemma OneYearEightMonths()
    ensures Paid29(Table29([], [19.5, 20.0], 8.0, StepBand(6.0, false, 0.0)), 1, 8.0) == 39.0
  {
  }

  /** Every coefficient is read before the tenure is looked at, so a broken table fails for every
      employee alike. */
  method CesantiaArt29(c: Values, inputs: Values) returns (r: Result<real, RuleError>)
    ensures !IsTenure(inputs) ==> r.Err?
    ensures IsTenure(inputs) ==>
              match ReadTable29(c)
              case Err(e) => r == Err(e)
              case Ok(t) =>
                && r.Ok?
                && var years, months := inputs[CompletedYears].Floor, inputs[RemainderMonths];
                if years == 0 then Owed(t.subYear, months, r.value) else r.value == Paid29(t, years, months)
  {
    var years := Require(inputs, CompletedYears);
    if years.Err? { return Err(years.error); }
    if !IsInteger(years.value) || years.value < 0.0 { return Err(BadTenure(CompletedYears)); }
    var months := Require(inputs, RemainderMonths);
    if months.Err? { return Err(months.error); }
    if months.value < 0.0 || months.value >= 12.0 { return Err(BadTenure(RemainderMonths)); }

    var t := LoadTable29(c);
    if t.Err? { return Err(t.error); }
    if years.value == 0.0 {
      var days, ok := HighestMet(t.value.subYear, months.value);
      if ok {
        return Ok(days);
      }
      return Ok(0.0);
    }
    var amount := FromOneYearOn(t.value, years.value, months.value);
    r := Ok(amount);
  }

  /** From one completed year on: the row's days for each year counted. */
  method FromOneYearOn(t: Table29, years: real, months: real) returns (amount: real)
    requires t.rows != [] && IsInteger(years) && years >= 1.0
    ensures amount == Paid29(t, years.Floor, months)
  {
    var row := |t.rows|;
    if years < |t.rows| as real {
      row := IntPart(years);
    }
    var counted := years;
    if MetBy(t.fraction, months) {
      counted := counted + 1.0;
    }
    if counted > t.cap {
      counted := t.cap;
    }
    amount := t.rows[row - 1] * counted;
  }

  method LoadTable29(c: Values) returns (r: Result<Table29, RuleError>)
    ensures r == ReadTable29(c)
  {
    var bandCount := RequireCount(c, SubYearCount, 0);
    if bandCount.Err? { return Err(bandCount.error); }
    var subYear: seq<StepBand> := [];
    for i := 1 to bandCount.value + 1
      invariant ReadAll(SubYearReader(c), i - 1) == Ok(subYear)
    {
      ghost var band := SubYearReader(c)(i, subYear);
      assert band == SubYearBand(c, i);
      if band.Err? { ErrorStands(SubYearReader(c), i, bandCount.value); }
      var minMonths := Require(c, SubYearMin(i));
      if minMonths.Err? { return Err(minMonths.error); }
      var inclusive := RequireFlag(c, SubYearInclusive(i));
      if inclusive.Err? { return Err(inclusive.error); }
      var days := Require(c, SubYearDays(i));
      if days.Err? { return Err(days.error); }
      subYear := subYear + [StepBand(minMonths.value, !inclusive.value, days.value)];
    }
    var rowCount := RequireCount(c, RowCount, 1);
    if rowCount.Err? { return Err(rowCount.error); }
    var rows: seq<real> := [];
    for i := 1 to rowCount.value + 1
      invariant ReadAll(RowReader(c), i - 1) == Ok(rows)
    {
      ghost var read := RowReader(c)(i, rows);
      if read.Err? { ErrorStands(RowReader(c), i, rowCount.value); }
      var row := Require(c, RowDays(i));
      if row.Err? { return Err(row.error); }
      rows := rows + [row.value];
    }
    var cap := Require(c, CapYears);
    if cap.Err? { return Err(cap.error); }
    if cap.value <= 0.0 { return Err(NotPositive(CapYears)); }
    var fractionMin := Require(c, FractionMin);
    if fractionMin.Err? { return Err(fractionMin.error); }
    var inclusive := RequireFlag(c, FractionInclusive);
    if inclusive.Err? { return Err(inclusive.error); }
    r := Ok(Table29(subYear, rows, cap.value, StepBand(fractionMin.value, !inclusive.value, 0.0)));
  }
}
