/** The coefficients and inputs of a rule, and the checked reads of hcmrules/values.go.  A key is the
    coefficient's name with its band number kept apart. */
module RuleValues {
  import opened Results

  datatype Key =
    | YearsOfService | CapYears | BandCount
    | UptoYears(i: nat) | DaysPerYear(i: nat)
    | MinYears(i: nat) | NoticeDays(i: nat) | Exclusive(i: nat)
    | CompletedYears | RemainderMonths
    | SubYearCount | SubYearMin(i: nat) | SubYearInclusive(i: nat) | SubYearDays(i: nat)
    | RowCount | RowDays(i: nat) | FractionMin | FractionInclusive
    | AbsenceDay | FromDay(i: nat) | BandRate(i: nat)

  datatype RuleError =
    | MissingValue(key: Key)
    | NotACount(key: Key)
    | NotAFlag(key: Key)
    | BadTenure(key: Key)
    | NotPositive(key: Key)
    | BadDay(key: Key)
    | RepeatedDay(day: real)
    | NotCovered(day: real)

  type Values = map<Key, real>

  function Require(vs: Values, k: Key): Result<real, RuleError> {
    if k in vs then Ok(vs[k]) else Err(MissingValue(k))
  }

  predicate IsInteger(x: real) {
    x == x.Floor as real
  }

  /** Truncation towards zero. */
  function IntPart(x: real): (n: int)
    ensures x >= 0.0 ==> n as real <= x < n as real + 1.0
    ensures x < 0.0 ==> n as real - 1.0 < x <= n as real
  {
    if x >= 0.0 then x.Floor else -(-x).Floor
  }

  const MaxCount := 100

  /** A whole number in the range, or an error: never a silently shortened table. */
  function RequireCount(vs: Values, k: Key, atLeast: nat): (r: Result<nat, RuleError>)
    ensures r.Ok? ==> k in vs && vs[k] == r.value as real && atLeast <= r.value <= MaxCount
    ensures k in vs && IsInteger(vs[k]) && atLeast as real <= vs[k] <= MaxCount as real ==> r.Ok?
  {
    var v := Require(vs, k);
    if v.Err? then Err(v.error)
    else if !IsInteger(v.value) || v.value < atLeast as real || v.value > MaxCount as real then Err(NotACount(k))
    else Ok(IntPart(v.value))
  }

  function FlagValue(k: Key, v: real): Result<bool, RuleError> {
    if v == 0.0 then Ok(false) else if v == 1.0 then Ok(true) else Err(NotAFlag(k))
  }

  function RequireFlag(vs: Values, k: Key): Result<bool, RuleError> {
    if k in vs then FlagValue(k, vs[k]) else Err(MissingValue(k))
  }

  /** Absent reads as 0. */
  function OptionalFlag(vs: Values, k: Key): Result<bool, RuleError> {
    if k in vs then FlagValue(k, vs[k]) else Ok(false)
  }
}
