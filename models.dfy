/**
 * The record shapes of the pipeline (etl_pipeline/models.py): the calendar
 * date, the untyped raw row, the typed RawRecord produced by schema
 * validation, and the CleanRecord schema with its feature_sum check.
 */
module Models {
  import opened Wrappers

  // ---------------------------------------------------------------------
  // Calendar dates (Python's datetime.date: proleptic Gregorian, years 1..9999)

  const MinYear: int := 1
  const MaxYear: int := 9999

  predicate IsLeapYear(year: int) {
    year % 4 == 0 && (year % 100 != 0 || year % 400 == 0)
  }

  function DaysInMonth(year: int, month: int): (n: int)
    requires 1 <= month <= 12
    ensures 28 <= n <= 31
    ensures month == 2 ==> (n == 29 <==> IsLeapYear(year))
  {
    if month == 2 then (if IsLeapYear(year) then 29 else 28)
    else if month == 4 || month == 6 || month == 9 || month == 11 then 30
    else 31
  }

  datatype CalendarDate = CalendarDate(year: int, month: int, day: int)

  predicate IsValidDate(d: CalendarDate) {
    MinYear <= d.year <= MaxYear && 1 <= d.month <= 12 && 1 <= d.day <= DaysInMonth(d.year, d.month)
  }

  /** A date that exists in the calendar, as a successful date coercion yields. */
  type Date = d: CalendarDate | IsValidDate(d) witness CalendarDate(1970, 1, 1)

  // ---------------------------------------------------------------------
  // Raw input

  /** One cell of the raw table: a null (empty) cell or the text read from the file. */
  datatype Cell = Null | Text(text: string)

  /** An untyped row: column name to cell. A column the file lacks is a missing key. */
  type RawRow = map<string, Cell>

  const CustomerIdKey: string := "customer_id"
  const SignupDateKey: string := "signup_date"
  const Feature1Key: string := "feature_1"
  const Feature2Key: string := "feature_2"
  const CountryKey: string := "country"

  /**
   * The per-field coercions the schema library applies to a non-null cell.
   * They belong to a foreign library, so the model takes them as given total
   * functions: None is a coercion failure.
   */
  datatype Coercions = Coercions(
    toInt: string -> Option<int>,
    toDate: string -> Option<Date>,
    toFloat: string -> Option<real>)

  /** A row that passed schema validation: every required field typed, country optional. */
  datatype RawRecord = RawRecord(
    customerId: int,
    signupDate: Date,
    feature1: real,
    feature2: real,
    country: Option<string>)

  /** A table of validated rows: its column names and its rows. */
  datatype Frame = Frame(columns: set<string>, records: seq<RawRecord>)

  // ---------------------------------------------------------------------
  // CleanRecord and its cross-field check

  /** Tolerance of the feature_sum check (1e-6). */
  const SumTolerance: real := 0.000001

  const DefaultCountry: string := "UNKNOWN"

  const SumMismatch: string := "feature_sum must equal feature_1 + feature_2"

  const NoneNotAllowed: string := "none is not an allowed value"

  datatype CleanRecord = CleanRecord(
    customerId: int,
    signupDay: int,
    feature1: real,
    feature2: real,
    featureSum: real,
    isHighValue: bool,
    country: string)

  function Abs(x: real): (a: real)
    ensures a >= 0.0 && (a == x || a == -x)
  {
    if x < 0.0 then -x else x
  }

  /**
   * The validator on feature_sum: given the already-validated features (absent
   * when they did not validate) and the candidate sum v, it accepts v unchanged
   * or fails with the mismatch message.
   */
  function SumMustBeConsistent(f1: Option<real>, f2: Option<real>, v: real): (r: Result<real>)
    ensures r.Ok? <==> (f1.None? || f2.None? || -SumTolerance <= f1.value + f2.value - v <= SumTolerance)
    ensures r.Ok? ==> r.value == v
    ensures r.Err? ==> r.message == SumMismatch
    ensures f1.Some? && f2.Some? && v == f1.value + f2.value ==> r == Ok(v)
  {
    if f1.Some? && f2.Some? then
      var expected := f1.value + f2.value;
      if Abs(expected - v) > SumTolerance then Err(SumMismatch) else Ok(v)
    else
      Ok(v)
  }

  /**
   * Constructing a CleanRecord: country takes its default when not supplied,
   * and the feature_sum validator runs with both features already validated.
   */
  function NewCleanRecord(
    customerId: int, signupDay: int, feature1: real, feature2: real,
    featureSum: real, isHighValue: bool, country: Option<string>): (r: Result<CleanRecord>)
    ensures r.Ok? <==> -SumTolerance <= feature1 + feature2 - featureSum <= SumTolerance
    ensures r.Ok? ==> r.value.country == (if country.Some? then country.value else DefaultCountry)
    ensures r.Ok? ==> r.value.customerId == customerId && r.value.signupDay == signupDay
                      && r.value.feature1 == feature1 && r.value.feature2 == feature2
                      && r.value.featureSum == featureSum && r.value.isHighValue == isHighValue
  {
    match SumMustBeConsistent(Some(feature1), Some(feature2), featureSum)
    case Err(msg) => Err(msg)
    case Ok(sum) =>
      Ok(CleanRecord(customerId, signupDay, feature1, feature2, sum, isHighValue,
                     match country case Some(c) => c case None => DefaultCountry))
  }
}
