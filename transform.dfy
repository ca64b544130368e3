/**
 * Feature enrichment (etl_pipeline/transform.py, enrich_features): a total,
 * order-preserving map that adds feature_sum, is_high_value and signup_day
 * and fills the country default.
 */
module Transform {
  import opened Wrappers
  import opened Models

  /** Strict threshold above which a record is high value. */
  const HighValueThreshold: real := 10.0

  /**
   * One row of the enriched table. The feature columns are nullable, as table
   * columns are, so the quality stage can observe a missing value.
   */
  datatype EnrichedRecord = EnrichedRecord(
    customerId: int,
    signupDate: Date,
    feature1: Option<real>,
    feature2: Option<real>,
    country: string,
    featureSum: real,
    isHighValue: bool,
    signupDay: int)

  /**
   * The invariant every enriched record must satisfy: both features present,
   * feature_sum accepted by the CleanRecord check, the high-value flag
   * agreeing with the sum, and signup_day the day of signup_date.
   */
  predicate IsConsistent(e: EnrichedRecord) {
    && e.feature1.Some? && e.feature2.Some?
    && SumMustBeConsistent(e.feature1, e.feature2, e.featureSum).Ok?
    && (e.isHighValue <==> e.featureSum > HighValueThreshold)
    && e.signupDay == e.signupDate.day
  }

  function EnrichRecord(r: RawRecord): (e: EnrichedRecord)
    ensures e.customerId == r.customerId && e.signupDate == r.signupDate
    ensures e.feature1 == Some(r.feature1) && e.feature2 == Some(r.feature2)
    ensures e.featureSum == r.feature1 + r.feature2
    ensures e.isHighValue <==> r.feature1 + r.feature2 > HighValueThreshold
    ensures e.signupDay == r.signupDate.day && 1 <= e.signupDay <= 31
    ensures e.country == (if r.country.Some? then r.country.value else DefaultCountry)
  {
    var sum := r.feature1 + r.feature2;
    EnrichedRecord(
      r.customerId, r.signupDate, Some(r.feature1), Some(r.feature2),
      match r.country case Some(name) => name case None => DefaultCountry,
      sum, sum > HighValueThreshold, r.signupDate.day)
  }

  /** The enriched table: one record per input record, in the same order. */
  function EnrichFeatures(rs: seq<RawRecord>): (es: seq<EnrichedRecord>)
    ensures |es| == |rs|
    ensures forall i :: 0 <= i < |rs| ==> es[i] == EnrichRecord(rs[i])
  {
    if rs == [] then [] else [EnrichRecord(rs[0])] + EnrichFeatures(rs[1..])
  }

  /** The validated fields of an enriched record, when its features are present. */
  function ValidatedPart(e: EnrichedRecord): (r: Option<RawRecord>)
    ensures r.Some? <==> e.feature1.Some? && e.feature2.Some?
  {
    if e.feature1.Some? && e.feature2.Some? then
      Some(RawRecord(e.customerId, e.signupDate, e.feature1.value, e.feature2.value, Some(e.country)))
    else
      None
  }

  /**
   * Building a CleanRecord from a whole enriched record: a missing feature is
   * refused by the schema, and the feature_sum validator runs on the rest.
   */
  function CleanRecordOf(e: EnrichedRecord): (r: Result<CleanRecord>)
    ensures r.Ok? <==>
      e.feature1.Some? && e.feature2.Some? &&
      -SumTolerance <= e.feature1.value + e.feature2.value - e.featureSum <= SumTolerance
    ensures r.Ok? ==>
      r.value == CleanRecord(e.customerId, e.signupDay, e.feature1.value, e.feature2.value,
                             e.featureSum, e.isHighValue, e.country)
    ensures e.feature1.None? || e.feature2.None? ==> r.Err? && r.message == NoneNotAllowed
  {
    if e.feature1.Some? && e.feature2.Some? then
      NewCleanRecord(e.customerId, e.signupDay, e.feature1.value, e.feature2.value,
                     e.featureSum, e.isHighValue, Some(e.country))
    else
      Err(NoneNotAllowed)
  }

  /** Every enriched record satisfies the invariant; the enricher never violates it. */
  lemma EnrichedIsConsistent(r: RawRecord)
    ensures IsConsistent(EnrichRecord(r))
  {
  }

  /**
   * Every record of the enriched table passes the CleanRecord schema, its
   * feature_sum check included, with the same field values.
   */
  lemma EnrichedPassesCleanRecord(rs: seq<RawRecord>)
    ensures forall e :: e in EnrichFeatures(rs) ==>
      IsConsistent(e) &&
      CleanRecordOf(e) == Ok(CleanRecord(e.customerId, e.signupDay, e.feature1.value, e.feature2.value,
                                         e.featureSum, e.isHighValue, e.country))
  {
  }

  /**
   * Enrichment is idempotent through the validated projection: re-enriching
   * the validated fields of an enriched record yields the same record. The
   * projection itself returns the input except that an unset country comes
   * back as the default.
   */
  lemma EnrichIdempotent(r: RawRecord)
    ensures ValidatedPart(EnrichRecord(r)).Some?
    ensures EnrichRecord(ValidatedPart(EnrichRecord(r)).value) == EnrichRecord(r)
    ensures ValidatedPart(EnrichRecord(r)) ==
      Some(r.(country := Some(if r.country.Some? then r.country.value else DefaultCountry)))
  {
  }

  /** Any consistent enriched record is reproduced by re-enriching its validated part. */
  lemma ConsistentIsEnrichmentOfItsPart(e: EnrichedRecord)
    requires IsConsistent(e)
    requires e.featureSum == e.feature1.value + e.feature2.value
    ensures EnrichRecord(ValidatedPart(e).value) == e
  {
  }

  // ---------------------------------------------------------------------
  // Enrichment of the table as written

  const MissingSignupDate: string := "KeyError: 'signup_date'"

  const OutOfBoundsDate: string := "OutOfBoundsDatetime: Out of bounds nanosecond timestamp"

  /** Before: is date a strictly earlier than date b? */
  predicate Before(a: CalendarDate, b: CalendarDate) {
    a.year < b.year || (a.year == b.year && (a.month < b.month || (a.month == b.month && a.day < b.day)))
  }

  /** The first and last dates whose midnight a nanosecond timestamp can hold. */
  const FirstTimestampDate: CalendarDate := CalendarDate(1677, 9, 22)
  const LastTimestampDate: CalendarDate := CalendarDate(2262, 4, 11)

  predicate InTimestampRange(d: Date) {
    !Before(d, FirstTimestampDate) && !Before(LastTimestampDate, d)
  }

  predicate AllDatesInTimestampRange(rs: seq<RawRecord>) {
    forall i :: 0 <= i < |rs| ==> InTimestampRange(rs[i].signupDate)
  }

  /**
   * Enrichment as written: it first looks up the signup_date column, which
   * raises when absent, then converts the column to nanosecond timestamps,
   * which raises when any date lies outside their range.
   */
  function EnrichFrameAsWritten(f: Frame): (r: Result<seq<EnrichedRecord>>)
    ensures SignupDateKey !in f.columns ==> r == Err(MissingSignupDate)
    ensures SignupDateKey in f.columns && (exists i :: 0 <= i < |f.records| && !InTimestampRange(f.records[i].signupDate))
      ==> r == Err(OutOfBoundsDate)
    ensures r.Ok? <==> SignupDateKey in f.columns && AllDatesInTimestampRange(f.records)
    ensures r.Ok? ==> r.value == EnrichFeatures(f.records)
  {
    if SignupDateKey !in f.columns then Err(MissingSignupDate)
    else if !AllDatesInTimestampRange(f.records) then Err(OutOfBoundsDate)
    else Ok(EnrichFeatures(f.records))
  }
}
