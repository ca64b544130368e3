/**
 * The run order of the pipeline (etl_pipeline/main.py, run_etl):
 * validate, enrich, audit, filter. Reading and writing files and the
 * progress messages are not part of the model; the run takes the raw rows
 * and returns the reject count, the quality report and the clean records.
 */
module Pipeline {
  import opened Wrappers
  import opened Models
  import opened Ingestion
  import opened Transform
  import opened Validation

  /** Validated records never lack a feature, so both missing counts of the audit are zero. */
  lemma {:induction false} ValidatedHasNoMissing(rows: seq<RawRow>, c: Coercions)
    ensures RunQualityChecks(EnrichFeatures(ValidRecords(rows, c))).missingFeature1 == 0
    ensures RunQualityChecks(EnrichFeatures(ValidRecords(rows, c))).missingFeature2 == 0
  {
    var es := EnrichFeatures(ValidRecords(rows, c));
    forall e | e in es ensures e.feature1.Some? && e.feature2.Some? {
      var i :| 0 <= i < |es| && es[i] == e;
    }
    NoMissingWhenFeaturesPresent(es);
  }

  method RunEtl(rows: seq<RawRow>, c: Coercions)
    returns (invalidCount: nat, report: QualityReport, cleaned: seq<EnrichedRecord>)
    ensures invalidCount == RejectCount(rows, c)
    ensures report == RunQualityChecks(EnrichFeatures(ValidRecords(rows, c)))
    ensures cleaned == FilterInvalidRows(EnrichFeatures(ValidRecords(rows, c)))
    ensures report.missingFeature1 == 0 && report.missingFeature2 == 0
    ensures forall e :: e in cleaned ==> PassesQualityFilter(e) && IsConsistent(e)
    ensures |cleaned| + invalidCount <= |rows|
    ensures |rows| - invalidCount - |cleaned| <= report.negativeFeature1 + report.negativeFeature2
    ensures invalidCount == |rows| ==> cleaned == [] && report == QualityReport(0, 0, 0, 0)
  {
    var valid;
    valid, invalidCount := ValidateRawSchema(rows, c);
    var enriched := EnrichFeatures(valid);
    report := RunQualityChecks(enriched);
    cleaned := FilterInvalidRows(enriched);
    ValidatedHasNoMissing(rows, c);
    DroppedBoundedByReport(enriched);
    CleanedAreConsistent(valid);
    if invalidCount == |rows| {
      assert valid == [];
    }
  }

  /** Every record that survives the filter still satisfies the enriched-record invariant. */
  lemma CleanedAreConsistent(valid: seq<RawRecord>)
    ensures forall e :: e in FilterInvalidRows(EnrichFeatures(valid)) ==> IsConsistent(e)
  {
    var enriched := EnrichFeatures(valid);
    EnrichedPassesCleanRecord(valid);
    forall e | e in FilterInvalidRows(enriched) ensures IsConsistent(e) {
      FilterKeepsOrder(enriched);
      var k :| 0 <= k < |FilterInvalidRows(enriched)| && FilterInvalidRows(enriched)[k] == e;
      assert e in enriched;
    }
  }

  // ---------------------------------------------------------------------
  // Enrichment of the table as the source builds it (Ingestion.FrameOf,
  // Transform.EnrichFrameAsWritten)

  /**
   * As written, a batch in which no row survives validation (an empty input
   * among them) makes enrichment raise instead of producing an empty table.
   */
  lemma AsWrittenFailsWhenEveryRowIsRejected(rows: seq<RawRow>, c: Coercions)
    requires RejectCount(rows, c) == |rows|
    ensures EnrichFrameAsWritten(FrameOf(ValidRecords(rows, c))) == Err(MissingSignupDate)
  {
  }

  /**
   * As written, a batch with at least one surviving row, all of whose dates
   * are within the timestamp range, is enriched as the model enriches it.
   */
  lemma AsWrittenAgreesWhenSomeRowSurvives(rows: seq<RawRow>, c: Coercions)
    requires RejectCount(rows, c) < |rows|
    requires AllDatesInTimestampRange(ValidRecords(rows, c))
    ensures EnrichFrameAsWritten(FrameOf(ValidRecords(rows, c))) == Ok(EnrichFeatures(ValidRecords(rows, c)))
  {
  }

  /**
   * As written, one validated record dated outside the timestamp range makes
   * enrichment raise for the whole batch, although validation accepted the row.
   */
  lemma AsWrittenFailsOnOutOfRangeDate(rows: seq<RawRow>, c: Coercions, i: nat)
    requires i < |ValidRecords(rows, c)|
    requires !InTimestampRange(ValidRecords(rows, c)[i].signupDate)
    ensures EnrichFrameAsWritten(FrameOf(ValidRecords(rows, c))) == Err(OutOfBoundsDate)
  {
  }

  // ---------------------------------------------------------------------
  // End-to-end scenarios

  /** A well-formed high-value row goes through every stage unchanged but for the derived fields. */
  lemma HighValueRowScenario(c: Coercions)
    requires c.toInt("1") == Some(1)
    requires c.toDate("2024-03-15") == Some(CalendarDate(2024, 3, 15))
    requires c.toFloat("5.0") == Some(5.0) && c.toFloat("6.0") == Some(6.0)
    ensures var row := map[CustomerIdKey := Text("1"), SignupDateKey := Text("2024-03-15"),
                           Feature1Key := Text("5.0"), Feature2Key := Text("6.0"), CountryKey := Text("US")];
      && RejectCount([row], c) == 0
      && FilterInvalidRows(EnrichFeatures(ValidRecords([row], c))) ==
         [EnrichedRecord(1, CalendarDate(2024, 3, 15), Some(5.0), Some(6.0), "US", 11.0, true, 15)]
  {
    var row := map[CustomerIdKey := Text("1"), SignupDateKey := Text("2024-03-15"),
                   Feature1Key := Text("5.0"), Feature2Key := Text("6.0"), CountryKey := Text("US")];
    assert [row][..0] == [];
    var es := EnrichFeatures(ValidRecords([row], c));
    assert es == [EnrichedRecord(1, CalendarDate(2024, 3, 15), Some(5.0), Some(6.0), "US", 11.0, true, 15)];
    assert es[..0] == [];
  }

  /** A row with a non-numeric feature is rejected and counted; nothing reaches enrichment. */
  lemma NonNumericFeatureScenario(row: RawRow, c: Coercions)
    requires Feature1Key in row && row[Feature1Key] == Text("abc")
    requires c.toFloat("abc") == None
    ensures RejectCount([row], c) == 1 && ValidRecords([row], c) == []
  {
  }

  /** A negative feature is enriched, counted by the audit, and removed by the filter. */
  lemma NegativeFeatureScenario(r: RawRecord)
    requires r.feature1 == -1.0 && r.feature2 == 2.0
    ensures RunQualityChecks(EnrichFeatures([r])).negativeFeature1 == 1
    ensures FilterInvalidRows(EnrichFeatures([r])) == []
  {
  }

  /** A row without a country ends up with the default country. */
  lemma MissingCountryScenario(row: RawRow, c: Coercions)
    requires CountryKey !in row && Coerces(row, c)
    ensures EnrichFeatures(ValidRecords([row], c))[0].country == DefaultCountry
  {
  }
}
