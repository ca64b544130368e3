# Customer ETL pipeline: record-level cleaning core

This project models the record-level cleaning core of a batch ETL pipeline
for customer records. The pipeline runs four stages in a fixed order:

1. **Schema validation** (`validate_raw_schema`). Each untyped raw row is
   coerced all-or-nothing into a typed `RawRecord`: customer id, signup date,
   two float features and an optional country. A row that fails is counted
   and dropped. The batch always goes on.
2. **Feature enrichment** (`enrich_features`). Every record gets
   `feature_sum = feature_1 + feature_2`, `is_high_value = feature_sum > 10.0`
   (strict) and `signup_day`, the day of month of the signup date. A missing
   country becomes `"UNKNOWN"`.
3. **Quality audit** (`run_quality_checks`). Four counts over the enriched
   table: missing `feature_1`, missing `feature_2`, negative `feature_1`,
   negative `feature_2`.
4. **Row filter** (`filter_invalid_rows`). Keeps, in order, the records whose
   two features are present and non-negative.

`models.py` also defines `CleanRecord`. Its default country is `"UNKNOWN"`,
and its validator rejects a `feature_sum` more than 1e-6 away from
`feature_1 + feature_2`.

Modules, one per source file: `Models` (models.dfy), `Ingestion`
(ingestion.dfy), `Transform` (transform.dfy), `Validation` (validation.dfy)
and `Pipeline` (pipeline.dfy, the run order of `main.py`). `Wrappers` holds
`Option` and `Result`. The table that validation hands to enrichment is
modelled where the source builds and reads it: `Ingestion.FrameOf` and
`Transform.EnrichFrameAsWritten`.

Modelling choices:
- A raw row is a map from column name to cell. A cell is null or holds text.
  A required column that is missing fails the row, because the lookup raises
  inside the guarded block. So does a null required cell here. In the
  source a null feature cell is read as NaN, which the float coercion
  accepts (see Left out).
- The schema library's coercions from text to integer, date and float are
  given as parameters (`Models.Coercions`). They are total functions that
  return `None` on failure.
- A date is a `(year, month, day)` triple that exists in the proleptic
  Gregorian calendar, years 1 to 9999.
- Feature values are `real`. The enriched table's feature columns are
  `Option<real>` so that the audit's and the filter's null tests can be
  expressed. Validated records always have both features, so the two
  "missing" counts are zero after validation (`Pipeline.ValidatedHasNoMissing`).
- Schema validation is a loop in the source. It is a method here
  (`Ingestion.ValidateRawSchema`), proved against the functions
  `ValidRecords` and `RejectCount`. The other stages are whole-column
  expressions in the source and are functions here.

Two facts about the code shape the model:
- The run writes every column of the enriched table, `signup_date`
  included.
- No stage constructs a `CleanRecord`, so the `feature_sum` check never runs
  in the pipeline. `Transform.EnrichedPassesCleanRecord` proves that every
  enriched record would pass it.

## Model

| member | source | states |
|---|---|---|
| `Models.SumMustBeConsistent` | etl_pipeline/models.py:25-34 | accepts `v` iff a feature is absent or `feature_1 + feature_2 - v` lies within ±1e-6; an exact sum is always accepted; on acceptance returns `v` unchanged; otherwise fails with the mismatch message |
| `Models.NewCleanRecord` | etl_pipeline/models.py:15-34 | construction succeeds iff the sum is within the tolerance; the built record keeps every given field, and its country is the given one or `"UNKNOWN"` when none is supplied |
| `Ingestion.CoerceRow` | etl_pipeline/ingestion.py:35-42 | a record is produced iff all four required fields are present, non-null and coercible; its fields are exactly the coerced values; country is unset exactly when the column is missing or null, with no default at this stage |
| `Ingestion.ValidRecords` | etl_pipeline/ingestion.py:34-43 | the kept records never outnumber the rows |
| `Ingestion.RejectCount` | etl_pipeline/ingestion.py:32-45 | the reject count never exceeds the number of rows |
| `Ingestion.ValidateRawSchema` | etl_pipeline/ingestion.py:24-48 | the loop returns exactly `ValidRecords` and `RejectCount` of the input, and kept plus rejected equals the number of rows |
| `Ingestion.ValidPlusRejectedIsTotal` | etl_pipeline/ingestion.py:31-45 | every row is either kept or counted as rejected |
| `Ingestion.ValidateOneMoreRow` | etl_pipeline/ingestion.py:35-45 | a failing row adds no record and exactly 1 to the count; a coercible row adds exactly its record and leaves the count alone |
| `Ingestion.ValidateSplits` | etl_pipeline/ingestion.py:34-45 | validating a batch in two parts gives the concatenated records and the summed counts, so a failure never affects later rows |
| `Ingestion.ValidRecordsAreAcceptedRows` | etl_pipeline/ingestion.py:34-43 | the k-th kept record is the whole coerced record of the k-th coercible row; those row positions ascend, and a position appears iff its row coerces |
| `Transform.EnrichRecord` | etl_pipeline/transform.py:12-22 | `feature_sum` is the sum of the features; high value iff the sum is strictly above 10.0; `signup_day` is the day of the signup date, in 1..31; country is kept or becomes `"UNKNOWN"`; id, date and features unchanged |
| `Transform.EnrichFeatures` | etl_pipeline/transform.py:4-24 | one output per input, in the same order, each the enrichment of the input at that position |
| `Transform.CleanRecordOf` | etl_pipeline/models.py:15-23 | building a `CleanRecord` from an enriched record succeeds iff both features are present and the sum lies within ±1e-6 of their sum; on success every field equals the record's; a missing feature fails with the not-allowed-none error |
| `Transform.EnrichedIsConsistent` | etl_pipeline/transform.py:17-19 | every enriched record satisfies the invariant: features present, sum accepted by the `feature_sum` check, flag agreeing with the sum, day matching the date |
| `Transform.EnrichedPassesCleanRecord` | etl_pipeline/transform.py:17-22 | every record of the enriched table passes `CleanRecord` validation with its field values unchanged |
| `Transform.EnrichIdempotent` | etl_pipeline/transform.py:12-22 | re-enriching the validated fields of an enriched record gives the same record; projecting back gives the input with its country defaulted |
| `Transform.ConsistentIsEnrichmentOfItsPart` | etl_pipeline/transform.py:17-22 | a consistent record with an exact sum is the enrichment of its own validated fields |
| `Validation.CountFlagged` | etl_pipeline/validation.py:17-20 | each count lies between 0 and the number of records |
| `Validation.RunQualityChecks` | etl_pipeline/validation.py:6-22 | the report's entry for each of the four checks is that check's count, at most the number of records |
| `Validation.QualityReport.Entries` | etl_pipeline/validation.py:16-21 | the report as a dictionary has exactly the four check keys, each mapped to that check's count |
| `Validation.CountIsFlaggedPositions` | etl_pipeline/validation.py:17-20 | each count equals the number of positions whose record the check flags: absent for `missing_*`, present and strictly below 0 for `negative_*` |
| `Validation.FilterInvalidRows` | etl_pipeline/validation.py:25-38 | the output is no longer than the input and every kept record has both features present and non-negative |
| `Validation.FilterKeepsOrder` | etl_pipeline/validation.py:32-38 | the output is an order-preserving subsequence of the input with field values unchanged; a record is kept iff it passes the mask |
| `Validation.DroppedExactlyWhenFlagged` | etl_pipeline/validation.py:16-37 | a record fails the filter iff at least one of the four quality checks flags it |
| `Validation.FilterOfPassing` | etl_pipeline/validation.py:32-38 | a table whose records all pass the mask is returned unchanged |
| `Validation.FilterIdempotent` | etl_pipeline/validation.py:32-38 | filtering twice equals filtering once |
| `Validation.DroppedBoundedByReport` | etl_pipeline/validation.py:16-37 | the number of dropped records is at most the sum of the four quality counts |
| `Validation.NoMissingWhenFeaturesPresent` | etl_pipeline/validation.py:17-18 | both missing counts are 0 when every record has both features |
| `Pipeline.ValidatedHasNoMissing` | etl_pipeline/validation.py:17-18 | after validation and enrichment, both missing counts are 0 for every input |
| `Pipeline.CleanedAreConsistent` | etl_pipeline/main.py:30-38 | every record the filter keeps still satisfies the enriched-record invariant |
| `Pipeline.RunEtl` | etl_pipeline/main.py:26-38 | runs validate, enrich, audit and filter in order. Clean records pass the filter and the invariant. Missing counts are 0. Clean plus rejected is at most the row count. Filter drops are bounded by the negative counts. A batch with every row rejected gives no clean records and an all-zero report |
| `Ingestion.FrameOf` | etl_pipeline/ingestion.py:47 | the table built from the validated list has the rows of the list, and it has a `signup_date` column iff the list is non-empty |
| `Transform.EnrichFrameAsWritten` | etl_pipeline/transform.py:12-17 | enrichment as written fails with the missing-column error when the table lacks `signup_date`, otherwise with the out-of-bounds error when some date lies outside 1677-09-22..2262-04-11 (the range of a nanosecond timestamp); it succeeds iff neither holds, and then yields `EnrichFeatures` of its rows |
| `Pipeline.AsWrittenFailsWhenEveryRowIsRejected` | etl_pipeline/ingestion.py:47 | when every row is rejected, empty input included, the enrichment as written raises the missing-column error |
| `Pipeline.AsWrittenAgreesWhenSomeRowSurvives` | etl_pipeline/transform.py:12-24 | when at least one row survives and every date is within the timestamp range, the enrichment as written equals the model's enrichment |
| `Pipeline.AsWrittenFailsOnOutOfRangeDate` | etl_pipeline/transform.py:15 | one validated record dated outside the timestamp range makes the enrichment as written raise for the whole batch |
| `Pipeline.HighValueRowScenario` | etl_pipeline/main.py:26-38 | a row with features 5.0 and 6.0, dated 2024-03-15, country US, comes out with day 15, sum 11.0, high value and country US |
| `Pipeline.NonNumericFeatureScenario` | etl_pipeline/ingestion.py:35-45 | a row whose `feature_1` is `"abc"` is rejected with count 1 and yields no record |
| `Pipeline.NegativeFeatureScenario` | etl_pipeline/validation.py:19-37 | a record with `feature_1 = -1.0` is enriched, counted once as negative and removed by the filter |
| `Pipeline.MissingCountryScenario` | etl_pipeline/transform.py:22 | a coercible row without a country column comes out with country `"UNKNOWN"` |

## Left out

- Reading the input file (`load_raw_dataframe`, including its not-found error) and writing the output file, creating its directory and the progress messages of `run_etl` and `__main__`. This is file-system and console I/O. The run takes the rows and returns the reject count, the report and the clean records.
- The schema library's coercion rules (text to integer, text to date, text to float). They are a foreign library, so the model takes them as parameters.
- The float coercion's acceptance of NaN. Reals have no NaN, so a validated feature is never missing here. In the source a NaN feature can survive validation, and the two missing counts can then be non-zero.
- The string coercion of a non-null, non-text country value (a null cell read as NaN becomes the text "nan"). A null country cell is taken as unset here.
- IEEE-754 arithmetic. Sums and comparisons are exact over `real`. The 1e-6 tolerance is kept as a real constant.
- Table mechanics: column types, the row index and its reset after filtering, and the conversion of the date column beyond its range check. Records are values in sequences. The column set of a table and the timestamp range are modelled only for the two findings (`Ingestion.FrameOf`, `Transform.EnrichFrameAsWritten`).
- That the stages do not alter their input. Every stage is a function or method over immutable values, so this holds by construction and is not stated as a lemma.

## Findings

| source | as written | input that shows it | evidently intended | confidence | as-written member | corrected member |
|---|---|---|---|---|---|---|
| etl_pipeline/ingestion.py:47 | a table built from an empty list of validated rows has no columns, so `enrich_features` raises when it looks up `signup_date` (etl_pipeline/transform.py:15) | an input with no rows, or one whose every row fails validation | an empty clean table, a reject count equal to the row count and an all-zero report | medium; not executed | `Pipeline.AsWrittenFailsWhenEveryRowIsRejected` | `Pipeline.RunEtl` |
| etl_pipeline/transform.py:15 | the date column is converted to nanosecond timestamps, which raises for a date outside 1677-09-22..2262-04-11, although the schema accepts every calendar date; one such row aborts the whole run | a row dated 1500-01-01 with numeric features | the row is enriched like any other, or rejected as one row at validation; the batch is never aborted | medium; not executed | `Pipeline.AsWrittenFailsOnOutOfRangeDate` | `Pipeline.RunEtl` |
