/**
 * Schema validation (etl_pipeline/ingestion.py, validate_raw_schema): each
 * raw row is coerced all-or-nothing into a RawRecord; survivors are kept in
 * row order and every failing row is counted and dropped.
 */
module Ingestion {
  import opened Wrappers
  import opened Models

  /**
   * A required field: a missing column (the lookup raises) or a null cell
   * fails, otherwise the field's coercion decides.
   */
  function RequiredField<T>(row: RawRow, key: string, coerce: string -> Option<T>): Option<T>
  {
    if key in row && row[key].Text? then coerce(row[key].text) else None
  }

  /** The optional country: unset when the column is missing or the cell is null. */
  function OptionalText(row: RawRow, key: string): Option<string>
  {
    if key in row && row[key].Text? then Some(row[key].text) else None
  }

  /** True when every required field of the row coerces. */
  predicate Coerces(row: RawRow, c: Coercions) {
    && RequiredField(row, CustomerIdKey, c.toInt).Some?
    && RequiredField(row, SignupDateKey, c.toDate).Some?
    && RequiredField(row, Feature1Key, c.toFloat).Some?
    && RequiredField(row, Feature2Key, c.toFloat).Some?
  }

  /** Building a RawRecord from one row; None stands for the raised validation error. */
  function CoerceRow(row: RawRow, c: Coercions): (r: Option<RawRecord>)
    ensures r.Some? <==> Coerces(row, c)
    ensures r.Some? ==>
      && Some(r.value.customerId) == RequiredField(row, CustomerIdKey, c.toInt)
      && Some(r.value.signupDate) == RequiredField(row, SignupDateKey, c.toDate)
      && Some(r.value.feature1) == RequiredField(row, Feature1Key, c.toFloat)
      && Some(r.value.feature2) == RequiredField(row, Feature2Key, c.toFloat)
    ensures r.Some? ==> (r.value.country.None? <==> (CountryKey !in row || row[CountryKey].Null?))
    ensures r.Some? && r.value.country.Some? ==> row[CountryKey] == Text(r.value.country.value)
  {
    var id := RequiredField(row, CustomerIdKey, c.toInt);
    var date := RequiredField(row, SignupDateKey, c.toDate);
    var f1 := RequiredField(row, Feature1Key, c.toFloat);
    var f2 := RequiredField(row, Feature2Key, c.toFloat);
    if id.Some? && date.Some? && f1.Some? && f2.Some? then
      Some(RawRecord(id.value, date.value, f1.value, f2.value, OptionalText(row, CountryKey)))
    else
      None
  }

  /** The records validation keeps, in row order (specification of the loop). */
  function ValidRecords(rows: seq<RawRow>, c: Coercions): (valid: seq<RawRecord>)
    ensures |valid| <= |rows|
  {
    if rows == [] then []
    else
      ValidRecords(rows[..|rows| - 1], c) +
      match CoerceRow(rows[|rows| - 1], c)
      case Some(record) => [record]
      case None => []
  }

  /** The number of rows validation rejects. */
  function RejectCount(rows: seq<RawRow>, c: Coercions): (n: nat)
    ensures n <= |rows|
  {
    if rows == [] then 0
    else RejectCount(rows[..|rows| - 1], c) + (if Coerces(rows[|rows| - 1], c) then 0 else 1)
  }

  /** The positions of the rows that coerce, ascending. */
  function AcceptedIndices(rows: seq<RawRow>, c: Coercions): (idx: seq<nat>)
    ensures forall k :: 0 <= k < |idx| ==> idx[k] < |rows|
  {
    if rows == [] then []
    else
      AcceptedIndices(rows[..|rows| - 1], c) +
      (if Coerces(rows[|rows| - 1], c) then [|rows| - 1] else [])
  }

  method ValidateRawSchema(rows: seq<RawRow>, c: Coercions) returns (valid: seq<RawRecord>, invalidCount: nat)
    ensures valid == ValidRecords(rows, c)
    ensures invalidCount == RejectCount(rows, c)
    ensures |valid| + invalidCount == |rows|
  {
    valid := [];
    invalidCount := 0;
    for i := 0 to |rows|
      invariant valid == ValidRecords(rows[..i], c)
      invariant invalidCount == RejectCount(rows[..i], c)
    {
      assert rows[..i + 1][..i] == rows[..i];
      match CoerceRow(rows[i], c)
      case Some(record) =>
        valid := valid + [record];
      case None =>
        invalidCount := invalidCount + 1;
    }
    assert rows[..|rows|] == rows;
    ValidPlusRejectedIsTotal(rows, c);
  }

  /** Every row is either kept or counted, never both and never neither. */
  lemma {:induction false} ValidPlusRejectedIsTotal(rows: seq<RawRow>, c: Coercions)
    ensures |ValidRecords(rows, c)| + RejectCount(rows, c) == |rows|
  {
    if rows != [] {
      ValidPlusRejectedIsTotal(rows[..|rows| - 1], c);
    }
  }

  /**
   * Appending one row: a row that fails adds no record and exactly one to the
   * reject count; a row that coerces adds exactly its record and leaves the
   * count alone.
   */
  lemma ValidateOneMoreRow(rows: seq<RawRow>, row: RawRow, c: Coercions)
    ensures !Coerces(row, c) ==>
      ValidRecords(rows + [row], c) == ValidRecords(rows, c) &&
      RejectCount(rows + [row], c) == RejectCount(rows, c) + 1
    ensures Coerces(row, c) ==>
      ValidRecords(rows + [row], c) == ValidRecords(rows, c) + [CoerceRow(row, c).value] &&
      RejectCount(rows + [row], c) == RejectCount(rows, c)
  {
  }

  /**
   * A failure is row-scoped: validating a batch in two parts gives the same
   * records and count as validating it whole, so no row affects how later
   * rows are handled.
   */
  lemma {:induction false} ValidateSplits(a: seq<RawRow>, b: seq<RawRow>, c: Coercions)
    ensures ValidRecords(a + b, c) == ValidRecords(a, c) + ValidRecords(b, c)
    ensures RejectCount(a + b, c) == RejectCount(a, c) + RejectCount(b, c)
  {
    if b == [] {
      assert a + b == a;
    } else {
      var b' := b[..|b| - 1];
      assert (a + b)[..|a + b| - 1] == a + b';
      assert (a + b)[|a + b| - 1] == b[|b| - 1];
      ValidateSplits(a, b', c);
    }
  }

  /**
   * The kept records are exactly the coerced rows, whole and in input order:
   * the k-th record is the coercion of the row at the k-th ascending accepted
   * position, and a position is accepted exactly when its row coerces.
   */
  lemma {:induction false} ValidRecordsAreAcceptedRows(rows: seq<RawRow>, c: Coercions)
    ensures |ValidRecords(rows, c)| == |AcceptedIndices(rows, c)|
    ensures forall k :: 0 <= k < |AcceptedIndices(rows, c)| ==>
      CoerceRow(rows[AcceptedIndices(rows, c)[k]], c) == Some(ValidRecords(rows, c)[k])
    ensures forall k, l :: 0 <= k < l < |AcceptedIndices(rows, c)| ==>
      AcceptedIndices(rows, c)[k] < AcceptedIndices(rows, c)[l]
    ensures forall i :: 0 <= i < |rows| ==> (i in AcceptedIndices(rows, c) <==> Coerces(rows[i], c))
  {
    if rows != [] {
      var n := |rows| - 1;
      var p := rows[..n];
      ValidRecordsAreAcceptedRows(p, c);
      var idx, valid := AcceptedIndices(rows, c), ValidRecords(rows, c);
      var pidx, pvalid := AcceptedIndices(p, c), ValidRecords(p, c);
      assert forall i :: 0 <= i < n ==> rows[i] == p[i];
      if Coerces(rows[n], c) {
        assert idx == pidx + [n] && valid == pvalid + [CoerceRow(rows[n], c).value];
      } else {
        assert idx == pidx && valid == pvalid;
      }
    }
  }

  const RawRecordColumns: set<string> := {CustomerIdKey, SignupDateKey, Feature1Key, Feature2Key, CountryKey}

  /** The table built from the list of validated records: an empty list gives a table with no columns. */
  function FrameOf(valid: seq<RawRecord>): (f: Frame)
    ensures f.records == valid
    ensures SignupDateKey in f.columns <==> valid != []
  {
    Frame(if valid == [] then {} else RawRecordColumns, valid)
  }
}
