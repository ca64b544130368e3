/**
 * Data-quality checks and the row filter (etl_pipeline/validation.py): four
 * diagnostic counts over the enriched table, and an order-preserving filter
 * that keeps the rows whose features are present and non-negative.
 */
module Validation {
  import opened Wrappers
  import opened Models
  import opened Transform

  /** The four checks of the quality report, with their report keys. */
  datatype QualityCheck = MissingFeature1 | MissingFeature2 | NegativeFeature1 | NegativeFeature2 {
    function Key(): string {
      match this
      case MissingFeature1 => "missing_feature_1"
      case MissingFeature2 => "missing_feature_2"
      case NegativeFeature1 => "negative_feature_1"
      case NegativeFeature2 => "negative_feature_2"
    }
  }

  /** A missing value is never negative; 0.0 is not negative. */
  predicate Flags(check: QualityCheck, e: EnrichedRecord) {
    match check
    case MissingFeature1 => e.feature1.None?
    case MissingFeature2 => e.feature2.None?
    case NegativeFeature1 => e.feature1.Some? && e.feature1.value < 0.0
    case NegativeFeature2 => e.feature2.Some? && e.feature2.value < 0.0
  }

  /** The number of records a check flags. */
  function CountFlagged(es: seq<EnrichedRecord>, check: QualityCheck): (n: nat)
    ensures n <= |es|
  {
    if es == [] then 0
    else CountFlagged(es[..|es| - 1], check) + (if Flags(check, es[|es| - 1]) then 1 else 0)
  }

  datatype QualityReport = QualityReport(
    missingFeature1: nat,
    missingFeature2: nat,
    negativeFeature1: nat,
    negativeFeature2: nat)
  {
    /** The count reported under a check's key. */
    function Get(check: QualityCheck): nat {
      match check
      case MissingFeature1 => missingFeature1
      case MissingFeature2 => missingFeature2
      case NegativeFeature1 => negativeFeature1
      case NegativeFeature2 => negativeFeature2
    }

    /** The report as the source returns it: each check's key mapped to its count. */
    function Entries(): (m: map<string, nat>)
      ensures m.Keys == set check: QualityCheck :: check.Key()
      ensures forall check: QualityCheck :: m[check.Key()] == Get(check)
    {
      map[MissingFeature1.Key() := missingFeature1, MissingFeature2.Key() := missingFeature2,
          NegativeFeature1.Key() := negativeFeature1, NegativeFeature2.Key() := negativeFeature2]
    }

    function Total(): nat {
      missingFeature1 + missingFeature2 + negativeFeature1 + negativeFeature2
    }
  }

  function RunQualityChecks(es: seq<EnrichedRecord>): (report: QualityReport)
    ensures forall check: QualityCheck :: report.Get(check) == CountFlagged(es, check) <= |es|
  {
    QualityReport(
      CountFlagged(es, MissingFeature1),
      CountFlagged(es, MissingFeature2),
      CountFlagged(es, NegativeFeature1),
      CountFlagged(es, NegativeFeature2))
  }

  /** The filter's mask: both features present and both non-negative. */
  predicate PassesQualityFilter(e: EnrichedRecord) {
    e.feature1.Some? && e.feature2.Some? && e.feature1.value >= 0.0 && e.feature2.value >= 0.0
  }

  function FilterInvalidRows(es: seq<EnrichedRecord>): (kept: seq<EnrichedRecord>)
    ensures |kept| <= |es|
    ensures forall k :: 0 <= k < |kept| ==> PassesQualityFilter(kept[k])
  {
    if es == [] then []
    else
      FilterInvalidRows(es[..|es| - 1]) +
      (if PassesQualityFilter(es[|es| - 1]) then [es[|es| - 1]] else [])
  }

  /** The positions of the rows the filter keeps, ascending. */
  function KeptIndices(es: seq<EnrichedRecord>): (idx: seq<nat>)
    ensures forall k :: 0 <= k < |idx| ==> idx[k] < |es|
  {
    if es == [] then []
    else KeptIndices(es[..|es| - 1]) + (if PassesQualityFilter(es[|es| - 1]) then [|es| - 1] else [])
  }

  /**
   * A record is dropped exactly when some check of the report flags it: the
   * filter's mask is the negation of the four checks together.
   */
  lemma DroppedExactlyWhenFlagged(e: EnrichedRecord)
    ensures !PassesQualityFilter(e) <==> exists check: QualityCheck :: Flags(check, e)
  {
    if !PassesQualityFilter(e) {
      if e.feature1.None? {
        assert Flags(MissingFeature1, e);
      } else if e.feature2.None? {
        assert Flags(MissingFeature2, e);
      } else if e.feature1.value < 0.0 {
        assert Flags(NegativeFeature1, e);
      } else {
        assert Flags(NegativeFeature2, e);
      }
    }
  }

  /**
   * The filter output is an order-preserving subsequence of its input with
   * field values untouched: the k-th kept record is the input record at the
   * k-th ascending kept position, and a position is kept exactly when its
   * record passes the mask.
   */
  lemma {:induction false} FilterKeepsOrder(es: seq<EnrichedRecord>)
    ensures |FilterInvalidRows(es)| == |KeptIndices(es)|
    ensures forall k :: 0 <= k < |KeptIndices(es)| ==> FilterInvalidRows(es)[k] == es[KeptIndices(es)[k]]
    ensures forall k, l :: 0 <= k < l < |KeptIndices(es)| ==> KeptIndices(es)[k] < KeptIndices(es)[l]
    ensures forall i :: 0 <= i < |es| ==> (i in KeptIndices(es) <==> PassesQualityFilter(es[i]))
  {
    if es != [] {
      var n := |es| - 1;
      var p := es[..n];
      FilterKeepsOrder(p);
      assert forall i :: 0 <= i < n ==> es[i] == p[i];
      if PassesQualityFilter(es[n]) {
        assert KeptIndices(es) == KeptIndices(p) + [n];
        assert FilterInvalidRows(es) == FilterInvalidRows(p) + [es[n]];
      } else {
        assert KeptIndices(es) == KeptIndices(p);
        assert FilterInvalidRows(es) == FilterInvalidRows(p);
      }
    }
  }

  /** Filtering an already filtered table changes nothing. */
  lemma {:induction false} FilterIdempotent(es: seq<EnrichedRecord>)
    ensures FilterInvalidRows(FilterInvalidRows(es)) == FilterInvalidRows(es)
  {
    FilterOfPassing(FilterInvalidRows(es));
  }

  /** A table whose every record passes the mask is returned unchanged. */
  lemma {:induction false} FilterOfPassing(es: seq<EnrichedRecord>)
    requires forall i :: 0 <= i < |es| ==> PassesQualityFilter(es[i])
    ensures FilterInvalidRows(es) == es
  {
    if es != [] {
      var n := |es| - 1;
      var p := es[..n];
      assert forall i :: 0 <= i < n ==> p[i] == es[i];
      FilterOfPassing(p);
      assert p + [es[n]] == es;
    }
  }

  /** The number of dropped records is at most the sum of the four quality counts. */
  lemma {:induction false} DroppedBoundedByReport(es: seq<EnrichedRecord>)
    ensures |es| - |FilterInvalidRows(es)| <= RunQualityChecks(es).Total()
  {
    if es != [] {
      var n := |es| - 1;
      DroppedBoundedByReport(es[..n]);
      DroppedExactlyWhenFlagged(es[n]);
    }
  }

  /**
   * Each count equals the size of the set of positions its check flags, an
   * independent reading of the per-column sum of a boolean mask.
   */
  lemma {:induction false} CountIsFlaggedPositions(es: seq<EnrichedRecord>, check: QualityCheck)
    ensures CountFlagged(es, check) == |set i | 0 <= i < |es| && Flags(check, es[i])|
  {
    if es != [] {
      var n := |es| - 1;
      var p := es[..n];
      CountIsFlaggedPositions(p, check);
      var sp := set i | 0 <= i < n && Flags(check, p[i]);
      var s := set i | 0 <= i < |es| && Flags(check, es[i]);
      if Flags(check, es[n]) {
        assert s == sp + {n};
        assert n !in sp;
      } else {
        assert s == sp;
      }
    }
  }

  /** When every record has both features present, both missing counts are zero. */
  lemma {:induction false} NoMissingWhenFeaturesPresent(es: seq<EnrichedRecord>)
    requires forall e :: e in es ==> e.feature1.Some? && e.feature2.Some?
    ensures RunQualityChecks(es).missingFeature1 == 0
    ensures RunQualityChecks(es).missingFeature2 == 0
  {
    if es != [] {
      var n := |es| - 1;
      assert forall e :: e in es[..n] ==> e in es;
      NoMissingWhenFeaturesPresent(es[..n]);
      assert es[n] in es;
    }
  }
}
