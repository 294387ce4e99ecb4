/**
 Metric definitions and evaluation rubrics of the `teval` package: the data model,
 the mandatory/cumulative views, and the validation run when a rubric is built.
 */
module Rubrics {
  import opened Results
  import opened Seqs

  /** One yes/no criterion: its id, the criterion text shown to the judge, and whether it must pass (by default it need not). */
  datatype MetricDefinition = MetricDefinition(id: string, rubric: string, mandatory: bool := false)

  /** A rubric: an ordered metric list and the minimum number of cumulative metrics that must pass. */
  datatype EvaluationRubric = EvaluationRubric(
    rubricId: string,
    metrics: seq<MetricDefinition>,
    passingScoreThreshold: int)

  /** Why building a rubric was refused; one entry per failing validator, in field order. */
  datatype ConfigError =
    | DuplicateMetricIds
    | NegativeThreshold(threshold: int)
    | ThresholdTooHigh(threshold: int, mandatoryCount: nat, cumulativeCount: nat)

  predicate IsMandatory(m: MetricDefinition) {
    m.mandatory
  }

  predicate IsCumulative(m: MetricDefinition) {
    !m.mandatory
  }

  /** The metrics that must all pass, in rubric order. */
  function MandatoryMetrics(ms: seq<MetricDefinition>): (r: seq<MetricDefinition>)
    ensures forall i :: 0 <= i < |r| ==> r[i].mandatory && r[i] in ms
    ensures forall i :: 0 <= i < |ms| && ms[i].mandatory ==> ms[i] in r
  {
    Filter(IsMandatory, ms)
  }

  /** The metrics that count towards the passing threshold, in rubric order. */
  function CumulativeMetrics(ms: seq<MetricDefinition>): (r: seq<MetricDefinition>)
    ensures forall i :: 0 <= i < |r| ==> !r[i].mandatory && r[i] in ms
    ensures forall i :: 0 <= i < |ms| && !ms[i].mandatory ==> ms[i] in r
  {
    Filter(IsCumulative, ms)
  }

  /** The metric ids, position by position. */
  function Ids(ms: seq<MetricDefinition>): (r: seq<string>)
    ensures |r| == |ms|
    ensures forall i :: 0 <= i < |ms| ==> r[i] == ms[i].id
  {
    seq(|ms|, i requires 0 <= i < |ms| => ms[i].id)
  }

  /** The ids of two lists joined are the two id lists joined. */
  lemma IdsAppend(a: seq<MetricDefinition>, b: seq<MetricDefinition>)
    ensures Ids(a + b) == Ids(a) + Ids(b)
  {
    assert |Ids(a + b)| == |Ids(a) + Ids(b)|;
    forall i | 0 <= i < |a + b| ensures Ids(a + b)[i] == (Ids(a) + Ids(b))[i] {
      if i < |a| {
        assert (a + b)[i] == a[i];
      } else {
        assert (a + b)[i] == b[i - |a|];
      }
    }
  }

  /** The duplicate test as `teval` writes it: fewer distinct ids than ids. */
  function HasDuplicateIds(ms: seq<MetricDefinition>): bool {
    |Ids(ms)| != |Elements(Ids(ms))|
  }

  /** Two different positions carry the same id (ids compare case-sensitively, as strings). */
  ghost predicate SharesId(ms: seq<MetricDefinition>) {
    exists i, j :: 0 <= i < j < |ms| && ms[i].id == ms[j].id
  }

  /** What construction guarantees of every rubric it returns. */
  ghost predicate Valid(r: EvaluationRubric) {
    && !SharesId(r.metrics)
    && 0 <= r.passingScoreThreshold <= |CumulativeMetrics(r.metrics)|
  }

  /** The cardinality test for duplicates detects exactly a repeated id. */
  lemma DuplicateIdsIff(ms: seq<MetricDefinition>)
    ensures HasDuplicateIds(ms) <==> SharesId(ms)
  {
    var ids := Ids(ms);
    ElementsCardinality(ids);
    if SharesId(ms) {
      var i, j :| 0 <= i < j < |ms| && ms[i].id == ms[j].id;
      assert ids[i] == ids[j];
    } else {
      forall i, j | 0 <= i < j < |ids| ensures ids[i] != ids[j] {
        assert ids[i] == ms[i].id && ids[j] == ms[j].id;
      }
    }
  }

  /**
   The errors the two validators report, in field order. The metric list is validated
   first; when it fails, pydantic leaves it out of the data the threshold validator
   sees, which then counts zero metrics of either kind. A negative threshold is stopped
   by the field's `ge=0` constraint before the threshold validator runs.
   */
  function ConstructionErrors(metrics: seq<MetricDefinition>, threshold: int): (r: seq<ConfigError>)
    ensures r == [] <==> !HasDuplicateIds(metrics) && 0 <= threshold <= |CumulativeMetrics(metrics)|
  {
    if HasDuplicateIds(metrics) then
      [DuplicateMetricIds]
      + (if threshold < 0 then [NegativeThreshold(threshold)]
         else if threshold > 0 then [ThresholdTooHigh(threshold, 0, 0)]
         else [])
    else if threshold < 0 then [NegativeThreshold(threshold)]
    else if threshold > |CumulativeMetrics(metrics)| then
      [ThresholdTooHigh(threshold, |MandatoryMetrics(metrics)|, |CumulativeMetrics(metrics)|)]
    else []
  }

  /** Build a rubric, or return every validation error pydantic would collect. */
  function Construct(rubricId: string, metrics: seq<MetricDefinition>, threshold: int)
    : (r: Result<EvaluationRubric, seq<ConfigError>>)
    ensures r.Success? <==> !SharesId(metrics) && 0 <= threshold <= |CumulativeMetrics(metrics)|
    ensures r.Success? ==> r.value == EvaluationRubric(rubricId, metrics, threshold) && Valid(r.value)
    ensures r.Failure? ==> |r.error| > 0
    ensures SharesId(metrics) ==> r.Failure? && r.error[0] == DuplicateMetricIds
    ensures threshold < 0 ==> r.Failure? && r.error[|r.error| - 1] == NegativeThreshold(threshold)
    ensures !SharesId(metrics) && threshold > |CumulativeMetrics(metrics)| ==>
              r == Failure([ThresholdTooHigh(threshold, |MandatoryMetrics(metrics)|, |CumulativeMetrics(metrics)|)])
  {
    DuplicateIdsIff(metrics);
    var errors := ConstructionErrors(metrics, threshold);
    if errors == [] then Success(EvaluationRubric(rubricId, metrics, threshold)) else Failure(errors)
  }

  /**
   The two views split the metric list: it is an interleaving of the mandatory and the
   cumulative metrics, and that is the only way to split it into an all-mandatory part and
   an all-cumulative part while keeping the order.
   */
  lemma SplitCharacterisation(ms: seq<MetricDefinition>, a: seq<MetricDefinition>, b: seq<MetricDefinition>)
    ensures Interleaving(ms, MandatoryMetrics(ms), CumulativeMetrics(ms))
    ensures (&& Interleaving(ms, a, b)
             && (forall i :: 0 <= i < |a| ==> a[i].mandatory)
             && (forall i :: 0 <= i < |b| ==> !b[i].mandatory))
            <==> a == MandatoryMetrics(ms) && b == CumulativeMetrics(ms)
  {
    FilterPartition(IsMandatory, IsCumulative, ms);
    if && Interleaving(ms, a, b)
       && (forall i :: 0 <= i < |a| ==> a[i].mandatory)
       && (forall i :: 0 <= i < |b| ==> !b[i].mandatory) {
      InterleavingIsFilter(IsMandatory, IsCumulative, ms, a, b);
    }
  }

  /** Every metric lands in exactly one of the two views. */
  lemma SplitSizes(ms: seq<MetricDefinition>)
    ensures |MandatoryMetrics(ms)| + |CumulativeMetrics(ms)| == |ms|
  {
    FilterPartition(IsMandatory, IsCumulative, ms);
  }
}
