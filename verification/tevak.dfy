/**
 The older `tevak` package: the same metric and rubric records with their views, and
 the two construction validators, without any scoring. Its records have the same
 fields as `teval`'s, so the `Rubrics` datatypes and views are reused; only its error
 values differ (the threshold message names the cumulative count alone).
 */
module Tevak {
  import opened Results
  import opened Seqs
  import Rubrics

  /** Why `tevak` refuses to build a rubric. */
  datatype TevakError =
    | DuplicateIds
    | NegativeThreshold(threshold: int)
    | ThresholdExceeds(threshold: int, cumulativeCount: nat)

  /**
   The errors of the two validators in field order. As in `teval`, a failing metric list
   is hidden from the threshold validator, which then sees no cumulative metrics.
   */
  function ValidationErrors(metrics: seq<Rubrics.MetricDefinition>, threshold: int): (r: seq<TevakError>)
    ensures r == [] <==> !Rubrics.HasDuplicateIds(metrics) && 0 <= threshold <= |Rubrics.CumulativeMetrics(metrics)|
  {
    if Rubrics.HasDuplicateIds(metrics) then
      [DuplicateIds]
      + (if threshold < 0 then [NegativeThreshold(threshold)]
         else if threshold > 0 then [ThresholdExceeds(threshold, 0)]
         else [])
    else if threshold < 0 then [NegativeThreshold(threshold)]
    else if threshold > |Rubrics.CumulativeMetrics(metrics)| then
      [ThresholdExceeds(threshold, |Rubrics.CumulativeMetrics(metrics)|)]
    else []
  }

  /** Build a `tevak` rubric, or return the validation errors. */
  function Construct(rubricId: string, metrics: seq<Rubrics.MetricDefinition>, threshold: int)
    : (r: Result<Rubrics.EvaluationRubric, seq<TevakError>>)
    ensures r.Success? <==> !Rubrics.SharesId(metrics) && 0 <= threshold <= |Rubrics.CumulativeMetrics(metrics)|
    ensures r.Success? ==> r.value == Rubrics.EvaluationRubric(rubricId, metrics, threshold)
    ensures r.Failure? ==> |r.error| > 0
    ensures Rubrics.SharesId(metrics) ==> r.Failure? && r.error[0] == DuplicateIds
    ensures threshold < 0 ==> r.Failure? && NegativeThreshold(threshold) in r.error
    ensures !Rubrics.SharesId(metrics) && threshold > |Rubrics.CumulativeMetrics(metrics)| ==>
              r == Failure([ThresholdExceeds(threshold, |Rubrics.CumulativeMetrics(metrics)|)])
  {
    Rubrics.DuplicateIdsIff(metrics);
    var errors := ValidationErrors(metrics, threshold);
    if errors == [] then Success(Rubrics.EvaluationRubric(rubricId, metrics, threshold)) else Failure(errors)
  }

  /** The `tevak` reading of a `teval` construction error. */
  function Translate(e: Rubrics.ConfigError): TevakError {
    match e
    case DuplicateMetricIds => DuplicateIds
    case NegativeThreshold(t) => NegativeThreshold(t)
    case ThresholdTooHigh(t, _, c) => ThresholdExceeds(t, c)
  }

  /**
   The two packages accept the same rubrics, build the same value, and report the same
   errors in the same order up to the wording of the threshold message.
   */
  lemma AgreesWithTeval(rubricId: string, metrics: seq<Rubrics.MetricDefinition>, threshold: int)
    ensures Construct(rubricId, metrics, threshold).Success? <==> Rubrics.Construct(rubricId, metrics, threshold).Success?
    ensures Construct(rubricId, metrics, threshold).Success? ==>
              Construct(rubricId, metrics, threshold).value == Rubrics.Construct(rubricId, metrics, threshold).value
    ensures Construct(rubricId, metrics, threshold).Failure? ==>
              var mine, theirs := Construct(rubricId, metrics, threshold).error, Rubrics.Construct(rubricId, metrics, threshold).error;
              |mine| == |theirs| && forall i :: 0 <= i < |mine| ==> mine[i] == Translate(theirs[i])
  {
  }

  /** A rubric of mandatory metrics only is valid with threshold 0 and has no cumulative metrics. */
  lemma OnlyMandatoryAccepted(rubricId: string, metrics: seq<Rubrics.MetricDefinition>)
    requires !Rubrics.SharesId(metrics)
    requires forall i :: 0 <= i < |metrics| ==> metrics[i].mandatory
    ensures Construct(rubricId, metrics, 0).Success?
    ensures Rubrics.CumulativeMetrics(metrics) == []
    ensures Rubrics.MandatoryMetrics(metrics) == metrics
  {
    FilterKeepsAll(Rubrics.IsMandatory, metrics);
    Rubrics.SplitSizes(metrics);
  }
}
