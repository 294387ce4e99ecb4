/**
 The helpers attached to the result model a rubric generates (`passes`,
 `get_failed_metrics`, `get_passed_metrics`), stated over a plain map from metric id
 to boolean with the generating rubric passed alongside.
 */
module Carriers {
  import opened Results
  import opened Seqs
  import opened Rubrics
  import opened Scoring

  /** The values hold a boolean for every metric id, as the generated model's required fields guarantee. */
  predicate Conforms(rubric: EvaluationRubric, values: map<string, bool>) {
    forall i :: 0 <= i < |rubric.metrics| ==> rubric.metrics[i].id in values
  }

  /** The dictionary `passes` builds before calling `validate_result`: each metric id with its boolean. */
  function ResultDict(rubric: EvaluationRubric, values: map<string, bool>): (d: map<string, Value>)
    requires Conforms(rubric, values)
    ensures forall i :: 0 <= i < |rubric.metrics| ==>
              rubric.metrics[i].id in d && d[rubric.metrics[i].id] == Bool(values[rubric.metrics[i].id])
  {
    map id | id in Ids(rubric.metrics) && id in values :: Bool(values[id])
  }

  /** `passes()`: never raises on a model instance, and agrees with `validate_result` on its values. */
  function Passes(rubric: EvaluationRubric, values: map<string, bool>): (p: bool)
    requires Conforms(rubric, values)
    ensures Score(rubric, Object(ResultDict(rubric, values))) == Success(p)
  {
    ScoreChecks(rubric, Object(ResultDict(rubric, values)));
    Score(rubric, Object(ResultDict(rubric, values))).value
  }

  function FalseIn(values: map<string, bool>): string -> bool {
    id => id in values && !values[id]
  }

  function TrueIn(values: map<string, bool>): string -> bool {
    id => id in values && values[id]
  }

  /** `get_failed_metrics()`: the ids judged false, in rubric order. */
  function FailedMetrics(rubric: EvaluationRubric, values: map<string, bool>): (r: seq<string>)
    requires Conforms(rubric, values)
    ensures forall i :: 0 <= i < |r| ==> r[i] in Ids(rubric.metrics) && r[i] in values && !values[r[i]]
    ensures forall i :: 0 <= i < |rubric.metrics| && !values[rubric.metrics[i].id] ==> rubric.metrics[i].id in r
  {
    Filter(FalseIn(values), Ids(rubric.metrics))
  }

  /** `get_passed_metrics()`: the ids judged true, in rubric order. */
  function PassedMetrics(rubric: EvaluationRubric, values: map<string, bool>): (r: seq<string>)
    requires Conforms(rubric, values)
    ensures forall i :: 0 <= i < |r| ==> r[i] in Ids(rubric.metrics) && r[i] in values && values[r[i]]
    ensures forall i :: 0 <= i < |rubric.metrics| && values[rubric.metrics[i].id] ==> rubric.metrics[i].id in r
  {
    Filter(TrueIn(values), Ids(rubric.metrics))
  }

  /**
   The failed and passed lists split the rubric's ids: merged in order they give the id
   list back, and together they are exactly as long.
   */
  lemma FailedPassedPartition(rubric: EvaluationRubric, values: map<string, bool>)
    requires Conforms(rubric, values)
    ensures Interleaving(Ids(rubric.metrics), FailedMetrics(rubric, values), PassedMetrics(rubric, values))
    ensures |FailedMetrics(rubric, values)| + |PassedMetrics(rubric, values)| == |rubric.metrics|
  {
    var ids := Ids(rubric.metrics);
    assert forall i :: 0 <= i < |ids| ==> TrueIn(values)(ids[i]) == !FalseIn(values)(ids[i]);
    FilterPartition(FalseIn(values), TrueIn(values), ids);
  }

  /** How many cumulative metrics are judged true, counted one metric at a time. */
  function CumulativeTrueCount(ms: seq<MetricDefinition>, values: map<string, bool>): nat
    requires forall i :: 0 <= i < |ms| ==> ms[i].id in values
  {
    if |ms| == 0 then 0
    else (if !ms[0].mandatory && values[ms[0].id] then 1 else 0) + CumulativeTrueCount(ms[1..], values)
  }

  /** The one-at-a-time count agrees with the filtered count `validate_result` uses. */
  lemma {:induction false} CumulativeCountsAgree(ms: seq<MetricDefinition>, values: map<string, bool>, d: map<string, Value>)
    requires forall i :: 0 <= i < |ms| ==> ms[i].id in values && ms[i].id in d && d[ms[i].id] == Bool(values[ms[i].id])
    ensures CumulativeTrueCount(ms, values) == CumulativePassed(ms, d)
  {
    if |ms| > 0 {
      var x, tail := ms[0], ms[1..];
      CumulativeCountsAgree(tail, values, d);
      assert ms == [x] + tail;
      FilterCons(IsCumulative, x, tail);
      var rest := CumulativeMetrics(tail);
      if x.mandatory {
        assert CumulativeMetrics(ms) == rest;
      } else {
        assert CumulativeMetrics(ms) == [x] + rest;
        FilterCons(HoldsIn(d), x, rest);
        assert HoldsIn(d)(x) == values[x.id];
      }
    }
  }

  /**
   The pass rule: an instance passes exactly when every mandatory metric is true and at
   least the threshold's number of cumulative metrics are true.
   */
  lemma PassRule(rubric: EvaluationRubric, values: map<string, bool>)
    requires Conforms(rubric, values)
    ensures Passes(rubric, values) <==>
              && (forall i :: 0 <= i < |rubric.metrics| && rubric.metrics[i].mandatory ==> values[rubric.metrics[i].id])
              && CumulativeTrueCount(rubric.metrics, values) >= rubric.passingScoreThreshold
  {
    var d := ResultDict(rubric, values);
    ScoreChecks(rubric, Object(d));
    CumulativeCountsAgree(rubric.metrics, values, d);
    assert MandatoryGate(rubric.metrics, d) <==>
             forall i :: 0 <= i < |rubric.metrics| && rubric.metrics[i].mandatory ==> values[rubric.metrics[i].id];
  }

  /** A mandatory metric in the failed list means the instance does not pass. */
  lemma FailedMandatoryVetoes(rubric: EvaluationRubric, values: map<string, bool>, k: nat)
    requires Conforms(rubric, values)
    requires k < |rubric.metrics| && rubric.metrics[k].mandatory
    requires rubric.metrics[k].id in FailedMetrics(rubric, values)
    ensures !Passes(rubric, values)
  {
    var d := ResultDict(rubric, values);
    assert d[rubric.metrics[k].id] == Bool(false);
    assert !MandatoryGate(rubric.metrics, d);
  }

  /** With a reachable threshold, an instance with an empty failed list passes. */
  lemma NothingFailedPasses(rubric: EvaluationRubric, values: map<string, bool>)
    requires Conforms(rubric, values)
    requires rubric.passingScoreThreshold <= |CumulativeMetrics(rubric.metrics)|
    requires FailedMetrics(rubric, values) == []
    ensures Passes(rubric, values)
  {
    var d := ResultDict(rubric, values);
    var cumulative := CumulativeMetrics(rubric.metrics);
    assert forall i :: 0 <= i < |rubric.metrics| ==> values[rubric.metrics[i].id];
    FilterKeepsAll(HoldsIn(d), cumulative);
  }
}
