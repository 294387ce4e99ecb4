/**
 Scoring a judgment against a rubric (`validate_result`): the presence check, the
 boolean check, the mandatory gate and the cumulative threshold.
 */
module Scoring {
  import opened Results
  import opened Seqs
  import opened Rubrics

  /** A decoded value in a judgment: a boolean, or anything else, named by its type. */
  datatype Value = Bool(b: bool) | Other(typeName: string)

  /** A decoded judgment: an object keyed by strings, or some other top-level value. */
  datatype Payload = Object(entries: map<string, Value>) | NotAnObject(typeName: string)

  /** Why a judgment could not be scored. */
  datatype ScoreError =
    | NotAMapping(typeName: string)
    | MissingMetrics(ids: seq<string>)
    | NotBoolean(id: string, typeName: string)

  function AbsentFrom(entries: map<string, Value>): string -> bool {
    id => id !in entries
  }

  function PresentIn(entries: map<string, Value>): string -> bool {
    id => id in entries
  }

  function HoldsIn(entries: map<string, Value>): MetricDefinition -> bool {
    (m: MetricDefinition) => m.id in entries && entries[m.id] == Bool(true)
  }

  /**
   The ids of the rubric's metrics that the judgment lacks, in rubric order: merged in
   order with the ids it holds, they give the rubric's id list back.
   */
  function MissingIds(ms: seq<MetricDefinition>, entries: map<string, Value>): (r: seq<string>)
    ensures forall i :: 0 <= i < |r| ==> r[i] !in entries && r[i] in Ids(ms)
    ensures forall i :: 0 <= i < |ms| && ms[i].id !in entries ==> ms[i].id in r
    ensures Interleaving(Ids(ms), r, Filter(PresentIn(entries), Ids(ms)))
  {
    var ids := Ids(ms);
    FilterPartition(AbsentFrom(entries), PresentIn(entries), ids);
    Filter(AbsentFrom(entries), ids)
  }

  /** Every metric id is a key of the judgment. */
  predicate AllPresent(ms: seq<MetricDefinition>, entries: map<string, Value>) {
    forall i :: 0 <= i < |ms| ==> ms[i].id in entries
  }

  /** The position of the first metric, in rubric order, whose value is not a boolean. */
  function FirstNonBoolean(ms: seq<MetricDefinition>, entries: map<string, Value>): (r: Option<nat>)
    requires AllPresent(ms, entries)
    ensures r.Some? ==> r.value < |ms| && entries[ms[r.value].id].Other?
    ensures r.Some? ==> forall j :: 0 <= j < r.value ==> entries[ms[j].id].Bool?
    ensures r.None? <==> forall j :: 0 <= j < |ms| ==> entries[ms[j].id].Bool?
  {
    if |ms| == 0 then None
    else if entries[ms[0].id].Other? then Some(0)
    else match FirstNonBoolean(ms[1..], entries)
      case None => None
      case Some(k) => Some(k + 1)
  }

  /** Every mandatory metric is judged true. */
  predicate MandatoryGate(ms: seq<MetricDefinition>, entries: map<string, Value>) {
    forall i :: 0 <= i < |ms| && ms[i].mandatory ==> ms[i].id in entries && entries[ms[i].id] == Bool(true)
  }

  /** How many cumulative metrics are judged true. */
  function CumulativePassed(ms: seq<MetricDefinition>, entries: map<string, Value>): (n: nat)
    ensures n <= |CumulativeMetrics(ms)|
  {
    |Filter(HoldsIn(entries), CumulativeMetrics(ms))|
  }

  /**
   The reference outcome of `validate_result`: the first failing check, in the order the
   Python code performs them, or whether the judgment passes.
   */
  function Score(rubric: EvaluationRubric, payload: Payload): (r: Result<bool, ScoreError>)
    ensures payload.NotAnObject? ==> r == Failure(NotAMapping(payload.typeName))
    ensures r.Success? && !MandatoryGate(rubric.metrics, payload.entries) ==> r.value == false
  {
    match payload
    case NotAnObject(t) => Failure(NotAMapping(t))
    case Object(entries) =>
      var missing := MissingIds(rubric.metrics, entries);
      if |missing| > 0 then
        Failure(MissingMetrics(missing))
      else
        assert AllPresent(rubric.metrics, entries);
        match FirstNonBoolean(rubric.metrics, entries)
        case Some(i) => Failure(NotBoolean(rubric.metrics[i].id, entries[rubric.metrics[i].id].typeName))
        case None =>
          Success(MandatoryGate(rubric.metrics, entries)
                  && CumulativePassed(rubric.metrics, entries) >= rubric.passingScoreThreshold)
  }

  /**
   Which check a judgment fails: the presence check fails exactly when some metric id is
   absent, a type error names a metric whose value is not a boolean, and a judgment is
   scored exactly when it is an object holding a boolean for every metric id.
   */
  lemma ScoreChecks(rubric: EvaluationRubric, payload: Payload)
    ensures var r := Score(rubric, payload);
            && (r.Failure? && r.error.MissingMetrics? <==>
                  payload.Object? && !AllPresent(rubric.metrics, payload.entries))
            && (r.Failure? && r.error.MissingMetrics? ==> |r.error.ids| > 0)
            && (r.Failure? && r.error.NotBoolean? ==>
                  exists i :: 0 <= i < |rubric.metrics| && rubric.metrics[i].id == r.error.id
                              && payload.entries[r.error.id] == Other(r.error.typeName))
            && (r.Success? <==>
                  && payload.Object?
                  && AllPresent(rubric.metrics, payload.entries)
                  && forall i :: 0 <= i < |rubric.metrics| ==> payload.entries[rubric.metrics[i].id].Bool?)
  {
    if payload.Object? {
      var entries := payload.entries;
      var missing := MissingIds(rubric.metrics, entries);
      if |missing| > 0 {
        var ids := Ids(rubric.metrics);
        assert missing[0] in ids;
        var k :| 0 <= k < |ids| && ids[k] == missing[0];
        assert rubric.metrics[k].id !in entries;
      }
    }
  }

  /** `validate_result` on an already-decoded judgment, checking in the Python code's order with its loops. */
  method ValidateResult(rubric: EvaluationRubric, payload: Payload) returns (r: Result<bool, ScoreError>)
    ensures r == Score(rubric, payload)
  {
    if payload.NotAnObject? {
      return Failure(NotAMapping(payload.typeName));
    }
    var entries := payload.entries;
    var ms := rubric.metrics;
    var missing := CollectMissing(ms, entries);
    if |missing| > 0 {
      return Failure(MissingMetrics(missing));
    }
    var bad := FindNonBoolean(ms, entries);
    if bad.Some? {
      var id := ms[bad.value].id;
      return Failure(NotBoolean(id, entries[id].typeName));
    }
    var gate := CheckMandatory(ms, entries);
    if !gate {
      return Success(false);
    }
    var passed := CountCumulativePassed(ms, entries);
    if passed < rubric.passingScoreThreshold {
      return Success(false);
    }
    return Success(true);
  }

  /** The presence loop: collects absent metric ids in rubric order. */
  method CollectMissing(ms: seq<MetricDefinition>, entries: map<string, Value>) returns (missing: seq<string>)
    ensures missing == MissingIds(ms, entries)
  {
    var ids := Ids(ms);
    missing := [];
    var i := 0;
    while i < |ids|
      invariant 0 <= i <= |ids|
      invariant missing == Filter(AbsentFrom(entries), ids[..i])
    {
      FilterPrefixStep(AbsentFrom(entries), ids, i);
      if ids[i] !in entries {
        missing := missing + [ids[i]];
      }
      i := i + 1;
    }
    assert ids[..|ids|] == ids;
  }

  /** The type loop: stops at the first metric whose value is not a boolean. */
  method FindNonBoolean(ms: seq<MetricDefinition>, entries: map<string, Value>) returns (bad: Option<nat>)
    requires AllPresent(ms, entries)
    ensures bad == FirstNonBoolean(ms, entries)
  {
    var i := 0;
    while i < |ms|
      invariant 0 <= i <= |ms|
      invariant forall j :: 0 <= j < i ==> entries[ms[j].id].Bool?
    {
      if entries[ms[i].id].Other? {
        return Some(i);
      }
      i := i + 1;
    }
    return None;
  }

  /** The mandatory loop: false as soon as one mandatory metric is judged false. */
  method CheckMandatory(ms: seq<MetricDefinition>, entries: map<string, Value>) returns (ok: bool)
    requires AllPresent(ms, entries)
    requires forall i :: 0 <= i < |ms| ==> entries[ms[i].id].Bool?
    ensures ok == MandatoryGate(ms, entries)
  {
    var mandatory := MandatoryMetrics(ms);
    var i := 0;
    while i < |mandatory|
      invariant 0 <= i <= |mandatory|
      invariant forall j :: 0 <= j < i ==> entries[mandatory[j].id] == Bool(true)
    {
      if !entries[mandatory[i].id].b {
        return false;
      }
      i := i + 1;
    }
    return true;
  }

  /** The cumulative sum: counts the cumulative metrics judged true. */
  method CountCumulativePassed(ms: seq<MetricDefinition>, entries: map<string, Value>) returns (passed: nat)
    ensures passed == CumulativePassed(ms, entries)
  {
    var cumulative := CumulativeMetrics(ms);
    passed := 0;
    var i := 0;
    while i < |cumulative|
      invariant 0 <= i <= |cumulative|
      invariant passed == |Filter(HoldsIn(entries), cumulative[..i])|
    {
      FilterPrefixStep(HoldsIn(entries), cumulative, i);
      if HoldsIn(entries)(cumulative[i]) {
        passed := passed + 1;
      }
      i := i + 1;
    }
    assert cumulative[..|cumulative|] == cumulative;
  }

  /** Two judgments that agree on every metric id score the same: keys that are not metric ids are ignored. */
  lemma ExtraKeysIgnored(rubric: EvaluationRubric, e1: map<string, Value>, e2: map<string, Value>)
    requires forall i :: 0 <= i < |rubric.metrics| ==>
               && (rubric.metrics[i].id in e1 <==> rubric.metrics[i].id in e2)
               && (rubric.metrics[i].id in e1 ==> e1[rubric.metrics[i].id] == e2[rubric.metrics[i].id])
    ensures Score(rubric, Object(e1)) == Score(rubric, Object(e2))
  {
    var ms := rubric.metrics;
    var ids := Ids(ms);
    assert forall i :: 0 <= i < |ids| ==> AbsentFrom(e1)(ids[i]) == AbsentFrom(e2)(ids[i]);
    FilterCongruence(AbsentFrom(e1), AbsentFrom(e2), ids);
    var missing := MissingIds(ms, e1);
    assert missing == MissingIds(ms, e2);
    if |missing| == 0 {
      assert AllPresent(ms, e1);
      assert AllPresent(ms, e2);
      FirstNonBooleanCongruence(ms, e1, e2);
      CumulativePassedCongruence(ms, e1, e2);
      assert MandatoryGate(ms, e1) == MandatoryGate(ms, e2);
    }
  }

  /** The cumulative count depends only on the values of the metric ids. */
  lemma CumulativePassedCongruence(ms: seq<MetricDefinition>, e1: map<string, Value>, e2: map<string, Value>)
    requires AllPresent(ms, e1) && AllPresent(ms, e2)
    requires forall i :: 0 <= i < |ms| ==> e1[ms[i].id] == e2[ms[i].id]
    ensures CumulativePassed(ms, e1) == CumulativePassed(ms, e2)
  {
    var cumulative := CumulativeMetrics(ms);
    forall i | 0 <= i < |cumulative| ensures HoldsIn(e1)(cumulative[i]) == HoldsIn(e2)(cumulative[i]) {
      var k :| 0 <= k < |ms| && ms[k] == cumulative[i];
    }
    FilterCongruence(HoldsIn(e1), HoldsIn(e2), cumulative);
  }

  /** The first non-boolean position depends only on the values of the metric ids. */
  lemma {:induction false} FirstNonBooleanCongruence(ms: seq<MetricDefinition>, e1: map<string, Value>, e2: map<string, Value>)
    requires AllPresent(ms, e1) && AllPresent(ms, e2)
    requires forall i :: 0 <= i < |ms| ==> e1[ms[i].id] == e2[ms[i].id]
    ensures FirstNonBoolean(ms, e1) == FirstNonBoolean(ms, e2)
  {
    if |ms| > 0 {
      FirstNonBooleanCongruence(ms[1..], e1, e2);
    }
  }

  /**
   Turning cumulative or mandatory judgments from false to true never turns a pass
   into a fail: the outcome is monotone in the judged values.
   */
  lemma PassIsMonotone(rubric: EvaluationRubric, e1: map<string, Value>, e2: map<string, Value>)
    requires Score(rubric, Object(e2)).Success?
    requires forall i :: 0 <= i < |rubric.metrics| && rubric.metrics[i].id in e1 ==>
               e1[rubric.metrics[i].id] == Bool(true) ==> e2[rubric.metrics[i].id] == Bool(true)
    ensures Score(rubric, Object(e1)) == Success(true) ==> Score(rubric, Object(e2)) == Success(true)
  {
    ScoreChecks(rubric, Object(e1));
    ScoreChecks(rubric, Object(e2));
    if Score(rubric, Object(e1)) == Success(true) {
      var cumulative := CumulativeMetrics(rubric.metrics);
      FilterCountMonotone(HoldsIn(e1), HoldsIn(e2), cumulative);
    }
  }

  /** The judgment that marks every metric true. */
  function AllTrue(ms: seq<MetricDefinition>): (e: map<string, Value>)
    ensures forall i :: 0 <= i < |ms| ==> ms[i].id in e && e[ms[i].id] == Bool(true)
  {
    map id | id in Ids(ms) :: Bool(true)
  }

  /**
   Some judgment passes exactly when the threshold is within reach of the cumulative
   metrics; this is what the construction-time threshold check protects.
   */
  lemma PassableIff(rubric: EvaluationRubric)
    ensures (exists p :: Score(rubric, p) == Success(true))
            <==> rubric.passingScoreThreshold <= |CumulativeMetrics(rubric.metrics)|
  {
    var ms := rubric.metrics;
    var cumulative := CumulativeMetrics(ms);
    if rubric.passingScoreThreshold <= |cumulative| {
      var e := AllTrue(ms);
      FilterKeepsAll(HoldsIn(e), cumulative);
      ScoreChecks(rubric, Object(e));
      assert CumulativePassed(ms, e) == |cumulative|;
      assert Score(rubric, Object(e)) == Success(true);
    } else {
      forall p | Score(rubric, p).Success? ensures Score(rubric, p) == Success(false) {
        assert CumulativePassed(ms, p.entries) <= |cumulative|;
      }
    }
  }
}
