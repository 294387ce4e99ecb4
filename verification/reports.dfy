/**
 The decision content of `generate_report`: which sections appear, which criteria each
 lists as passed, and the "need N more" count. The markdown text itself is not modelled.
 */
module Reports {
  import opened Results
  import opened Seqs
  import opened Rubrics
  import opened Scoring

  /** One criterion line: its id and whether it is marked as passed. */
  datatype MetricLine = MetricLine(id: string, passed: bool)

  /** The mandatory section: one line per mandatory metric and the ids listed in its failure warning. */
  datatype MandatorySection = MandatorySection(lines: seq<MetricLine>, failed: seq<string>)

  /** The cumulative section: its lines, the "passed/total" score, the requirement, and the shortfall warning if any. */
  datatype CumulativeSection = CumulativeSection(
    lines: seq<MetricLine>,
    passed: nat,
    total: nat,
    required: int,
    stillNeeded: Option<nat>)

  /** The structure of a report. */
  datatype Outline = Outline(
    title: string,
    overallPass: bool,
    mandatory: Option<MandatorySection>,
    cumulative: Option<CumulativeSection>)

  /** A custom title when one is given and non-empty, otherwise one derived from the rubric id. */
  function ReportTitle(rubric: EvaluationRubric, title: Option<string>): string {
    if title.Some? && title.value != "" then title.value else "Evaluation Report: " + rubric.rubricId
  }

  /** One line per metric, marked passed when the judgment holds it true. */
  function Lines(ms: seq<MetricDefinition>, entries: map<string, Value>): (r: seq<MetricLine>)
    ensures |r| == |ms|
    ensures forall i :: 0 <= i < |ms| ==> r[i] == MetricLine(ms[i].id, HoldsIn(entries)(ms[i]))
  {
    seq(|ms|, i requires 0 <= i < |ms| => MetricLine(ms[i].id, HoldsIn(entries)(ms[i])))
  }

  /** The ids of the lines not marked passed, in order. */
  function FailedIds(lines: seq<MetricLine>): (r: seq<string>)
    ensures |r| <= |lines|
    ensures r == [] <==> forall i :: 0 <= i < |lines| ==> lines[i].passed
  {
    if |lines| == 0 then []
    else (if lines[0].passed then [] else [lines[0].id]) + FailedIds(lines[1..])
  }

  /** The metric is not judged true, so its line is marked failed. */
  function FailsIn(entries: map<string, Value>): MetricDefinition -> bool {
    (m: MetricDefinition) => !HoldsIn(entries)(m)
  }

  /** The ids a failure warning lists are exactly those of the metrics not judged true, in order. */
  lemma {:induction false} FailedIdsAreFailures(ms: seq<MetricDefinition>, entries: map<string, Value>)
    ensures FailedIds(Lines(ms, entries)) == Ids(Filter(FailsIn(entries), ms))
  {
    if |ms| > 0 {
      FailedIdsAreFailures(ms[1..], entries);
      FailedIdsStep(ms, entries);
      FailuresStep(ms, entries);
    }
  }

  /** The failure list of a report's lines, one line at a time. */
  lemma FailedIdsStep(ms: seq<MetricDefinition>, entries: map<string, Value>)
    requires |ms| > 0
    ensures FailedIds(Lines(ms, entries))
            == (if HoldsIn(entries)(ms[0]) then [] else [ms[0].id]) + FailedIds(Lines(ms[1..], entries))
  {
    var lines := Lines(ms, entries);
    assert lines[0] == MetricLine(ms[0].id, HoldsIn(entries)(ms[0]));
    assert lines[1..] == Lines(ms[1..], entries);
  }

  /** The ids of the failing metrics, one metric at a time. */
  lemma FailuresStep(ms: seq<MetricDefinition>, entries: map<string, Value>)
    requires |ms| > 0
    ensures Ids(Filter(FailsIn(entries), ms))
            == (if HoldsIn(entries)(ms[0]) then [] else [ms[0].id]) + Ids(Filter(FailsIn(entries), ms[1..]))
  {
    var x, tail := ms[0], ms[1..];
    var head := if FailsIn(entries)(x) then [x] else [];
    assert ms == [x] + tail;
    FilterCons(FailsIn(entries), x, tail);
    IdsAppend(head, Filter(FailsIn(entries), tail));
    assert Ids(head) == (if HoldsIn(entries)(x) then [] else [x.id]);
  }

  /** The shortfall warning: present exactly when fewer cumulative metrics passed than required. */
  function StillNeeded(passed: nat, required: int): Option<nat> {
    if passed < required then Some(required - passed) else None
  }

  /**
   `generate_report`, as structure. Scoring errors propagate; each section is present
   exactly when the rubric has metrics of its kind.
   */
  function ReportOutline(rubric: EvaluationRubric, entries: map<string, Value>, title: Option<string>)
    : (r: Result<Outline, ScoreError>)
    ensures r.Failure? <==> Score(rubric, Object(entries)).Failure?
    ensures r.Failure? ==> r.error == Score(rubric, Object(entries)).error
    ensures r.Success? ==> Score(rubric, Object(entries)) == Success(r.value.overallPass)
    ensures r.Success? ==> (r.value.mandatory.Some? <==> |MandatoryMetrics(rubric.metrics)| > 0)
    ensures r.Success? ==> (r.value.cumulative.Some? <==> |CumulativeMetrics(rubric.metrics)| > 0)
    ensures r.Success? && r.value.cumulative.Some? ==>
              r.value.cumulative.value.total == |CumulativeMetrics(rubric.metrics)|
              && r.value.cumulative.value.passed <= r.value.cumulative.value.total
    ensures r.Success? && r.value.mandatory.Some? ==>
              r.value.mandatory.value.failed == Ids(Filter(FailsIn(entries), MandatoryMetrics(rubric.metrics)))
    ensures r.Success? && r.value.cumulative.Some? ==>
              var section := r.value.cumulative.value;
              && (section.stillNeeded.None? <==> CumulativePassed(rubric.metrics, entries) >= rubric.passingScoreThreshold)
              && (section.stillNeeded.Some? ==>
                    CumulativePassed(rubric.metrics, entries) + section.stillNeeded.value == rubric.passingScoreThreshold)
  {
    match Score(rubric, Object(entries))
    case Failure(e) => Failure(e)
    case Success(overall) =>
      var mandatory := MandatoryMetrics(rubric.metrics);
      var cumulative := CumulativeMetrics(rubric.metrics);
      var mandatoryLines := Lines(mandatory, entries);
      var passed := CumulativePassed(rubric.metrics, entries);
      var threshold := rubric.passingScoreThreshold;
      FailedIdsAreFailures(mandatory, entries);
      Success(Outline(
        ReportTitle(rubric, title),
        overall,
        if |mandatory| > 0 then Some(MandatorySection(mandatoryLines, FailedIds(mandatoryLines))) else None,
        if |cumulative| > 0
        then Some(CumulativeSection(Lines(cumulative, entries), passed, |cumulative|, threshold, StillNeeded(passed, threshold)))
        else None))
  }

  /**
   On a rubric whose threshold is reachable, a report says PASS exactly when it shows
   neither a mandatory-failure warning nor a shortfall warning.
   */
  lemma WarningsExplainFailure(rubric: EvaluationRubric, entries: map<string, Value>, title: Option<string>)
    requires rubric.passingScoreThreshold <= |CumulativeMetrics(rubric.metrics)|
    requires ReportOutline(rubric, entries, title).Success?
    ensures var o := ReportOutline(rubric, entries, title).value;
            o.overallPass <==>
              && (o.mandatory.None? || o.mandatory.value.failed == [])
              && (o.cumulative.None? || o.cumulative.value.stillNeeded.None?)
  {
    var ms := rubric.metrics;
    MandatoryLinesIff(ms, entries);
    var o := ReportOutline(rubric, entries, title).value;
    assert o.overallPass == (MandatoryGate(ms, entries)
                            && CumulativePassed(ms, entries) >= rubric.passingScoreThreshold);
  }

  /** Every mandatory line is marked passed exactly when the mandatory gate holds. */
  lemma MandatoryLinesIff(ms: seq<MetricDefinition>, entries: map<string, Value>)
    ensures MandatoryGate(ms, entries) <==>
              forall i :: 0 <= i < |MandatoryMetrics(ms)| ==> Lines(MandatoryMetrics(ms), entries)[i].passed
  {
    var mandatory := MandatoryMetrics(ms);
    var lines := Lines(mandatory, entries);
    if MandatoryGate(ms, entries) {
      forall i | 0 <= i < |lines| ensures lines[i].passed {
        assert mandatory[i] in ms;
      }
    } else {
      var k :| 0 <= k < |ms| && ms[k].mandatory && !(ms[k].id in entries && entries[ms[k].id] == Bool(true));
      assert ms[k] in mandatory;
      var j :| 0 <= j < |mandatory| && mandatory[j] == ms[k];
      assert !lines[j].passed;
    }
  }
}
