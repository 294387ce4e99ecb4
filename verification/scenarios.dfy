/** Worked scenarios from the docstrings and tests of `teval` and `tevak`, checked against the model. */
module Scenarios {
  import opened Results
  import opened Seqs
  import opened Rubrics
  import opened Scoring
  import opened Carriers
  import opened Alignment

  const M1 := MetricDefinition("M1", "Code compiles without errors", true)
  const C1 := MetricDefinition("C1", "Code follows style guidelines")
  const C2 := MetricDefinition("C2", "Code includes appropriate comments")

  /** The module docstring's rubric: one mandatory and two cumulative metrics, one of which must pass. */
  const CodeReview := EvaluationRubric("code_review_v1", [M1, C1, C2], 1)

  /** The mandatory view of the docstring's metric list. */
  lemma CodeReviewMandatory()
    ensures MandatoryMetrics([M1, C1, C2]) == [M1]
  {
    FilterCons(IsMandatory, C2, []);
    FilterCons(IsMandatory, C1, [C2]);
    FilterCons(IsMandatory, M1, [C1, C2]);
  }

  /** The cumulative view of the docstring's metric list. */
  lemma CodeReviewCumulative()
    ensures CumulativeMetrics([M1, C1, C2]) == [C1, C2]
  {
    FilterCons(IsCumulative, C2, []);
    FilterCons(IsCumulative, C1, [C2]);
    FilterCons(IsCumulative, M1, [C1, C2]);
  }

  /** The ids of the docstring's metric list. */
  lemma CodeReviewIds()
    ensures Ids([M1, C1, C2]) == ["M1", "C1", "C2"]
  {
    var ids := Ids([M1, C1, C2]);
    assert ids[0] == "M1" && ids[1] == "C1" && ids[2] == "C2";
  }

  /** Threshold 1 is accepted, a threshold above the two cumulative metrics is refused with both counts, a repeated id is refused. */
  lemma CodeReviewConstruction()
    ensures Construct("code_review_v1", [M1, C1, C2], 1) == Success(CodeReview)
    ensures Construct("code_review_v1", [M1, C1, C2], 3) == Failure([ThresholdTooHigh(3, 1, 2)])
    ensures Construct("code_review_v1", [M1, M1], 0) == Failure([DuplicateMetricIds])
  {
    CodeReviewMandatory();
    CodeReviewCumulative();
    assert SharesId([M1, M1]) by {
      assert [M1, M1][0].id == [M1, M1][1].id;
    }
    DuplicateIdsIff([M1, M1]);
    assert ConstructionErrors([M1, M1], 0) == [DuplicateMetricIds];
  }

  /** A judgment holding all three ids misses none of them. */
  lemma CodeReviewAllPresent(e: map<string, Value>)
    requires "M1" in e && "C1" in e && "C2" in e
    ensures MissingIds([M1, C1, C2], e) == []
  {
    CodeReviewIds();
    FilterCons(AbsentFrom(e), "C2", []);
    FilterCons(AbsentFrom(e), "C1", ["C2"]);
    FilterCons(AbsentFrom(e), "M1", ["C1", "C2"]);
  }

  /** Mandatory passed and one cumulative passed: pass. */
  lemma CodeReviewPass()
    ensures Score(CodeReview, Object(map["M1" := Bool(true), "C1" := Bool(true), "C2" := Bool(false)])) == Success(true)
  {
    var e := map["M1" := Bool(true), "C1" := Bool(true), "C2" := Bool(false)];
    CodeReviewAllPresent(e);
    CodeReviewMandatory();
    CodeReviewCumulative();
    FilterCons(HoldsIn(e), C2, []);
    FilterCons(HoldsIn(e), C1, [C2]);
  }

  /** The mandatory metric failed: fail, whatever the cumulative values. */
  lemma CodeReviewMandatoryFail()
    ensures Score(CodeReview, Object(map["M1" := Bool(false), "C1" := Bool(true), "C2" := Bool(true)])) == Success(false)
  {
    var e := map["M1" := Bool(false), "C1" := Bool(true), "C2" := Bool(true)];
    CodeReviewAllPresent(e);
    assert [M1, C1, C2][0] == M1;
    assert !MandatoryGate([M1, C1, C2], e);
  }

  /** No cumulative metric passed, one required: fail. */
  lemma CodeReviewShortfall()
    ensures Score(CodeReview, Object(map["M1" := Bool(true), "C1" := Bool(false), "C2" := Bool(false)])) == Success(false)
  {
    var e := map["M1" := Bool(true), "C1" := Bool(false), "C2" := Bool(false)];
    CodeReviewAllPresent(e);
    CodeReviewCumulative();
    FilterCons(HoldsIn(e), C2, []);
    FilterCons(HoldsIn(e), C1, [C2]);
    assert CumulativePassed(CodeReview.metrics, e) == 0;
  }

  /** A missing id is reported by name. */
  lemma CodeReviewMissing()
    ensures Score(CodeReview, Object(map["M1" := Bool(true), "C2" := Bool(false)])) == Failure(MissingMetrics(["C1"]))
  {
    var e := map["M1" := Bool(true), "C2" := Bool(false)];
    CodeReviewIds();
    FilterCons(AbsentFrom(e), "C2", []);
    FilterCons(AbsentFrom(e), "C1", ["C2"]);
    FilterCons(AbsentFrom(e), "M1", ["C1", "C2"]);
    assert MissingIds(CodeReview.metrics, e) == ["C1"];
  }

  /** A non-boolean value is reported at the first such metric, with its type. */
  lemma CodeReviewNotBoolean()
    ensures Score(CodeReview, Object(map["M1" := Bool(true), "C1" := Other("int"), "C2" := Other("str")]))
            == Failure(NotBoolean("C1", "int"))
  {
    var e := map["M1" := Bool(true), "C1" := Other("int"), "C2" := Other("str")];
    var ms := [M1, C1, C2];
    CodeReviewAllPresent(e);
    assert ms[1..] == [C1, C2];
    assert FirstNonBoolean(ms[1..], e) == Some(0);
    assert FirstNonBoolean(ms, e) == Some(1);
  }

  /** The rubric of `calculate_alignment`'s docstring: one mandatory and one cumulative metric, threshold 1. */
  const PairRubric := EvaluationRubric("test", [MetricDefinition("M1", "Must pass", true), MetricDefinition("C1", "Optional")], 1)

  /** An instance of the docstring's result model, by its M1 and C1 values. */
  function Judged(m1: bool, c1: bool): Evaluated {
    Evaluated(PairRubric, map["M1" := m1, "C1" := c1])
  }

  /** Only the instance with both metrics true passes; every other combination fails. */
  lemma PairOutcomes(m1: bool, c1: bool)
    ensures WellFormed(Judged(m1, c1))
    ensures Outcome(Judged(m1, c1)) <==> m1 && c1
  {
    var e := Judged(m1, c1);
    assert Conforms(e.rubric, e.values);
    PassRule(e.rubric, e.values);
    var ms := PairRubric.metrics;
    assert ms[1..][1..] == [];
    assert CumulativeTrueCount(ms, e.values) == (if c1 then 1 else 0);
  }

  /**
   The single comparison of the docstring, human (true, true) against judge (true, false):
   the human passes and the judge falls short of the threshold, so the score is 0.0
   (the docstring prints 100%).
   */
  lemma PairSingleExample()
    ensures AlignmentScore(Single(Judged(true, true)), Single(Judged(true, false))) == Success(0.0)
  {
    PairOutcomes(true, true);
    PairOutcomes(true, false);
    SingleAlignment(Judged(true, true), Judged(true, false));
  }

  /** The outcomes of a list of two instances. */
  lemma OutcomesOfTwo(x: Evaluated, y: Evaluated)
    requires WellFormed(x) && WellFormed(y)
    ensures forall i :: 0 <= i < 2 ==> WellFormed([x, y][i])
    ensures Outcomes([x, y]) == [Outcome(x), Outcome(y)]
  {
  }

  /** A score of two equal-length non-empty batches is their agreement count over their length. */
  lemma BatchScore(xs: seq<Evaluated>, ys: seq<Evaluated>)
    requires forall i :: 0 <= i < |xs| ==> WellFormed(xs[i])
    requires forall i :: 0 <= i < |ys| ==> WellFormed(ys[i])
    requires 0 < |xs| == |ys|
    ensures AllWellFormed(Batch(xs)) && AllWellFormed(Batch(ys))
    ensures AlignmentScore(Batch(xs), Batch(ys)) == Success(AgreementCount(Outcomes(xs), Outcomes(ys)) as real / |xs| as real)
  {
  }

  /** The docstring's batches: humans (true, true), (false, false); judges (true, false), (false, true). */
  const Humans := [Judged(true, true), Judged(false, false)]
  const Judges := [Judged(true, false), Judged(false, true)]

  /** The humans pass then fail. */
  lemma HumansOutcomes()
    ensures forall i :: 0 <= i < |Humans| ==> WellFormed(Humans[i])
    ensures Outcomes(Humans) == [true, false]
  {
    PairOutcomes(true, true);
    PairOutcomes(false, false);
    OutcomesOfTwo(Judged(true, true), Judged(false, false));
  }

  /** The judges fail both times. */
  lemma JudgesOutcomes()
    ensures forall i :: 0 <= i < |Judges| ==> WellFormed(Judges[i])
    ensures Outcomes(Judges) == [false, false]
  {
    PairOutcomes(true, false);
    PairOutcomes(false, true);
    OutcomesOfTwo(Judged(true, false), Judged(false, true));
  }

  /** Of the two pairs only the second agrees. */
  lemma BatchAgreement()
    ensures AgreementCount([true, false], [false, false]) == 1
  {
    assert [true, false][..1] == [true] && [false, false][..1] == [false];
  }

  /** The batch comparison of the docstring: the second pair agrees (both fail), the first does not, so 0.5. */
  lemma PairBatchExample()
    ensures AllWellFormed(Batch(Humans)) && AllWellFormed(Batch(Judges))
    ensures AlignmentScore(Batch(Humans), Batch(Judges)) == Success(0.5)
  {
    HumansOutcomes();
    JudgesOutcomes();
    BatchAgreement();
    var c := AgreementCount(Outcomes(Humans), Outcomes(Judges));
    assert c == 1;
    assert |Humans| == 2;
    assert c as real / |Humans| as real == 0.5;
    BatchScore(Humans, Judges);
  }
}
