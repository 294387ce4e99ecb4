/**
 Agreement between two judges (`calculate_alignment`): the fraction of paired result
 instances whose overall pass/fail outcomes are equal.
 */
module Alignment {
  import opened Results
  import opened Rubrics
  import opened Carriers

  /** A result-model instance: the rubric that generated its model, and its values. */
  datatype Evaluated = Evaluated(rubric: EvaluationRubric, values: map<string, bool>)

  /** One argument of `calculate_alignment`: a single instance or a list of them. */
  datatype Judgments = Single(item: Evaluated) | Batch(items: seq<Evaluated>)

  /** `calculate_alignment`'s TypeError for mixing a single instance with a list, and its ValueError for unequal lengths. */
  datatype AlignmentError = KindMismatch | LengthMismatch(lengthA: nat, lengthB: nat)

  predicate WellFormed(e: Evaluated) {
    Conforms(e.rubric, e.values)
  }

  /** The argument as a list: a single instance becomes a list of one. */
  function Items(j: Judgments): seq<Evaluated> {
    match j
    case Single(e) => [e]
    case Batch(es) => es
  }

  predicate AllWellFormed(j: Judgments) {
    forall i :: 0 <= i < |Items(j)| ==> WellFormed(Items(j)[i])
  }

  /** What `passes()` answers for one instance, evaluated with the instance's own rubric. */
  function Outcome(e: Evaluated): bool
    requires WellFormed(e)
  {
    Passes(e.rubric, e.values)
  }

  /** The outcome of every instance of a list, position by position. */
  function Outcomes(items: seq<Evaluated>): seq<bool>
    requires forall i :: 0 <= i < |items| ==> WellFormed(items[i])
  {
    seq(|items|, i requires 0 <= i < |items| => Outcome(items[i]))
  }

  /** How many positions carry equal outcomes. */
  function AgreementCount(xs: seq<bool>, ys: seq<bool>): (n: nat)
    requires |xs| == |ys|
    ensures n <= |xs|
    ensures n == |xs| <==> forall i :: 0 <= i < |xs| ==> xs[i] == ys[i]
    ensures n == 0 <==> forall i :: 0 <= i < |xs| ==> xs[i] != ys[i]
  {
    if |xs| == 0 then 0
    else
      var k := |xs| - 1;
      AgreementCount(xs[..k], ys[..k]) + (if xs[k] == ys[k] then 1 else 0)
  }

  /** The agreement count does not depend on which judge comes first. */
  lemma {:induction false} AgreementCountSymmetric(xs: seq<bool>, ys: seq<bool>)
    requires |xs| == |ys|
    ensures AgreementCount(xs, ys) == AgreementCount(ys, xs)
  {
    if |xs| > 0 {
      var k := |xs| - 1;
      AgreementCountSymmetric(xs[..k], ys[..k]);
    }
  }

  /** Facts about the fraction `c / n` of agreeing positions. */
  lemma RatioFacts(c: nat, n: nat)
    requires 0 < n && c <= n
    ensures 0.0 <= c as real / n as real <= 1.0
    ensures c as real / n as real == 1.0 <==> c == n
    ensures c as real / n as real == 0.0 <==> c == 0
  {
    var q := c as real / n as real;
    assert q * n as real == c as real;
  }

  /** `calculate_alignment`'s reference outcome. */
  function AlignmentScore(a: Judgments, b: Judgments): (r: Result<real, AlignmentError>)
    requires AllWellFormed(a) && AllWellFormed(b)
    ensures r == Failure(KindMismatch) <==> a.Single? != b.Single?
    ensures r.Failure? && r.error.LengthMismatch? <==> a.Single? == b.Single? && |Items(a)| != |Items(b)|
    ensures r.Failure? && r.error.LengthMismatch? ==> r.error == LengthMismatch(|Items(a)|, |Items(b)|)
    ensures a == Batch([]) && b == Batch([]) ==> r == Success(1.0)
    ensures r.Success? ==> 0.0 <= r.value <= 1.0
  {
    if a.Single? != b.Single? then Failure(KindMismatch)
    else
      var xs, ys := Items(a), Items(b);
      if |xs| != |ys| then Failure(LengthMismatch(|xs|, |ys|))
      else if |xs| == 0 then Success(1.0)
      else
        var c := AgreementCount(Outcomes(xs), Outcomes(ys));
        RatioFacts(c, |xs|);
        Success(c as real / |xs| as real)
  }

  /** A score of 1.0 means the two lists agree on every outcome; 0.0 means they agree on none. */
  lemma AlignmentExtremes(a: Judgments, b: Judgments)
    requires AllWellFormed(a) && AllWellFormed(b)
    requires a.Single? == b.Single? && |Items(a)| == |Items(b)|
    ensures AlignmentScore(a, b).Success?
    ensures var xs, ys := Outcomes(Items(a)), Outcomes(Items(b));
            AlignmentScore(a, b).value == 1.0 <==> forall i :: 0 <= i < |xs| ==> xs[i] == ys[i]
    ensures var xs, ys := Outcomes(Items(a)), Outcomes(Items(b));
            AlignmentScore(a, b).value == 0.0 <==> |xs| > 0 && forall i :: 0 <= i < |xs| ==> xs[i] != ys[i]
  {
    var xs, ys := Items(a), Items(b);
    if |xs| > 0 {
      RatioFacts(AgreementCount(Outcomes(xs), Outcomes(ys)), |xs|);
    }
  }

  /** `calculate_alignment`, with its early type and length checks. */
  method CalculateAlignment(a: Judgments, b: Judgments) returns (r: Result<real, AlignmentError>)
    requires AllWellFormed(a) && AllWellFormed(b)
    ensures r == AlignmentScore(a, b)
  {
    if a.Single? != b.Single? {
      return Failure(KindMismatch);
    }
    var xs, ys := Items(a), Items(b);
    if |xs| != |ys| {
      return Failure(LengthMismatch(|xs|, |ys|));
    }
    if |xs| == 0 {
      return Success(1.0);
    }
    var aligned := CountAligned(Outcomes(xs), Outcomes(ys));
    return Success(aligned as real / |xs| as real);
  }

  /** The counting loop over the two judges' `passes()` answers. */
  method CountAligned(xs: seq<bool>, ys: seq<bool>) returns (aligned: nat)
    requires |xs| == |ys|
    ensures aligned == AgreementCount(xs, ys)
  {
    aligned := 0;
    var i := 0;
    while i < |xs|
      invariant 0 <= i <= |xs|
      invariant aligned == AgreementCount(xs[..i], ys[..i])
    {
      assert xs[..i + 1][..i] == xs[..i] && ys[..i + 1][..i] == ys[..i];
      if xs[i] == ys[i] {
        aligned := aligned + 1;
      }
      i := i + 1;
    }
    assert xs[..|xs|] == xs && ys[..|ys|] == ys;
  }

  /** Swapping the two arguments keeps the score, and swaps the lengths in a length error. */
  function Swapped(r: Result<real, AlignmentError>): Result<real, AlignmentError> {
    match r
    case Failure(LengthMismatch(x, y)) => Failure(LengthMismatch(y, x))
    case _ => r
  }

  /** The score does not depend on which judge is passed first. */
  lemma AlignmentSymmetric(a: Judgments, b: Judgments)
    requires AllWellFormed(a) && AllWellFormed(b)
    ensures AlignmentScore(b, a) == Swapped(AlignmentScore(a, b))
  {
    if a.Single? == b.Single? && |Items(a)| == |Items(b)| && |Items(a)| > 0 {
      AgreementCountSymmetric(Outcomes(Items(a)), Outcomes(Items(b)));
    }
  }

  /** Two single instances align fully or not at all. */
  lemma SingleAlignment(x: Evaluated, y: Evaluated)
    requires WellFormed(x) && WellFormed(y)
    ensures AlignmentScore(Single(x), Single(y)) == Success(if Outcome(x) == Outcome(y) then 1.0 else 0.0)
  {
    assert AllWellFormed(Single(x)) && AllWellFormed(Single(y));
    assert Items(Single(x)) == [x] && Items(Single(y)) == [y];
  }
}
