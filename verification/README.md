# teval rubric scoring, modelled in Dafny

This project models the core of `teval`, a library for judging outputs against
yes/no rubrics. A rubric is an ordered list of metrics. Each metric has an id,
the criterion text and a `mandatory` flag. The rubric also has a
`passing_score_threshold`: how many of the non-mandatory ("cumulative")
metrics must be judged true. The model covers:

- building a rubric, with its two validators: no repeated metric id, and a
  threshold that the cumulative metrics can reach (module `Rubrics`);
- the `mandatory_metrics` / `cumulative_metrics` views (module `Rubrics`);
- `validate_result`: the presence check, the boolean check, the mandatory gate
  and the cumulative count (module `Scoring`);
- the `passes`, `get_failed_metrics` and `get_passed_metrics` helpers of the
  generated result model (module `Carriers`);
- `calculate_alignment`, the agreement rate between two judges (module `Alignment`);
- the decisions inside `generate_report`: which sections appear, which metrics
  they mark as failed, and the "need N more" count (module `Reports`);
- the older `tevak` package's rubric validators (module `Tevak`);
- the worked examples of the module docstring and of the `calculate_alignment`
  docstring (module `Scenarios`).

`Seqs` holds the order-preserving `Filter` that models the Python list
comprehensions, together with its lemmas. `Results` holds `Option` and `Result`.

Each operation that raises in Python returns a `Result` here. The error
datatypes (`ConfigError`, `ScoreError`, `AlignmentError`, `TevakError`) carry
the data that the Python message shows.

Building a rubric returns every error that pydantic collects, in field order.
When the metric-list validator fails, pydantic leaves `metrics` out of the data
that the threshold validator sees, so that validator counts zero metrics. A
negative threshold is stopped by the field's `ge=0` bound, and the threshold
validator does not run for it.

`validate_result` is modelled twice:

- `Score` is the reference function;
- `ValidateResult` is a method with the Python code's loops, proved equal to `Score`.

`calculate_alignment` is modelled the same way, by `AlignmentScore` and
`CalculateAlignment`.

Two facts about the code shape the model:

- `validate_result` reports one flat list of missing ids, in rubric order
  (teval/metrics.py:548-554), and so does `Scoring.MissingIds`.
- The code checks no id syntax, id length, reserved names, list emptiness or
  size caps, so the model accepts any string id and any metric list, including
  an empty one.

The `calculate_alignment` docstring gives a single-pair example: a human
(M1 true, C1 true) against a judge (M1 true, C1 false), threshold 1, printed as
100% (teval/metrics.py:765-778). Under the code the judge falls short of the
threshold, so the two outcomes differ and the score is 0.0. This is stated by
`Scenarios.PairSingleExample`. The batch example's 50% agrees with the code
(`Scenarios.PairBatchExample`).

## Model

| member | source | states |
|---|---|---|
| Rubrics.MandatoryMetrics | teval/metrics.py:99-127 | every returned metric is mandatory and comes from the list; every mandatory metric of the list is returned |
| Rubrics.CumulativeMetrics | teval/metrics.py:130-160 | every returned metric is non-mandatory and comes from the list; every non-mandatory metric is returned |
| Rubrics.SplitCharacterisation | teval/metrics.py:127-160 | the list is an order-preserving merge of the two views, and they are the only all-mandatory / all-cumulative pair that merges back into it |
| Rubrics.SplitSizes | teval/metrics.py:193-195 | the mandatory count plus the cumulative count is the number of metrics |
| Rubrics.DuplicateIdsIff | teval/metrics.py:234-236 | the test "fewer distinct ids than ids" holds exactly when two positions share an id |
| Rubrics.ConstructionErrors | teval/metrics.py:162-237 | the error list is empty exactly when ids are unique and 0 <= threshold <= cumulative count |
| Rubrics.Construct | teval/metrics.py:96-237 | construction succeeds exactly for unique ids and a reachable non-negative threshold, and returns a valid rubric; a repeated id is reported first; a negative threshold is reported last; an unreachable threshold alone reports the threshold and both counts |
| Scoring.MissingIds | teval/metrics.py:547-554 | the reported ids are exactly the metric ids absent from the judgment, in rubric order: merged in order with the present ids they give the id list back |
| Scoring.FirstNonBoolean | teval/metrics.py:556-560 | it finds the first metric, in rubric order, whose value is not a boolean, and finds none exactly when all values are booleans |
| Scoring.CumulativePassed | teval/metrics.py:568 | the passed count never exceeds the number of cumulative metrics |
| Scoring.Score | teval/metrics.py:486-572 | a non-object fails as not-a-mapping; a judgment failing a mandatory metric never passes |
| Scoring.ScoreChecks | teval/metrics.py:547-560 | the missing-ids error occurs exactly when an id is absent and lists at least one id; a type error names a metric whose value is not a boolean; scoring succeeds exactly for an object with a boolean for every metric |
| Scoring.ValidateResult | teval/metrics.py:486-572 | the Python loops compute the reference outcome `Score` |
| Scoring.CollectMissing | teval/metrics.py:547-551 | the presence loop collects exactly the absent ids, in order |
| Scoring.FindNonBoolean | teval/metrics.py:556-560 | the type loop stops at the first non-boolean metric |
| Scoring.CheckMandatory | teval/metrics.py:562-565 | the mandatory loop answers true exactly when every mandatory metric is judged true |
| Scoring.CountCumulativePassed | teval/metrics.py:567-570 | the counting loop counts the cumulative metrics judged true |
| Scoring.ExtraKeysIgnored | teval/metrics.py:527-530 | two judgments that agree on every metric id score the same, whatever other keys they hold |
| Scoring.PassIsMonotone | teval/metrics.py:562-572 | turning judged values from false to true never turns a pass into a fail |
| Scoring.PassableIff | teval/metrics.py:193-203 | some judgment passes exactly when the threshold is at most the number of cumulative metrics |
| Carriers.Passes | teval/metrics.py:450-453 | on an instance whose metric fields all hold booleans, `passes` does not raise and returns the `validate_result` outcome of its dictionary |
| Carriers.PassRule | teval/metrics.py:562-572 | an instance passes exactly when every mandatory metric is true and the number of true cumulative metrics, counted one metric at a time, reaches the threshold |
| Carriers.CumulativeCountsAgree | teval/metrics.py:568 | counting true cumulative metrics one at a time gives the filtered count `validate_result` uses |
| Carriers.FailedMetrics | teval/metrics.py:455-457 | the failed list holds exactly the metric ids judged false |
| Carriers.PassedMetrics | teval/metrics.py:459-461 | the passed list holds exactly the metric ids judged true |
| Carriers.FailedPassedPartition | teval/metrics.py:455-461 | the failed and passed lists merge, in order, back into the id list, and their lengths add up to the metric count |
| Carriers.FailedMandatoryVetoes | teval/metrics.py:562-565 | a mandatory id in the failed list means the instance does not pass |
| Carriers.NothingFailedPasses | teval/metrics.py:562-572 | with a reachable threshold, an instance with no failed metric passes |
| Alignment.AgreementCount | teval/metrics.py:838-846 | the agreement count is at most the length; it equals the length exactly when all outcomes agree, and is zero exactly when none agree |
| Alignment.AgreementCountSymmetric | teval/metrics.py:845 | the agreement count does not depend on argument order |
| Alignment.AlignmentScore | teval/metrics.py:804-848 | a single instance paired with a list is a kind error; unequal lengths are a length error with both lengths; two empty lists score 1.0; every score lies in [0, 1] |
| Alignment.AlignmentExtremes | teval/metrics.py:804-848 | two arguments of the same kind and length are scored, and the score is 1.0 exactly when all outcomes agree, and 0.0 exactly when the lists are non-empty and no outcome agrees |
| Alignment.CalculateAlignment | teval/metrics.py:804-848 | the Python checks and counting loop compute the reference score |
| Alignment.CountAligned | teval/metrics.py:838-846 | the counting loop counts the agreeing positions |
| Alignment.AlignmentSymmetric | teval/metrics.py:804-848 | swapping the judges keeps the score, and swaps the two lengths in a length error |
| Alignment.SingleAlignment | teval/metrics.py:812-848 | two single instances score 1.0 when their outcomes agree and 0.0 otherwise |
| Reports.FailedIds | teval/metrics.py:651-659 | the failure warning lists no id exactly when every line passed |
| Reports.FailedIdsAreFailures | teval/metrics.py:651-670 | the ids in a failure warning are exactly the ids of the metrics not judged true, in rubric order |
| Reports.ReportOutline | teval/metrics.py:633-722 | scoring errors propagate unchanged; the overall result is the scoring outcome; each section appears exactly when the rubric has metrics of its kind; the mandatory warning lists exactly the mandatory ids not judged true, in order; the cumulative score is out of the cumulative count; the shortfall warning appears exactly when the true-cumulative count is below the threshold, and names the difference |
| Reports.MandatoryLinesIff | teval/metrics.py:648-665 | every mandatory line is marked passed exactly when the mandatory gate holds |
| Reports.WarningsExplainFailure | teval/metrics.py:641-699 | with a reachable threshold, a report says PASS exactly when it shows neither warning |
| Tevak.ValidationErrors | tevak/metrics.py:38-63 | the error list is empty exactly when ids are unique and 0 <= threshold <= cumulative count |
| Tevak.Construct | tevak/metrics.py:18-63 | construction succeeds exactly for unique ids and a reachable non-negative threshold; a repeated id is reported first; an unreachable threshold alone reports the threshold and the cumulative count |
| Tevak.AgreesWithTeval | tevak/metrics.py:38-63 | both packages accept the same rubrics, and report the same errors in the same order apart from the threshold message's counts |
| Tevak.OnlyMandatoryAccepted | tests/test_metrics.py:144-156 | an all-mandatory rubric with unique ids is accepted with threshold 0, and its views are the whole list and the empty list |
| Scenarios.CodeReviewMandatory | teval/metrics.py:26-44 | the docstring rubric's mandatory view is [M1] |
| Scenarios.CodeReviewCumulative | teval/metrics.py:26-44 | the docstring rubric's cumulative view is [C1, C2] |
| Scenarios.CodeReviewIds | teval/metrics.py:26-44 | the docstring rubric's ids are M1, C1, C2 |
| Scenarios.CodeReviewConstruction | teval/metrics.py:26-44 | the docstring rubric builds; threshold 3 is refused with counts 1 and 2; a repeated M1 is refused as a duplicate |
| Scenarios.CodeReviewAllPresent | teval/metrics.py:547-551 | a judgment holding M1, C1 and C2 misses no id |
| Scenarios.CodeReviewPass | teval/metrics.py:47-49 | M1 true, C1 true, C2 false passes |
| Scenarios.CodeReviewMandatoryFail | teval/metrics.py:562-565 | M1 false fails whatever the cumulative values |
| Scenarios.CodeReviewShortfall | teval/metrics.py:567-570 | no cumulative metric true fails with threshold 1 |
| Scenarios.CodeReviewMissing | teval/metrics.py:547-554 | a judgment without C1 is refused, naming C1 |
| Scenarios.CodeReviewNotBoolean | teval/metrics.py:556-560 | the first non-boolean value, C1, is reported with its type name |
| Scenarios.PairOutcomes | teval/metrics.py:765-775 | under the docstring's rubric (M1 mandatory, C1 cumulative, threshold 1), an instance passes exactly when M1 and C1 are both true |
| Scenarios.PairSingleExample | teval/metrics.py:773-778 | the docstring's single pair scores 0.0 under the code |
| Scenarios.PairBatchExample | teval/metrics.py:780-786 | the docstring's two batches score 0.5 |

## Left out

- JSON decoding in `validate_result` (`json.loads` and its error) is left out. A judgment arrives already decoded as `Payload`, and a decoded value is a boolean or a value named by its type.
- `to_prompt_text`, `to_json_schema` and the markdown text of `generate_report` are not modelled: they only format text. Reasoning strings appear only in that text. `Reports` keeps the decisions the text is built from.
- The class generation in `to_pydantic_model` and `to_report` are not modelled. A model instance is a rubric with a map from metric id to boolean (`Carriers.Conforms`).
- Pydantic's `extra="forbid"`, its lax coercion of values such as `"true"` into booleans, and its missing-field errors for metric records are not modelled. Every record here is well typed.
- `Carriers.Passes`: field-name collisions in the generated class are not modelled. A metric id `X_reasoning` listed before a metric `X` makes the reasoning field of `X` replace the boolean field (teval/metrics.py:433-444), so `passes` can raise in Python. Here every metric field holds a boolean.
- `calculate_alignment`'s TypeErrors for a non-list argument, for a list element that is not a model instance, and for an instance without `passes` are ruled out by the argument types.
- Floating-point rounding of the alignment ratio is not modelled: the ratio is an exact real.
- `Scoring.Score`: its contract states only the not-a-mapping case and the mandatory veto. The other error cases are stated in `Scoring.ScoreChecks`. The pass rule is `Score`'s defining body; `Carriers.PassRule` states it against an independent count.
- `Reports.ReportOutline`: its contract does not state the title or the per-line marks; those are the definitions of `Reports.ReportTitle` and `Reports.Lines`. The "Requirements for Passing" summary repeats the same facts and is not modelled separately.
- `Tevak.AgreesWithTeval` is a consequence of the two construction functions' definitions. It holds without a separate proof.
- The example scripts, the HTML documentation generator and the integration tests are not part of this model.
