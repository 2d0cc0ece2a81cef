# Decision-intelligence dashboard: policy and governance evaluator

This project models the computational core of the executive dashboard in
`dashboard/app.py`. The dashboard reads two tables: per-customer default
probabilities (`decision_df`) and per-customer approval flags (`fairness_df`).
On each evaluation it does five things:

- it classifies every customer as Auto-Approve, Manual Review or Reject from two
  thresholds, and counts the three outcomes (section A);
- it finds the reason-code columns and explains one selected customer (section C);
- it finds the protected-attribute columns (SEX, AGE_GROUP, EDUCATION);
- it computes the approval rate of each group of the selected attribute, and the
  disparate-impact ratio of the smallest to the largest rate;
- it judges that ratio by the 80% rule and derives a governance recommendation
  (section D).

The source has no loops. Its one write, the derived column at
`dashboard/app.py:91`, goes into a fresh copy of the loaded table, and every
other computation is a pandas expression. So every part is modelled as a pure
function over sequences and maps, with real numbers for probabilities and rates:

- `policy.dfy` (module `Policy`): the three-way classifier `apply_policy`. The two
  thresholds, globals set by sliders in the source, are parameters here.
- `outcomes.dfy` (module `Outcomes`): the derived `policy_decision` column, the
  `value_counts` tally and the three metrics, where an absent label counts as 0.
- `schema.dfy` (module `Schema`): how columns are picked by name. A reason-code
  column has "reason" in its lower-cased name. A protected attribute is exactly
  SEX, AGE_GROUP or EDUCATION. Both lists keep the table's column order.
- `reason_codes.dfy` (module `ReasonCodes`): the explanation of one row.
- `fairness.dfy` (module `Fairness`): the group-by with per-group means, the
  minimum, maximum and disparate impact, and the whole of section D.
- `governance.dfy` (module `Governance`): the 80% rule and `governance_action`.
- `dashboard.dfy` (module `Dashboard`): one evaluation of the page. Two inputs
  stop it. A missing `prob_default` column stops it in section A. A decision table
  with reason-code columns but no rows stops it in section C, because the
  row-index input then has the empty range 0 .. -1. Otherwise it holds the outputs
  of sections A, C and D.
- `tables.dfy` and `wrappers.dfy`: the tables as values (column list plus one
  map per row), and Option/Result.

Three points of the code's behaviour are worth stating outright:

- The approve test runs first (`dashboard/app.py:75`). So when the two thresholds
  are equal, a probability equal to them is approved, not rejected.
  `Policy.BoundaryTies` states this.
- With no reason-code columns, section C only shows a warning
  (`dashboard/app.py:124-128`) and gives no explanation. `ReasonCodes.Explain`
  returns `Err(NoReasonColumns)` in that case.
- `Policy.Monotone` holds for every pair of thresholds, inverted ones included.

## Model

| member | source | states |
|---|---|---|
| `Policy.ApplyPolicy` | dashboard/app.py:74-79 | Total with one of three labels: Auto-Approve exactly when prob <= approve threshold; Reject exactly when above it and >= reject threshold; Manual Review exactly when strictly between the two |
| `Policy.LabelsDistinct` | dashboard/app.py:76-79 | The three labels are distinct strings, so a label identifies its decision |
| `Policy.ApproveWinsOverlap` | dashboard/app.py:74-79 | A probability that meets both tests is approved, because the approve test runs first |
| `Policy.InvertedThresholdsNeverReview` | dashboard/app.py:74-79 | When approve threshold >= reject threshold, no probability gets Manual Review |
| `Policy.Monotone` | dashboard/app.py:74-79 | A higher probability never gets a less restrictive decision (Auto-Approve < Manual Review < Reject), for any thresholds |
| `Policy.BoundaryTies` | dashboard/app.py:74-79 | For approve threshold <= reject threshold, both threshold values are inclusive: the approve threshold is approved, and the reject threshold is rejected unless the two thresholds are equal, in which case it is approved |
| `Outcomes.DecisionColumn` | dashboard/app.py:90-91 | The derived column has one entry per row, and entry i is the policy applied to row i's probability |
| `Outcomes.Occurrences` | dashboard/app.py:93 | The count of a label is at most the column length, and is 0 exactly when the label is absent |
| `Outcomes.ValueCounts` | dashboard/app.py:93 | The tally has a key for exactly the labels that occur, each mapped to its positive number of occurrences |
| `Outcomes.Summarize` | dashboard/app.py:93-98 | The three metrics are the occurrence counts of their labels, 0 for absent labels, and sum to the number of rows |
| `Outcomes.OccurrencesPartition` | dashboard/app.py:93-98 | The three label counts of any column sum to its length |
| `Outcomes.OccurrencesIsMultiplicity` | dashboard/app.py:93 | A label's count is its multiplicity in the multiset of the column |
| `Outcomes.PermutationSameTally` | dashboard/app.py:93-98 | Reordering the rows does not change the metrics |
| `Outcomes.ApprovedCount` | dashboard/app.py:90-96 | The Auto-Approve count is the number of probabilities at or below the approve threshold |
| `Outcomes.InvertedNoManualReview` | dashboard/app.py:90-97 | With inverted thresholds the Manual Review metric is 0 |
| `Outcomes.ThreeRowScenario` | dashboard/app.py:90-98 | Probabilities 0.10, 0.35, 0.70 with thresholds 0.20 and 0.60 give Auto-Approve, Manual Review, Reject and one of each |
| `Schema.ContainsIffOccurs` | dashboard/app.py:122 | The substring test holds exactly when the pattern occurs at some position of the name |
| `Schema.Filter` | dashboard/app.py:122 | A comprehension with a condition keeps the names that satisfy it, in order (a subsequence), each as often as in the input, and nothing else |
| `Schema.ReasonColumns` | dashboard/app.py:122 | The reason-code columns are exactly the columns whose lower-cased name contains "reason", in column order |
| `Schema.ProtectedAttributes` | dashboard/app.py:158 | The protected attributes are exactly the columns named SEX, AGE_GROUP or EDUCATION, in column order |
| `Schema.ReasonDetectionExamples` | dashboard/app.py:122 | Detection ignores case and finds "reason" anywhere: "top_REASON_1" and "Reason" are reason-code columns |
| `Schema.DerivedColumnIsNotReason` | dashboard/app.py:122 | The derived column name "policy_decision" is never a reason-code column |
| `ReasonCodes.DashColumns` | dashboard/app.py:90-91 | After the derived column is assigned, the columns are the original ones plus "policy_decision" |
| `ReasonCodes.DashColumnsSameReasons` | dashboard/app.py:122 | The reason-code columns of the copy with the derived column equal those of the loaded table |
| `ReasonCodes.Explain` | dashboard/app.py:122-146 | No explanation without reason-code columns or outside 0 .. rows-1; otherwise the row's probability, the entry of the derived column (the policy applied to that probability), and a map whose keys are exactly the reason-code columns, holding that row's values |
| `ReasonCodes.NoReasonColumnsScenario` | dashboard/app.py:124-128 | A table with only prob_default yields the no-reason-columns warning, not an explanation |
| `Fairness.GroupBy` | dashboard/app.py:165-168 | Grouping gives one accumulator per distinct group value and no empty group; each holds exactly its group's row count and flag sum |
| `Fairness.GroupMeans` | dashboard/app.py:165-170 | One summary row per distinct group value, no value twice, and each approval rate is the mean flag of its group |
| `Fairness.GroupSumBounds` | dashboard/app.py:165-168 | With 0/1 flags a group's flag sum lies between 0 and the group's size |
| `Fairness.RatesInUnitInterval` | dashboard/app.py:165-170 | With 0/1 flags every approval rate lies in [0, 1] |
| `Fairness.MinRate` | dashboard/app.py:172 | The minimum is a rate no greater than any rate; there is none for an empty summary |
| `Fairness.MaxRate` | dashboard/app.py:173 | The maximum is a rate no smaller than any rate; there is none for an empty summary |
| `Fairness.DisparateImpact` | dashboard/app.py:172-174 | The ratio is the smallest rate divided by the largest when the largest is positive. It is 0 when no rate is positive (the division-by-zero fallback, also for no groups); for non-negative rates it lies in [0, 1] and is 0 exactly when there are no groups or some group has rate 0 |
| `Fairness.DisparateImpactOne` | dashboard/app.py:172-174 | For non-negative rates the ratio is 1 exactly when all rates are equal and positive |
| `Fairness.DisparateImpactIsWorstRatio` | dashboard/app.py:172-174 | For non-negative rates the ratio is at most the ratio of any group's rate to any positive group rate |
| `Fairness.FairnessSection` | dashboard/app.py:155-195 | Section D is skipped with a warning exactly when approved_flag is missing, or when no protected attribute exists. Otherwise the report holds: the group means of the selected column, one per distinct value; the minimum and maximum of their rates; the disparate impact of those rates, in [0, 1] for 0/1 flags; the 80% rule verdict and the governance action of that ratio, where FAIL occurs exactly when some action is recommended |
| `Fairness.TwoGroupScenario` | dashboard/app.py:172-193 | Rates 0.9 and 0.5 give ratio 5/9, a FAIL, and the recommendation to disable auto-approval |
| `Governance.EightyPercentRule` | dashboard/app.py:183-186 | The rule passes exactly when the ratio is at least 0.8 |
| `Governance.GovernanceAction` | dashboard/app.py:188-193 | Three bands, each closed at its lower edge: >= 0.8 no action; [0.6, 0.8) increase manual review; < 0.6 disable auto-approval |
| `Governance.ActionTextsDistinct` | dashboard/app.py:188-193 | The three recommendation texts are distinct |
| `Governance.FailIffActionRequired` | dashboard/app.py:183-193 | The 80% rule fails exactly when the action is not "No action required" |
| `Governance.ActionAntitone` | dashboard/app.py:188-193 | A lower ratio never gets a weaker recommendation |
| `Governance.BandEdges` | dashboard/app.py:183-193 | 0.8 needs no action and passes; 0.6 increases manual review; 0.59999 disables auto-approval |
| `Dashboard.Evaluate` | dashboard/app.py:86-195 | The page stops when prob_default is missing, and when reason-code columns exist but there are no rows (the row-index input fails). Otherwise: decision i is the policy applied to row i; the metrics are the label counts of the decision column and sum to the row count; Auto-Approve counts the rows at or below the approve threshold, and Manual Review is 0 under inverted thresholds; the explanation and the fairness report are those of sections C and D |

## Left out

- All rendering, which only displays values the model computes: page setup, titles, sliders, selector, number input, metrics, tables, JSON, messages and the footer (`dashboard/app.py:9-15`, `50-69`, `95-104`, `139-148`, `176-186`, `195-204`).
- File checks, `st.stop` after a missing file, and CSV loading with caching (`dashboard/app.py:22-38`), which are I/O. Both tables are parameters, already loaded.
- The 30-bin histogram (`dashboard/app.py:111-115`), a plotting call.
- The `threshold` slider (`dashboard/app.py:52-55`): its value is never used.
- Floating point: probabilities, flags and rates are exact reals. Rounding, NaN probabilities or flags, and `:.3f` formatting are not covered. Missing (NaN) group values are not covered either: `groupby` drops those rows (`dashboard/app.py:165-167`), and a `Tables.Cell` cannot hold such a value. One NaN case is modelled: an empty fairness table gives no minimum or maximum, and the ratio is 0.
- Pandas ordering: `groupby` sorts its groups by value and `value_counts` sorts by count. The model lists groups in order of first appearance, and keeps counts in a map. The computed values do not depend on this order.
- A table is assumed rectangular, with unique column names, numeric `prob_default` cells and numeric `approved_flag` cells (booleans as 0/1). Non-numeric cells, which would make the comparisons raise, are not modelled.
- `Schema.ReasonColumns`: lower-casing covers ASCII letters only; Python's `str.lower` also maps other Unicode letters.
- `ReasonCodes.Explain`: the number input keeps the index in range. Taken alone, the lookup returns `IndexOutOfRange` for an index out of range, and for any index when the table has no rows. In the page, the no-rows case stops everything after section C, and `Dashboard.Evaluate` returns `EmptyRowIndexRange` for it.
- `Fairness.FairnessSection`: the selector offers only protected attributes. Another column name gives `NotOffered`.
