/**
 * One evaluation of the whole dashboard for a given choice of thresholds, row index
 * and protected attribute. Two inputs stop the page. A decision table without
 * `prob_default` stops it after section A's heading. A table with reason-code
 * columns but no rows stops it in section C, where the row-index input's range is
 * empty (0 .. -1). Otherwise all sections are computed.
 */
module Dashboard {
  import opened Wrappers
  import opened Tables
  import opened Policy
  import opened Outcomes
  import opened ReasonCodes
  import opened Fairness
  import opened Schema

  datatype Fatal =
    | MissingProbDefault    // section A stops the page
    | EmptyRowIndexRange    // the row-index input of section C fails with no rows

  datatype View = View(
    decisions: seq<Decision>,
    tally: Tally,
    explanation: Result<Explanation, LookupError>,
    fairness: Result<FairnessReport, FairnessSkip>)

  function Evaluate(decisionTable: Table, fairnessTable: Table, autoApproveMax: real, autoRejectMin: real,
                    idx: int, groupCol: string): (res: Result<View, Fatal>)
    requires Rectangular(decisionTable)
    requires "prob_default" in decisionTable.columns ==> NumericColumn(decisionTable, "prob_default")
    requires Rectangular(fairnessTable)
    requires "approved_flag" in fairnessTable.columns ==> NumericColumn(fairnessTable, "approved_flag")
    ensures res == Err(MissingProbDefault) <==> "prob_default" !in decisionTable.columns
    ensures res == Err(EmptyRowIndexRange) <==>
              "prob_default" in decisionTable.columns && ReasonColumns(decisionTable.columns) != [] && decisionTable.rows == []
    ensures res.Ok? ==> res.value.tally == Summarize(res.value.decisions)
    ensures res.Ok? ==> res.value.explanation == Explain(decisionTable, idx, autoApproveMax, autoRejectMin)
    ensures res.Ok? ==> res.value.fairness == FairnessSection(fairnessTable, groupCol)
    ensures res.Ok? ==> |res.value.decisions| == |decisionTable.rows|
    ensures res.Ok? ==> forall i :: 0 <= i < |decisionTable.rows| ==>
              res.value.decisions[i] == ApplyPolicy(decisionTable.rows[i]["prob_default"].x, autoApproveMax, autoRejectMin)
    ensures res.Ok? ==> res.value.tally.autoApprove + res.value.tally.manualReview + res.value.tally.reject
                        == |decisionTable.rows|
    ensures res.Ok? ==> res.value.tally.autoApprove == AtMost(Column(decisionTable, "prob_default"), autoApproveMax)
    ensures res.Ok? && autoApproveMax >= autoRejectMin ==> res.value.tally.manualReview == 0
  {
    DashColumnsSameReasons(decisionTable.columns);
    if "prob_default" !in decisionTable.columns then Err(MissingProbDefault)
    else if ReasonColumns(DashColumns(decisionTable.columns)) != [] && decisionTable.rows == [] then
      Err(EmptyRowIndexRange)
    else
      var probs := Column(decisionTable, "prob_default");
      var decisions := DecisionColumn(probs, autoApproveMax, autoRejectMin);
      ApprovedCount(probs, autoApproveMax, autoRejectMin);
      assert autoApproveMax >= autoRejectMin ==> Summarize(decisions).manualReview == 0 by {
        if autoApproveMax >= autoRejectMin {
          InvertedNoManualReview(probs, autoApproveMax, autoRejectMin);
        }
      }
      Ok(View(decisions, Summarize(decisions),
              Explain(decisionTable, idx, autoApproveMax, autoRejectMin),
              FairnessSection(fairnessTable, groupCol)))
  }
}
