/**
 * Section C of the dashboard: the explanation of one customer's decision, looked up
 * by row index. It is shown only when the decision table has reason-code columns.
 */
module ReasonCodes {
  import opened Wrappers
  import opened Tables
  import opened Policy
  import opened Outcomes
  import opened Schema

  /** The columns after the derived `policy_decision` column has been assigned. */
  function DashColumns(columns: seq<string>): (cs: seq<string>)
    ensures forall c :: c in cs <==> c in columns || c == "policy_decision"
  {
    if "policy_decision" in columns then columns else columns + ["policy_decision"]
  }

  /** Filtering a list extended by a rejected name gives the filter of the list. */
  lemma {:induction false} FilterAppendRejected(s: seq<string>, x: string, keep: string -> bool)
    requires !keep(x)
    ensures Filter(s + [x], keep) == Filter(s, keep)
  {
    if s == [] {
      assert [x][1..] == [];
    } else {
      assert (s + [x])[1..] == s[1..] + [x];
      FilterAppendRejected(s[1..], x, keep);
    }
  }

  /** Deriving the decision column does not change which columns are reason codes. */
  lemma DashColumnsSameReasons(columns: seq<string>)
    ensures ReasonColumns(DashColumns(columns)) == ReasonColumns(columns)
  {
    if "policy_decision" !in columns {
      DerivedColumnIsNotReason();
      FilterAppendRejected(columns, "policy_decision", IsReasonColumn);
    }
  }

  /** The JSON summary and the reason-code table for one row. */
  datatype Explanation = Explanation(probDefault: real, policyDecision: Decision, reasons: map<string, Cell>)

  datatype LookupError =
    | NoReasonColumns       // the section shows a warning instead
    | IndexOutOfRange(idx: int)

  /**
   * Explains row `idx`: its probability, the decision in the derived column and the
   * value of each reason-code column. Without reason-code columns, or for an index
   * outside 0 .. row count - 1, there is no explanation.
   */
  function Explain(t: Table, idx: int, autoApproveMax: real, autoRejectMin: real): (res: Result<Explanation, LookupError>)
    requires Rectangular(t) && NumericColumn(t, "prob_default")
    ensures res == Err(NoReasonColumns) <==> ReasonColumns(t.columns) == []
    ensures res.Ok? <==> ReasonColumns(t.columns) != [] && 0 <= idx < |t.rows|
    ensures res.Ok? ==> res.value.probDefault == t.rows[idx]["prob_default"].x
    ensures res.Ok? ==> res.value.policyDecision == ApplyPolicy(t.rows[idx]["prob_default"].x, autoApproveMax, autoRejectMin)
    ensures res.Ok? ==> res.value.reasons.Keys == set c | c in ReasonColumns(t.columns)
    ensures res.Ok? ==> forall c :: c in res.value.reasons ==> c in t.rows[idx] && res.value.reasons[c] == t.rows[idx][c]
  {
    var reasonCols := ReasonColumns(DashColumns(t.columns));
    DashColumnsSameReasons(t.columns);
    if reasonCols == [] then Err(NoReasonColumns)
    else if !(0 <= idx < |t.rows|) then Err(IndexOutOfRange(idx))
    else
      var decisions := DecisionColumn(Column(t, "prob_default"), autoApproveMax, autoRejectMin);
      var row := t.rows[idx];
      Ok(Explanation(row["prob_default"].x, decisions[idx], map c | c in reasonCols :: row[c]))
  }

  /** Row 0 of the three-row example without reason-code columns: no explanation. */
  lemma NoReasonColumnsScenario()
    ensures Explain(Table(["prob_default"], [map["prob_default" := Num(0.10)]]), 0, 0.20, 0.60)
         == Err(NoReasonColumns)
  {
    var t := Table(["prob_default"], [map["prob_default" := Num(0.10)]]);
    assert !IsReasonColumn("prob_default") by {
      assert Lower("prob_default") == "prob_default";
      assert "prob_default"[0] != "reason"[0];
      assert "prob_default"[1..] == "rob_default";
      assert "rob_default"[1] != "reason"[1];
      assert "rob_default"[1..] == "ob_default";
      FirstCharMissing("ob_default", "reason");
    }
  }
}
