/**
 * Section A of the dashboard: the derived `policy_decision` column (the policy
 * applied to every row's `prob_default`) and the per-label counts shown as metrics,
 * where a label that never occurs is shown as 0.
 */
module Outcomes {
  import opened Policy

  /** The derived decision column: one decision per probability, in row order. */
  function DecisionColumn(probs: seq<real>, autoApproveMax: real, autoRejectMin: real): (ds: seq<Decision>)
    ensures |ds| == |probs|
    ensures forall i :: 0 <= i < |probs| ==> ds[i] == ApplyPolicy(probs[i], autoApproveMax, autoRejectMin)
  {
    if probs == [] then []
    else [ApplyPolicy(probs[0], autoApproveMax, autoRejectMin)]
         + DecisionColumn(probs[1..], autoApproveMax, autoRejectMin)
  }

  /** How many entries of `ds` are `d`. */
  function Occurrences(ds: seq<Decision>, d: Decision): (n: nat)
    ensures n <= |ds|
    ensures n == 0 <==> d !in ds
  {
    if ds == [] then 0
    else (if ds[0] == d then 1 else 0) + Occurrences(ds[1..], d)
  }

  /**
   * The label tally of the decision column: a key for each label that occurs,
   * mapped to its number of occurrences. Labels that never occur have no key.
   */
  function ValueCounts(ds: seq<Decision>): (counts: map<Decision, nat>)
    ensures forall d :: d in counts <==> d in ds
    ensures forall d :: d in counts ==> counts[d] == Occurrences(ds, d) && counts[d] > 0
  {
    map d | d in ds :: Occurrences(ds, d)
  }

  /** A lookup with a default for a missing key. */
  function GetOr(counts: map<Decision, nat>, d: Decision, default: nat): (n: nat)
    ensures d in counts ==> n == counts[d]
    ensures d !in counts ==> n == default
  {
    if d in counts then counts[d] else default
  }

  /** The three metrics of section A. */
  datatype Tally = Tally(autoApprove: nat, manualReview: nat, reject: nat)

  /**
   * The three counts: each is the number of rows with that decision (0 when the
   * label is absent), and together they account for every row.
   */
  function Summarize(ds: seq<Decision>): (t: Tally)
    ensures t.autoApprove == Occurrences(ds, AutoApprove)
    ensures t.manualReview == Occurrences(ds, ManualReview)
    ensures t.reject == Occurrences(ds, Reject)
    ensures t.autoApprove + t.manualReview + t.reject == |ds|
  {
    var counts := ValueCounts(ds);
    OccurrencesPartition(ds);
    Tally(GetOr(counts, AutoApprove, 0), GetOr(counts, ManualReview, 0), GetOr(counts, Reject, 0))
  }

  /** The three labels split any column: their counts sum to its length. */
  lemma {:induction false} OccurrencesPartition(ds: seq<Decision>)
    ensures Occurrences(ds, AutoApprove) + Occurrences(ds, ManualReview) + Occurrences(ds, Reject) == |ds|
  {
    if ds != [] {
      OccurrencesPartition(ds[1..]);
    }
  }

  /** Occurrences is the multiplicity of the label in the column. */
  lemma {:induction false} OccurrencesIsMultiplicity(ds: seq<Decision>, d: Decision)
    ensures Occurrences(ds, d) == multiset(ds)[d]
  {
    if ds != [] {
      OccurrencesIsMultiplicity(ds[1..], d);
      assert ds == [ds[0]] + ds[1..];
    }
  }

  /** Counting the column is independent of row order. */
  lemma PermutationSameTally(ds: seq<Decision>, es: seq<Decision>)
    requires multiset(ds) == multiset(es)
    ensures Summarize(ds) == Summarize(es)
  {
    OccurrencesIsMultiplicity(ds, AutoApprove);
    OccurrencesIsMultiplicity(es, AutoApprove);
    OccurrencesIsMultiplicity(ds, ManualReview);
    OccurrencesIsMultiplicity(es, ManualReview);
    OccurrencesIsMultiplicity(ds, Reject);
    OccurrencesIsMultiplicity(es, Reject);
  }

  /** The approved count is the number of probabilities at or below `autoApproveMax`. */
  lemma {:induction false} ApprovedCount(probs: seq<real>, autoApproveMax: real, autoRejectMin: real)
    ensures Occurrences(DecisionColumn(probs, autoApproveMax, autoRejectMin), AutoApprove)
         == AtMost(probs, autoApproveMax)
  {
    if probs != [] {
      ApprovedCount(probs[1..], autoApproveMax, autoRejectMin);
      var ds := DecisionColumn(probs, autoApproveMax, autoRejectMin);
      assert ds[1..] == DecisionColumn(probs[1..], autoApproveMax, autoRejectMin);
    }
  }

  /** How many probabilities are at most `bound`. */
  function AtMost(probs: seq<real>, bound: real): (n: nat)
    ensures n <= |probs|
  {
    if probs == [] then 0
    else (if probs[0] <= bound then 1 else 0) + AtMost(probs[1..], bound)
  }

  /** With inverted thresholds no row is sent to manual review. */
  lemma InvertedNoManualReview(probs: seq<real>, autoApproveMax: real, autoRejectMin: real)
    requires autoApproveMax >= autoRejectMin
    ensures Summarize(DecisionColumn(probs, autoApproveMax, autoRejectMin)).manualReview == 0
  {
    var ds := DecisionColumn(probs, autoApproveMax, autoRejectMin);
    assert ManualReview !in ds by {
      forall i | 0 <= i < |ds| ensures ds[i] != ManualReview {
        InvertedThresholdsNeverReview(probs[i], autoApproveMax, autoRejectMin);
      }
    }
  }

  /** Three rows at 0.10, 0.35 and 0.70 under thresholds 0.20 and 0.60: one of each. */
  lemma ThreeRowScenario()
    ensures DecisionColumn([0.10, 0.35, 0.70], 0.20, 0.60) == [AutoApprove, ManualReview, Reject]
    ensures Summarize([AutoApprove, ManualReview, Reject]) == Tally(1, 1, 1)
  {
  }
}
