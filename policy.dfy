/**
 * The three-way decision policy: a default probability and two thresholds give
 * Auto-Approve, Reject or Manual Review. The approve test runs first, so it wins
 * whenever both tests would succeed.
 */
module Policy {

  datatype Decision = AutoApprove | ManualReview | Reject

  /** The label the dashboard shows for a decision. */
  function Label(d: Decision): string
  {
    match d
    case AutoApprove => "Auto-Approve"
    case ManualReview => "Manual Review"
    case Reject => "Reject"
  }

  /** How restrictive a decision is: Auto-Approve < Manual Review < Reject. */
  function Severity(d: Decision): nat
  {
    match d
    case AutoApprove => 0
    case ManualReview => 1
    case Reject => 2
  }

  /**
   * Classifies one default probability. Each label is given by a condition on the
   * probability alone: at most `autoApproveMax` approves; above it, at least
   * `autoRejectMin` rejects; strictly between the two goes to manual review.
   */
  function ApplyPolicy(prob: real, autoApproveMax: real, autoRejectMin: real): (d: Decision)
    ensures d == AutoApprove <==> prob <= autoApproveMax
    ensures d == Reject <==> autoApproveMax < prob && autoRejectMin <= prob
    ensures d == ManualReview <==> autoApproveMax < prob < autoRejectMin
  {
    if prob <= autoApproveMax then AutoApprove
    else if prob >= autoRejectMin then Reject
    else ManualReview
  }

  lemma LabelsDistinct(d1: Decision, d2: Decision)
    ensures Label(d1) == Label(d2) <==> d1 == d2
  {
  }

  /** A probability that passes both tests is approved: the approve test is checked first. */
  lemma ApproveWinsOverlap(prob: real, autoApproveMax: real, autoRejectMin: real)
    requires prob <= autoApproveMax && prob >= autoRejectMin
    ensures ApplyPolicy(prob, autoApproveMax, autoRejectMin) == AutoApprove
  {
  }

  /** With inverted (or equal) thresholds the manual-review band is empty. */
  lemma InvertedThresholdsNeverReview(prob: real, autoApproveMax: real, autoRejectMin: real)
    requires autoApproveMax >= autoRejectMin
    ensures ApplyPolicy(prob, autoApproveMax, autoRejectMin) != ManualReview
  {
  }

  /**
   * A higher default probability never gets a less restrictive decision. This holds
   * for every pair of thresholds, inverted ones included.
   */
  lemma Monotone(p1: real, p2: real, autoApproveMax: real, autoRejectMin: real)
    requires p1 <= p2
    ensures Severity(ApplyPolicy(p1, autoApproveMax, autoRejectMin))
         <= Severity(ApplyPolicy(p2, autoApproveMax, autoRejectMin))
  {
  }

  /**
   * The thresholds themselves: `autoApproveMax` is approved; `autoRejectMin` is
   * rejected unless it equals `autoApproveMax`, in which case the approve test wins.
   */
  lemma BoundaryTies(autoApproveMax: real, autoRejectMin: real)
    requires autoApproveMax <= autoRejectMin
    ensures ApplyPolicy(autoApproveMax, autoApproveMax, autoRejectMin) == AutoApprove
    ensures ApplyPolicy(autoRejectMin, autoApproveMax, autoRejectMin)
         == if autoApproveMax == autoRejectMin then AutoApprove else Reject
  {
  }
}
