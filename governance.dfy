/**
 * The verdict of the 80% rule and the recommended governance action, both functions
 * of the disparate-impact ratio.
 */
module Governance {

  datatype Verdict = Pass | Fail

  /** The 80% rule: a ratio below 0.8 fails and calls for mitigation. */
  function EightyPercentRule(di: real): (v: Verdict)
    ensures v == Pass <==> di >= 0.8
  {
    if di < 0.8 then Fail else Pass
  }

  datatype Action = NoActionRequired | IncreaseManualReview | DisableAutoApproval

  /** The recommendation the dashboard shows for an action. */
  function ActionText(a: Action): string
  {
    match a
    case NoActionRequired => "No action required"
    case IncreaseManualReview => "Increase manual review for affected group"
    case DisableAutoApproval => "Disable auto-approval; enforce review"
  }

  /** How strong an intervention is. */
  function Strength(a: Action): nat
  {
    match a
    case NoActionRequired => 0
    case IncreaseManualReview => 1
    case DisableAutoApproval => 2
  }

  /** Three bands of the ratio, each closed at its lower edge: [0.8, ∞), [0.6, 0.8), (-∞, 0.6). */
  function GovernanceAction(di: real): (a: Action)
    ensures a == NoActionRequired <==> 0.8 <= di
    ensures a == IncreaseManualReview <==> 0.6 <= di < 0.8
    ensures a == DisableAutoApproval <==> di < 0.6
  {
    if di >= 0.8 then NoActionRequired
    else if di >= 0.6 then IncreaseManualReview
    else DisableAutoApproval
  }

  lemma ActionTextsDistinct(a1: Action, a2: Action)
    ensures ActionText(a1) == ActionText(a2) <==> a1 == a2
  {
  }

  /** The rule fails exactly when some action is recommended. */
  lemma FailIffActionRequired(di: real)
    ensures EightyPercentRule(di) == Fail <==> GovernanceAction(di) != NoActionRequired
  {
  }

  /** A lower ratio never calls for a weaker intervention. */
  lemma ActionAntitone(di1: real, di2: real)
    requires di1 <= di2
    ensures Strength(GovernanceAction(di2)) <= Strength(GovernanceAction(di1))
  {
  }

  /** The band edges. */
  lemma BandEdges()
    ensures GovernanceAction(0.8) == NoActionRequired
    ensures GovernanceAction(0.6) == IncreaseManualReview
    ensures GovernanceAction(0.59999) == DisableAutoApproval
    ensures EightyPercentRule(0.8) == Pass
  {
  }
}
