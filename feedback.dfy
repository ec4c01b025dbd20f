/** `generate_feedback` and the colour loop of `create_plot`: both split the
    scores into three bands at 0.5 and 0.3, each band closed at its lower
    bound. */
module Feedback {

  /** The CSS class `generate_feedback` returns with its message. */
  datatype FeedbackClass = Success | Warning | Danger

  /** The marker colour `create_plot` gives a score. */
  datatype Colour = Green | Orange | Red

  const StrongMatch: real := 0.5
  const ModerateMatch: real := 0.3

  const SuccessMessage: string :=
    "Excellent match! This resume strongly aligns with the job requirements."
  const WarningMessage: string :=
    "Moderate match. This resume has some relevant qualifications but may need additional screening."
  const DangerMessage: string :=
    "Not suitable for this position. The candidate lacks required qualifications based on this resume."

  /** The fixed message that goes with each class. */
  function MessageOf(c: FeedbackClass): string {
    match c
    case Success => SuccessMessage
    case Warning => WarningMessage
    case Danger => DangerMessage
  }

  /** The colour the plot uses for the band of each class. */
  function ColourOf(c: FeedbackClass): Colour {
    match c
    case Success => Green
    case Warning => Orange
    case Danger => Red
  }

  /** How good a class is: danger < warning < success. */
  function Strength(c: FeedbackClass): nat {
    match c
    case Danger => 0
    case Warning => 1
    case Success => 2
  }

  /** `generate_feedback(score)`: the three classes partition the scores
      into [0.5, oo), [0.3, 0.5) and (-oo, 0.3), and the message is the one
      fixed for the class. */
  function GenerateFeedback(score: real): (r: (string, FeedbackClass))
    ensures r.1 == Success <==> score >= StrongMatch
    ensures r.1 == Warning <==> ModerateMatch <= score < StrongMatch
    ensures r.1 == Danger <==> score < ModerateMatch
    ensures r.0 == MessageOf(r.1)
  {
    if score >= 0.5 then (SuccessMessage, Success)
    else if score >= 0.3 then (WarningMessage, Warning)
    else (DangerMessage, Danger)
  }

  /** The band edges belong to the better band. */
  lemma FeedbackBoundaries()
    ensures GenerateFeedback(0.5).1 == Success
    ensures GenerateFeedback(0.3).1 == Warning
    ensures GenerateFeedback(0.2999).1 == Danger
  {
  }

  /** A higher score never gets a worse class. */
  lemma FeedbackIsMonotone(s1: real, s2: real)
    requires s1 <= s2
    ensures Strength(GenerateFeedback(s1).1) <= Strength(GenerateFeedback(s2).1)
  {
  }

  /** The colour loop of `create_plot` (main.py lines 43-50): one colour per
      score, in input order, by the same two thresholds; each colour is the
      one of the class `generate_feedback` gives that same value. */
  method PlotColours(scores: seq<real>) returns (colours: seq<Colour>)
    ensures |colours| == |scores|
    ensures forall i :: 0 <= i < |scores| ==>
              && (colours[i] == Green <==> scores[i] >= StrongMatch)
              && (colours[i] == Orange <==> ModerateMatch <= scores[i] < StrongMatch)
              && (colours[i] == Red <==> scores[i] < ModerateMatch)
    ensures forall i :: 0 <= i < |scores| ==> colours[i] == ColourOf(GenerateFeedback(scores[i]).1)
  {
    colours := [];
    for i := 0 to |scores|
      invariant |colours| == i
      invariant forall k :: 0 <= k < i ==> colours[k] == ColourOf(GenerateFeedback(scores[k]).1)
    {
      var score := scores[i];
      if score >= 0.5 {
        colours := colours + [Green];
      } else if score >= 0.3 {
        colours := colours + [Orange];
      } else {
        colours := colours + [Red];
      }
    }
  }
}
