/** Grading single responses and deciding pass or fail from the score list. */
module Scoring {
  import opened Wrappers

  /** A trial's score: 1 for a correct response, 0 for a wrong one. */
  type Score = x: int | 0 <= x <= 1

  /** The score a response earns: 1 exactly when it equals the correct answer. */
  function ScoreOf(correct: string, response: string): (s: Score)
    ensures s == 1 <==> response == correct
  {
    if correct == response then 1 else 0
  }

  /** The value an entry adds to the total: an unset entry adds 0. */
  function Points(entry: Option<Score>): Score {
    match entry
    case None => 0
    case Some(v) => v
  }

  /** The sum of the scores, left to right, counting unset entries as 0. */
  function TotalCorrect(scores: seq<Option<Score>>): (total: nat)
    ensures total <= |scores|
  {
    if scores == [] then 0
    else TotalCorrect(scores[..|scores| - 1]) + Points(scores[|scores| - 1])
  }

  /** The total is the number of entries that hold a score of 1. */
  lemma {:induction false} TotalCorrectCountsCorrect(scores: seq<Option<Score>>)
    ensures TotalCorrect(scores) == multiset(scores)[Some(1)]
  {
    if scores != [] {
      var init, last := scores[..|scores| - 1], scores[|scores| - 1];
      assert scores == init + [last];
      assert multiset(scores) == multiset(init) + multiset{last};
      TotalCorrectCountsCorrect(init);
      assert Points(last) == 1 <==> last == Some(1);
    }
  }

  /** An unset score and a score of 0 contribute the same to the total, though they are different entries. */
  lemma UnsetCountsAsZero(scores: seq<Option<Score>>, i: nat)
    requires i < |scores| && scores[i].None?
    ensures TotalCorrect(scores[i := Some(0)]) == TotalCorrect(scores)
    ensures scores[i := Some(0)] != scores
  {
    var t := scores[i := Some(0)];
    TotalCorrectCountsCorrect(scores);
    TotalCorrectCountsCorrect(t);
    assert multiset(t) == multiset(scores) - multiset{None} + multiset{Some(0)};
    assert t[i] != scores[i];
  }

  /** Pass or fail with an absolute threshold: pass when the total reaches it. */
  function PassFail(scores: seq<Option<Score>>, correctThreshold: int): bool {
    TotalCorrect(scores) >= correctThreshold
  }

  /** Passing means at least `correctThreshold` entries are correct. */
  lemma PassIffEnoughCorrect(scores: seq<Option<Score>>, correctThreshold: int)
    ensures PassFail(scores, correctThreshold) <==> multiset(scores)[Some(1)] >= correctThreshold
  {
    TotalCorrectCountsCorrect(scores);
  }

  /** A run answered correctly throughout passes whenever the threshold does not exceed its length. */
  lemma {:induction false} PerfectRunPasses(scores: seq<Option<Score>>, correctThreshold: int)
    requires forall k :: 0 <= k < |scores| ==> scores[k] == Some(1)
    requires correctThreshold <= |scores|
    ensures TotalCorrect(scores) == |scores|
    ensures PassFail(scores, correctThreshold)
  {
    if scores != [] {
      PerfectRunPasses(scores[..|scores| - 1], correctThreshold - 1);
    }
  }

  /** A threshold above the number of trials can never be reached. */
  lemma UnreachableThresholdFails(scores: seq<Option<Score>>, correctThreshold: int)
    requires correctThreshold > |scores|
    ensures !PassFail(scores, correctThreshold)
  {
  }

  /** The worked example: scores 1, unset, 0, 1 total 2. */
  lemma TotalCorrectExample()
    ensures TotalCorrect([Some(1), None, Some(0), Some(1)]) == 2
  {
    var s: seq<Option<Score>> := [Some(1), None, Some(0), Some(1)];
    TotalCorrectCountsCorrect(s);
    assert multiset(s) == multiset{Some(1), None, Some(0), Some(1)};
  }
}
