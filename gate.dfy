/**
 The sequential-playback gate: with sequential mode on, a trial may be
 played only once the trial before it has a selected response or a score.
 */
module Gate {
  import opened Wrappers
  import opened JsStrings
  import opened Scoring
  import opened Trials
  import opened Paging

  /** The selection the host shows for the trial at `i`; positions outside the list have none. */
  function ResponseAt(sel: Selections, len: nat, i: int): Option<string> {
    if 0 <= i < len then Selected(sel, i) else None
  }

  /** Whether the trial before `previous + 1` lets playback go ahead. */
  predicate PreviousDone(scores: seq<Option<Score>>, sel: Selections, previous: int) {
    ResponseAt(sel, |scores|, previous).Some? || (0 <= previous < |scores| && scores[previous].Some?)
  }

  /**
   The gate on a trial position: playback of trial `i` is refused exactly
   when sequential mode is on, `i` has a predecessor, and that predecessor
   has neither a selected response nor a score.
   */
  function CanPlay(useSequential: bool, scores: seq<Option<Score>>, sel: Selections, i: int): (ok: bool)
    ensures !ok <==> (useSequential && i >= 1 &&
                      ResponseAt(sel, |scores|, i - 1).None? && !(i - 1 < |scores| && scores[i - 1].Some?))
  {
    var previous := i - 1;
    if useSequential && previous >= 0 then PreviousDone(scores, sel, previous) else true
  }

  /** With sequential mode, trial 2 is refused while trial 1 has neither a response nor a score, and allowed once it has either. */
  lemma SequentialGateExample(scores: seq<Option<Score>>, sel: Selections)
    requires |scores| > 2
    ensures CanPlay(true, scores, sel, 2) <==> Selected(sel, 1).Some? || scores[1].Some?
  {
  }

  /**
   The gate as written: the position is read back from the trial id by
   taking the text before the first '-' and subtracting 1, in JavaScript
   number semantics, where text that is not a number gives NaN and NaN >= 0
   is false.
   */
  function CanPlayAsWritten(useSequential: bool, scores: seq<Option<Score>>, sel: Selections, stimID: string): bool {
    var trialID := SliceTo(stimID, IndexOf(stimID, '-'));
    var previousTrialID := match ToNumber(trialID) case None => None case Some(v) => Some(v - 1);
    if useSequential && previousTrialID.Some? && previousTrialID.value >= 0 then
      PreviousDone(scores, sel, previousTrialID.value)
    else true
  }

  /**
   On every id the trial list actually uses, the text before the first '-'
   is `'trial' + index`, which is NaN as a number, so the gate as written
   never refuses.
   */
  lemma GateAsWrittenNeverRefuses(useSequential: bool, scores: seq<Option<Score>>, sel: Selections, index: nat, stimulusId: string)
    ensures CanPlayAsWritten(useSequential, scores, sel, TrialIdString(index, stimulusId))
  {
    var digits := NatToString(index);
    var s := TrialIdString(index, stimulusId);
    assert s == "trial" + digits + "-src" + stimulusId;
    assert s[0] == 't';
    assert s[5 + |digits|] == '-';
    var r := IndexOf(s, '-');
    assert r != -1;
    assert r != 0;
    var prefix := SliceTo(s, r);
    assert prefix == s[..r] && prefix[0] == 't';
    assert !IsDigit(prefix[0]);
    assert ToNumber(prefix).None?;
  }

  /** The gap between the two: trial 2 with trial 1 untouched is refused by the rule and allowed as written. */
  lemma GateDiscrepancy(stimulusId: string)
    ensures var scores: seq<Option<Score>> := [None, None, None];
      !CanPlay(true, scores, map[], 2) &&
      CanPlayAsWritten(true, scores, map[], TrialIdString(2, stimulusId))
  {
    GateAsWrittenNeverRefuses(true, [None, None, None], map[], 2, stimulusId);
  }
}
