/** Stimuli and the trial ids built from them. */
module Trials {
  import opened JsStrings

  /** A stimulus from the pool; `correct` is the answer in its string form. */
  datatype Stimulus = Stimulus(id: string, src: string, correct: string)

  /** The calibration sound. */
  datatype Calibration = Calibration(src: string)

  /** The id of the trial at position `index`: `'trial' + index + '-src' + stimulusId`. */
  function TrialIdString(index: nat, stimulusId: string): string {
    "trial" + NatToString(index) + "-src" + stimulusId
  }

  /** Two trial ids are equal only when they encode the same position. */
  lemma TrialIdStringInjective(i: nat, x: string, j: nat, y: string)
    requires TrialIdString(i, x) == TrialIdString(j, y)
    ensures i == j
  {
    var a, b := NatToString(i), NatToString(j);
    var s := TrialIdString(i, x);
    assert s == "trial" + a + "-src" + x;
    assert s == "trial" + b + "-src" + y;
    assert forall k :: 0 <= k < |a| ==> s[5 + k] == a[k];
    assert forall k :: 0 <= k < |b| ==> s[5 + k] == b[k];
    assert s[5 + |a|] == '-' && s[5 + |b|] == '-';
    assert |a| == |b|;
    assert a == s[5..5 + |a|] == b;
    NatToStringInjective(i, j);
  }

  /** The id list for a trial list: position `i` gets `TrialIdString(i, trials[i].id)`. */
  function TrialIds(trials: seq<Stimulus>): (ids: seq<string>)
    ensures |ids| == |trials|
  {
    seq(|trials|, i requires 0 <= i < |trials| => TrialIdString(i, trials[i].id))
  }

  /** Trial ids are pairwise distinct, even when the same stimulus occurs at several positions. */
  lemma TrialIdsDistinct(trials: seq<Stimulus>)
    ensures forall i, j :: 0 <= i < j < |trials| ==> TrialIds(trials)[i] != TrialIds(trials)[j]
  {
    var ids := TrialIds(trials);
    forall i, j | 0 <= i < j < |trials| ensures ids[i] != ids[j] {
      if ids[i] == ids[j] {
        TrialIdStringInjective(i, trials[i].id, j, trials[j].id);
      }
    }
  }
}
