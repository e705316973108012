/**
 The session record the check drives: the sampled trial list, the trial
 ids, scores and responses, the page being shown and the page count, with
 the stimulus-load handler, grading, and the Continue handler.
 */
module Session {
  import opened Wrappers
  import opened Configuration
  import opened Sampling
  import opened Scoring
  import opened Trials
  import opened Paging
  import opened Gate

  /** Where the load handler sends the check next. */
  datatype Stage = CalibrationStart | CheckStart

  /** `Array(n)`: a score list of length `n` with every entry unset. */
  function AllUnset(n: nat): (s: seq<Option<Score>>)
    ensures |s| == n && forall k :: 0 <= k < n ==> s[k].None?
  {
    seq(n, _ => None)
  }

  /** Whether position `j` of the list lies in [lo, hi) and has a selection. */
  predicate Graded(sel: Selections, len: nat, lo: int, hi: int, j: nat) {
    lo <= j < hi && j < len && Selected(sel, j).Some?
  }

  /**
   `r` is `scores` once every answered trial at positions [lo, hi) has been
   graded against its stimulus's correct answer; every other entry is kept.
   */
  ghost predicate GradedScores(r: seq<Option<Score>>, scores: seq<Option<Score>>, trials: seq<Stimulus>,
                               sel: Selections, lo: int, hi: int) {
    && |trials| == |scores| == |r|
    && forall j :: 0 <= j < |r| ==>
         r[j] == if Graded(sel, |r|, lo, hi, j) then Some(ScoreOf(trials[j].correct, Selected(sel, j).value)) else scores[j]
  }

  /**
   `m` is `responses` once the selection of every answered trial at
   positions [lo, hi) of a list of length `len` has been recorded.
   */
  ghost predicate RecordedResponses(m: map<nat, string>, responses: map<nat, string>, sel: Selections,
                                    len: nat, lo: int, hi: int) {
    && (forall j: nat :: j in m <==> j in responses || Graded(sel, len, lo, hi, j))
    && forall j: nat :: j in m ==> m[j] == if Graded(sel, len, lo, hi, j) then Selected(sel, j).value else responses[j]
  }

  /**
   The scores after the page loop has graded `k` positions from `lo`: each
   position inside the list whose trial has a selection gets the grade of
   that selection; the others keep their score.
   */
  function ScoresAfter(scores: seq<Option<Score>>, trials: seq<Stimulus>, sel: Selections, lo: int, k: nat): (r: seq<Option<Score>>)
    requires |trials| == |scores|
    ensures |r| == |scores|
  {
    if k == 0 then scores
    else
      var prev := ScoresAfter(scores, trials, sel, lo, k - 1);
      var t := lo + k - 1;
      if 0 <= t < |scores| && Selected(sel, t).Some? then prev[t := Some(ScoreOf(trials[t].correct, Selected(sel, t).value))]
      else prev
  }

  /** The responses after the page loop has recorded the selections at `k` positions from `lo`. */
  function ResponsesAfter(responses: map<nat, string>, sel: Selections, len: nat, lo: int, k: nat): map<nat, string> {
    if k == 0 then responses
    else
      var prev := ResponsesAfter(responses, sel, len, lo, k - 1);
      var t := lo + k - 1;
      if 0 <= t < len && Selected(sel, t).Some? then prev[t := Selected(sel, t).value] else prev
  }

  /** Grading `k` positions sets exactly the answered scores among them, to the grade of the selection. */
  lemma {:induction false} ScoresAfterGrades(scores: seq<Option<Score>>, trials: seq<Stimulus>, sel: Selections, lo: int, k: nat)
    requires |trials| == |scores|
    ensures GradedScores(ScoresAfter(scores, trials, sel, lo, k), scores, trials, sel, lo, lo + k)
  {
    if k > 0 {
      ScoresAfterGrades(scores, trials, sel, lo, k - 1);
    }
  }

  /** Grading `k` positions records exactly the selections of the answered trials among them. */
  lemma {:induction false} ResponsesAfterRecords(responses: map<nat, string>, sel: Selections, len: nat, lo: int, k: nat)
    ensures RecordedResponses(ResponsesAfter(responses, sel, len, lo, k), responses, sel, len, lo, lo + k)
  {
    if k > 0 {
      ResponsesAfterRecords(responses, sel, len, lo, k - 1);
    }
  }

  /** Every score before position `bound` is set. */
  ghost predicate ScoredBefore(scores: seq<Option<Score>>, bound: int) {
    forall j :: 0 <= j < bound && j < |scores| ==> scores[j].Some?
  }

  /** Each set score grades the response recorded at its position. */
  ghost predicate Matches(scores: seq<Option<Score>>, trials: seq<Stimulus>, responses: map<nat, string>) {
    |scores| == |trials| &&
    forall j: nat :: j < |scores| && scores[j].Some? ==>
      j in responses && scores[j].value == ScoreOf(trials[j].correct, responses[j])
  }

  /** Grading keeps every score paired with its response. */
  lemma GradingKeepsMatch(scores: seq<Option<Score>>, trials: seq<Stimulus>, responses: map<nat, string>,
                          sel: Selections, lo: int, k: nat)
    requires Matches(scores, trials, responses)
    ensures Matches(ScoresAfter(scores, trials, sel, lo, k), trials, ResponsesAfter(responses, sel, |trials|, lo, k))
  {
    ScoresAfterGrades(scores, trials, sel, lo, k);
    ResponsesAfterRecords(responses, sel, |trials|, lo, k);
  }

  /** Grading never unsets a score. */
  lemma GradingSetsScores(scores: seq<Option<Score>>, trials: seq<Stimulus>, sel: Selections, lo: int, k: nat, bound: int)
    requires |trials| == |scores| && ScoredBefore(scores, bound)
    ensures ScoredBefore(ScoresAfter(scores, trials, sel, lo, k), bound)
  {
    ScoresAfterGrades(scores, trials, sel, lo, k);
  }

  /**
   Grading a page before the last on which at least a page's worth of
   trials is answered leaves every trial up to the next page's start scored.
   */
  lemma FullPageScoresThrough(scores: seq<Option<Score>>, trials: seq<Stimulus>, sel: Selections, pageNum: nat, size: nat)
    requires |trials| == |scores| && size > 0 && pageNum + 1 < CeilDiv(|scores|, size)
    requires ScoredBefore(scores, PageStart(pageNum, size))
    requires CheckedCount(sel, PageTrials(pageNum, size, |scores|)) >= size
    ensures ScoredBefore(ScoresAfter(scores, trials, sel, PageStart(pageNum, size), size), PageStart(pageNum + 1, size))
  {
    var lo := PageStart(pageNum, size);
    var page := PageTrials(pageNum, size, |scores|);
    var r := ScoresAfter(scores, trials, sel, lo, size);
    ScoresAfterGrades(scores, trials, sel, lo, size);
    NonLastPageIsFull(pageNum, size, |scores|);
    CheckedCountFull(sel, page);
    forall j | 0 <= j < lo + size && j < |r|
      ensures r[j].Some?
    {
      if lo <= j {
        assert page[j - lo] == j;
      }
    }
  }

  /** On the last page, grading a fully answered page leaves every trial scored. */
  lemma LastPageScoresAll(scores: seq<Option<Score>>, trials: seq<Stimulus>, sel: Selections, pageNum: nat, size: nat)
    requires |trials| == |scores| && size > 0 && pageNum + 1 == CeilDiv(|scores|, size)
    requires ScoredBefore(scores, PageStart(pageNum, size))
    requires AllAnswered(sel, PageTrials(pageNum, size, |scores|))
    ensures var r := ScoresAfter(scores, trials, sel, PageStart(pageNum, size), size);
      forall j :: 0 <= j < |r| ==> r[j].Some?
  {
    var lo := PageStart(pageNum, size);
    var page := PageTrials(pageNum, size, |scores|);
    var r := ScoresAfter(scores, trials, sel, lo, size);
    ScoresAfterGrades(scores, trials, sel, lo, size);
    LastPageHoldsRest(pageNum, size, |scores|);
    forall j | 0 <= j < |r| ensures r[j].Some? {
      if lo <= j {
        assert page[j - lo] == j;
      }
    }
  }

  /**
   A loaded session, on values: ids and scores line up with the trial list,
   the page count covers the list, the page shown is one of the pages, and
   every trial on the earlier pages has been scored.
   */
  ghost predicate SessionOk(cfg: Config, pageNum: nat, trials: seq<Stimulus>, ids: seq<string>,
                            scores: seq<Option<Score>>, responses: map<nat, string>, lastPage: nat) {
    && SetupCheck(cfg).Proceed?
    && |trials| <= cfg.totalTrials
    && ids == TrialIds(trials)
    && Matches(scores, trials, responses)
    && lastPage == CeilDiv(|trials|, cfg.trialsPerPage)
    && pageNum < lastPage
    && ScoredBefore(scores, PageStart(pageNum, cfg.trialsPerPage))
  }

  /** Grading keeps a session well formed. */
  lemma GradingKeepsSessionOk(cfg: Config, pageNum: nat, trials: seq<Stimulus>, ids: seq<string>,
                              scores: seq<Option<Score>>, responses: map<nat, string>, lastPage: nat,
                              sel: Selections, lo: int, k: nat)
    requires SessionOk(cfg, pageNum, trials, ids, scores, responses, lastPage)
    ensures SessionOk(cfg, pageNum, trials, ids, ScoresAfter(scores, trials, sel, lo, k),
                      ResponsesAfter(responses, sel, |trials|, lo, k), lastPage)
  {
    GradingKeepsMatch(scores, trials, responses, sel, lo, k);
    GradingSetsScores(scores, trials, sel, lo, k, PageStart(pageNum, cfg.trialsPerPage));
  }

  /**
   A Continue click keeps a session well formed: grading the page keeps it
   so, and so does moving on to the next page before the last once the page
   has been answered (counted as at least a page's worth of answers, or
   answered trial by trial).
   */
  lemma ClickKeepsSessionOk(cfg: Config, pageNum: nat, trials: seq<Stimulus>, ids: seq<string>,
                            scores: seq<Option<Score>>, responses: map<nat, string>, lastPage: nat,
                            sel: Selections, nextPage: nat)
    requires SessionOk(cfg, pageNum, trials, ids, scores, responses, lastPage)
    requires nextPage == pageNum || nextPage == pageNum + 1
    requires nextPage != pageNum ==> (pageNum + 1 < lastPage &&
      (CheckedCount(sel, PageTrials(pageNum, cfg.trialsPerPage, |trials|)) >= cfg.trialsPerPage ||
       AllAnswered(sel, PageTrials(pageNum, cfg.trialsPerPage, |trials|))))
    ensures var lo := PageStart(pageNum, cfg.trialsPerPage);
      SessionOk(cfg, nextPage, trials, ids,
                ScoresAfter(scores, trials, sel, lo, cfg.trialsPerPage),
                ResponsesAfter(responses, sel, |trials|, lo, cfg.trialsPerPage), lastPage)
  {
    var size := cfg.trialsPerPage;
    var lo := PageStart(pageNum, size);
    GradingKeepsSessionOk(cfg, pageNum, trials, ids, scores, responses, lastPage, sel, lo, size);
    if nextPage != pageNum {
      NonLastPageIsFull(pageNum, size, |trials|);
      CheckedCountFull(sel, PageTrials(pageNum, size, |trials|));
      FullPageScoresThrough(scores, trials, sel, pageNum, size);
    }
  }

  class CheckData {
    var pageNum: nat
    var stimDataList: seq<Stimulus>
    var stimIDList: seq<string>
    var trialScoreList: seq<Option<Score>>
    var responseList: map<nat, string>
    var calibration: Option<Calibration>
    var lastPage: nat

    /** A loaded session (see `SessionOk`). */
    ghost predicate Valid(cfg: Config)
      reads this
    {
      SessionOk(cfg, pageNum, stimDataList, stimIDList, trialScoreList, responseList, lastPage)
    }

    /** The record before any stimuli are loaded. */
    constructor ()
      ensures pageNum == 0 && stimDataList == [] && stimIDList == [] && trialScoreList == []
      ensures responseList == map[] && calibration == None && lastPage == 0
    {
      pageNum := 0;
      stimDataList := [];
      stimIDList := [];
      trialScoreList := [];
      responseList := map[];
      calibration := None;
      lastPage := 0;
    }

    /**
     Grades one trial: a defined response records 1 when it equals the
     stimulus's correct answer and 0 otherwise, together with the response
     itself, at the trial's position; an undefined response changes nothing.
     */
    method ScoreTrial(trialInd: nat, stimData: Stimulus, response: Option<string>) returns (score: Option<Score>)
      requires response.Some? ==> trialInd < |trialScoreList|
      modifies this`trialScoreList, this`responseList
      ensures response.None? ==> score.None? && trialScoreList == old(trialScoreList) && responseList == old(responseList)
      ensures response.Some? ==>
        var s := ScoreOf(stimData.correct, response.value);
        score == Some(s) &&
        trialScoreList == old(trialScoreList)[trialInd := Some(s)] &&
        responseList == old(responseList)[trialInd := response.value]
    {
      score := None;
      if response.Some? {
        var s := ScoreOf(stimData.correct, response.value);
        trialScoreList := trialScoreList[trialInd := Some(s)];
        responseList := responseList[trialInd := response.value];
        score := Some(s);
      }
    }

    /** Installs a trial list: its ids, and a score list of the same length with every entry unset. */
    method AssignTrials(trials: seq<Stimulus>)
      modifies this`stimDataList, this`stimIDList, this`trialScoreList
      ensures stimDataList == trials && stimIDList == TrialIds(trials) && trialScoreList == AllUnset(|trials|)
    {
      stimDataList := trials;
      stimIDList := TrialIds(trials);
      trialScoreList := AllUnset(|trials|);
    }

    /**
     Builds the trial list from the pool: `n` draws with replacement, or the
     first `n` (clamped) of the pool after shuffling the pool in place.
     */
    method ShuffleTrials(trialArray: array<Stimulus>, n: int, withReplacement: bool, draws: seq<int>)
      requires withReplacement ==> (n <= 0 || trialArray.Length > 0) && SampleDraws(draws, n, trialArray.Length)
      requires !withReplacement ==> ShuffleDraws(draws, trialArray.Length)
      modifies this`stimDataList, this`stimIDList, this`trialScoreList, trialArray
      ensures withReplacement ==> trialArray[..] == old(trialArray[..])
      ensures withReplacement ==> |stimDataList| == Max(n, 0)
      ensures withReplacement ==>
        forall k :: 0 <= k < |stimDataList| ==> 0 <= draws[k] < trialArray.Length && stimDataList[k] == trialArray[draws[k]]
      ensures !withReplacement ==> trialArray[..] == Shuffled(old(trialArray[..]), draws)
      ensures !withReplacement ==> stimDataList == trialArray[..SampleCount(Some(n), trialArray.Length)]
      ensures stimIDList == TrialIds(stimDataList) && trialScoreList == AllUnset(|stimDataList|)
    {
      var shuffledTrials;
      if withReplacement {
        shuffledTrials := SampleWithReplacement(trialArray, n, draws);
      } else {
        shuffledTrials := Shuffle(trialArray, Some(n), draws);
      }
      AssignTrials(shuffledTrials);
    }

    /** The draws the load handler consumes for this configuration and pool size. */
    ghost predicate LoadDraws(cfg: Config, poolSize: nat, draws: seq<int>) {
      && (cfg.doShuffleTrials && cfg.sampleWithReplacement ==> SampleDraws(draws, cfg.totalTrials, poolSize))
      && (cfg.doShuffleTrials && !cfg.sampleWithReplacement ==> ShuffleDraws(draws, poolSize))
    }

    /** The part of the load handler after the trial list: calibration, page count and next stage. */
    method FinishLoad(cfg: Config, calibrationData: Option<Calibration>) returns (next: Stage)
      requires cfg.trialsPerPage > 0
      modifies this`calibration, this`lastPage
      ensures calibration == if cfg.doCalibration then calibrationData else old(calibration)
      ensures lastPage == CeilDiv(|stimDataList|, cfg.trialsPerPage)
      ensures next == if cfg.doCalibration then CalibrationStart else CheckStart
    {
      if cfg.doCalibration {
        calibration := calibrationData;
      }
      lastPage := CeilDiv(|stimDataList|, cfg.trialsPerPage);
      next := if cfg.doCalibration then CalibrationStart else CheckStart;
    }

    /**
     The stimulus-load success handler: with shuffling on, builds the trial
     list from the pool (permuting the pool in place when sampling without
     replacement); keeps the calibration when calibration is on; sets the page
     count to `ceil(|trials| / trialsPerPage)`; and moves to calibration or to
     the first page.
     */
    method LoadSuccess(cfg: Config, stimuli: array<Stimulus>, calibrationData: Option<Calibration>, draws: seq<int>)
      returns (next: Stage)
      requires SetupCheck(cfg).Proceed?
      requires cfg.doShuffleTrials && cfg.sampleWithReplacement ==> stimuli.Length > 0
      requires LoadDraws(cfg, stimuli.Length, draws)
      modifies this, stimuli
      ensures pageNum == old(pageNum) && responseList == old(responseList)
      ensures !cfg.doShuffleTrials ==>
        stimuli[..] == old(stimuli[..]) && stimDataList == old(stimDataList) &&
        stimIDList == old(stimIDList) && trialScoreList == old(trialScoreList)
      ensures cfg.doShuffleTrials && cfg.sampleWithReplacement ==>
        stimuli[..] == old(stimuli[..]) && |stimDataList| == cfg.totalTrials &&
        forall k :: 0 <= k < |stimDataList| ==> 0 <= draws[k] < stimuli.Length && stimDataList[k] == stimuli[draws[k]]
      ensures cfg.doShuffleTrials && !cfg.sampleWithReplacement ==>
        stimuli[..] == Shuffled(old(stimuli[..]), draws) &&
        stimDataList == stimuli[..SampleCount(Some(cfg.totalTrials), stimuli.Length)]
      ensures cfg.doShuffleTrials ==> stimIDList == TrialIds(stimDataList) && trialScoreList == AllUnset(|stimDataList|)
      ensures calibration == if cfg.doCalibration then calibrationData else old(calibration)
      ensures lastPage == CeilDiv(|stimDataList|, cfg.trialsPerPage)
      ensures next == if cfg.doCalibration then CalibrationStart else CheckStart
      ensures cfg.doShuffleTrials && stimuli.Length > 0 && old(pageNum) == 0 ==> Valid(cfg)
    {
      if cfg.doShuffleTrials {
        ShuffleTrials(stimuli, cfg.totalTrials, cfg.sampleWithReplacement, draws);
      }
      next := FinishLoad(cfg, calibrationData);
    }

    /**
     The load handler with the evidently intended behaviour when shuffling is
     off: the trials are the first `totalTrials` stimuli of the pool in the
     pool's own order. Any non-empty pool then yields a valid session.
     */
    method LoadSuccessInOrder(cfg: Config, stimuli: array<Stimulus>, calibrationData: Option<Calibration>, draws: seq<int>)
      returns (next: Stage)
      requires SetupCheck(cfg).Proceed?
      requires cfg.doShuffleTrials && cfg.sampleWithReplacement ==> stimuli.Length > 0
      requires LoadDraws(cfg, stimuli.Length, draws)
      modifies this, stimuli
      ensures pageNum == old(pageNum) && responseList == old(responseList)
      ensures !cfg.doShuffleTrials ==>
        stimuli[..] == old(stimuli[..]) &&
        stimDataList == stimuli[..SampleCount(Some(cfg.totalTrials), stimuli.Length)]
      ensures cfg.doShuffleTrials && cfg.sampleWithReplacement ==>
        stimuli[..] == old(stimuli[..]) && |stimDataList| == cfg.totalTrials &&
        forall k :: 0 <= k < |stimDataList| ==> 0 <= draws[k] < stimuli.Length && stimDataList[k] == stimuli[draws[k]]
      ensures cfg.doShuffleTrials && !cfg.sampleWithReplacement ==>
        stimuli[..] == Shuffled(old(stimuli[..]), draws) &&
        stimDataList == stimuli[..SampleCount(Some(cfg.totalTrials), stimuli.Length)]
      ensures stimIDList == TrialIds(stimDataList) && trialScoreList == AllUnset(|stimDataList|)
      ensures calibration == if cfg.doCalibration then calibrationData else old(calibration)
      ensures lastPage == CeilDiv(|stimDataList|, cfg.trialsPerPage)
      ensures next == if cfg.doCalibration then CalibrationStart else CheckStart
      ensures stimuli.Length > 0 && old(pageNum) == 0 ==> Valid(cfg)
    {
      if cfg.doShuffleTrials {
        ShuffleTrials(stimuli, cfg.totalTrials, cfg.sampleWithReplacement, draws);
      } else {
        AssignTrials(stimuli[..SampleCount(Some(cfg.totalTrials), stimuli.Length)]);
      }
      next := FinishLoad(cfg, calibrationData);
    }

    /**
     Grades every trial of the current page from the host's selections:
     positions `pageNum * trialsPerPage + i` for `i < trialsPerPage`; an
     unanswered trial, or a position past the list, is left as it was.
     */
    method ScorePage(cfg: Config, selections: Selections)
      requires cfg.trialsPerPage > 0 && |stimIDList| == |stimDataList| == |trialScoreList|
      modifies this`trialScoreList, this`responseList
      ensures trialScoreList == ScoresAfter(old(trialScoreList), stimDataList, selections,
        PageStart(pageNum, cfg.trialsPerPage), cfg.trialsPerPage)
      ensures responseList == ResponsesAfter(old(responseList), selections, |stimDataList|,
        PageStart(pageNum, cfg.trialsPerPage), cfg.trialsPerPage)
    {
      var lo := PageStart(pageNum, cfg.trialsPerPage);
      ghost var scores0, responses0 := trialScoreList, responseList;
      var stimID := 0;
      while stimID < cfg.trialsPerPage
        invariant 0 <= stimID <= cfg.trialsPerPage
        invariant trialScoreList == ScoresAfter(scores0, stimDataList, selections, lo, stimID)
        invariant responseList == ResponsesAfter(responses0, selections, |stimDataList|, lo, stimID)
      {
        var trialInd := lo + stimID;
        if trialInd < |stimIDList| {
          var response := Selected(selections, trialInd);
          var _ := ScoreTrial(trialInd, stimDataList[trialInd], response);
        }
        // a position past the list has no radio buttons, so its response is
        // undefined and grading it would change nothing
        stimID := stimID + 1;
      }
    }

    /**
     The Continue handler: count the answered trials on the page, grade the
     page, then complete (last page), advance one page (enough answers) or
     warn (not enough answers).
     */
    method Continue(cfg: Config, selections: Selections) returns (outcome: ContinueOutcome)
      requires Valid(cfg)
      modifies this`pageNum, this`trialScoreList, this`responseList
      ensures Valid(cfg)
      ensures trialScoreList == ScoresAfter(old(trialScoreList), stimDataList, selections,
        PageStart(old(pageNum), cfg.trialsPerPage), cfg.trialsPerPage)
      ensures responseList == ResponsesAfter(old(responseList), selections, |stimDataList|,
        PageStart(old(pageNum), cfg.trialsPerPage), cfg.trialsPerPage)
      ensures outcome == Decide(cfg, old(pageNum), lastPage,
        CheckedCount(selections, PageTrials(old(pageNum), cfg.trialsPerPage, |stimDataList|)), trialScoreList)
      ensures pageNum == if outcome.Advanced? then old(pageNum) + 1 else old(pageNum)
    {
      var page := PageTrials(pageNum, cfg.trialsPerPage, |stimDataList|);
      var numResponses := CheckedCount(selections, page);
      ScorePage(cfg, selections);
      outcome := Decide(cfg, pageNum, lastPage, numResponses, trialScoreList);
      if outcome.Advanced? {
        pageNum := pageNum + 1;
      }
      ClickKeepsSessionOk(cfg, old(pageNum), stimDataList, stimIDList, old(trialScoreList), old(responseList), lastPage,
        selections, pageNum);
    }

    /**
     The Continue handler with the eligibility check on every page: warn
     unless every trial on the page is answered. A completed check then has
     every trial scored.
     */
    method ContinueChecked(cfg: Config, selections: Selections) returns (outcome: ContinueOutcome)
      requires Valid(cfg)
      modifies this`pageNum, this`trialScoreList, this`responseList
      ensures Valid(cfg)
      ensures trialScoreList == ScoresAfter(old(trialScoreList), stimDataList, selections,
        PageStart(old(pageNum), cfg.trialsPerPage), cfg.trialsPerPage)
      ensures responseList == ResponsesAfter(old(responseList), selections, |stimDataList|,
        PageStart(old(pageNum), cfg.trialsPerPage), cfg.trialsPerPage)
      ensures outcome == DecideChecked(cfg, old(pageNum), lastPage,
        AllAnswered(selections, PageTrials(old(pageNum), cfg.trialsPerPage, |stimDataList|)), trialScoreList)
      ensures pageNum == if outcome.Advanced? then old(pageNum) + 1 else old(pageNum)
      ensures outcome.Completed? ==> forall j :: 0 <= j < |trialScoreList| ==> trialScoreList[j].Some?
    {
      var page := PageTrials(pageNum, cfg.trialsPerPage, |stimDataList|);
      var answered := AllAnswered(selections, page);
      ScorePage(cfg, selections);
      outcome := DecideChecked(cfg, pageNum, lastPage, answered, trialScoreList);
      if outcome.Advanced? {
        pageNum := pageNum + 1;
      }
      ClickKeepsSessionOk(cfg, old(pageNum), stimDataList, stimIDList, old(trialScoreList), old(responseList), lastPage,
        selections, pageNum);
      if outcome.Completed? {
        LastPageScoresAll(old(trialScoreList), stimDataList, selections, pageNum, cfg.trialsPerPage);
      }
    }
  }

  /**
   The first trial of the page being shown can always be played: the trial
   before it lies on an earlier page, and every such trial is scored.
   */
  lemma PageStartPlayable(d: CheckData, cfg: Config, sel: Selections)
    requires d.Valid(cfg)
    ensures CanPlay(cfg.useSequential, d.trialScoreList, sel, PageStart(d.pageNum, cfg.trialsPerPage))
  {
    PageStartsInList(d.pageNum, cfg.trialsPerPage, |d.stimDataList|);
  }

  /**
   With shuffling off, the load handler as written leaves a fresh session
   without trials and with a page count of 0, so no page number is valid.
   */
  method ShuffleOffLeavesNoPage(cfg: Config, stimuli: array<Stimulus>, calibrationData: Option<Calibration>)
    returns (d: CheckData)
    requires SetupCheck(cfg).Proceed? && !cfg.doShuffleTrials
    modifies stimuli
    ensures d.stimDataList == [] && d.lastPage == 0 && !d.Valid(cfg)
  {
    d := new CheckData();
    var _ := d.LoadSuccess(cfg, stimuli, calibrationData, []);
  }
}
