/**
 Pages of trials and the decision the Continue button takes: the page
 count, the trial positions on a page, the count of answered trials the
 eligibility check relies on, and the outcome of a click.
 */
module Paging {
  import opened Wrappers
  import opened Configuration
  import opened Scoring

  /**
   The position of the first trial on page `pageNum`, `pageNum * size`,
   built up one page at a time so that the verifier reasons about it by
   addition only.
   */
  function PageStart(pageNum: nat, size: int): (s: int)
    ensures size >= 0 ==> s >= 0
  {
    if pageNum == 0 then 0 else PageStart(pageNum - 1, size) + size
  }

  /** The first position of a page is the page number times the page size. */
  lemma {:induction false} PageStartIsProduct(pageNum: nat, size: int)
    ensures PageStart(pageNum, size) == pageNum * size
  {
    if pageNum > 0 {
      PageStartIsProduct(pageNum - 1, size);
      assert (pageNum - 1) * size + size == pageNum * size;
    }
  }

  /** Later pages start later. */
  lemma {:induction false} PageStartMonotone(p: nat, q: nat, size: int)
    requires p <= q && size > 0
    ensures 0 <= PageStart(p, size) <= PageStart(q, size)
    decreases q
  {
    if p < q {
      PageStartMonotone(p, q - 1, size);
    } else if p > 0 {
      PageStartMonotone(p - 1, p - 1, size);
    }
  }

  /**
   `Math.ceil(n / size)`: the number of pages of `size` trials that `n`
   trials fill, the least page count whose pages reach `n`.
   */
  function CeilDiv(n: nat, size: int): (r: nat)
    requires size > 0
    ensures PageStart(r, size) >= n
    ensures r > 0 ==> PageStart(r - 1, size) < n
    ensures r == 0 <==> n == 0
    decreases n
  {
    if n == 0 then 0 else 1 + CeilDiv(if n <= size then 0 else n - size, size)
  }

  /** The page count is the quotient `n / size`, rounded up. */
  lemma CeilDivIsQuotient(n: nat, size: int)
    requires size > 0
    ensures CeilDiv(n, size) == (n + size - 1) / size
  {
    var r := CeilDiv(n, size);
    PageStartIsProduct(r, size);
    if r > 0 {
      PageStartIsProduct(r - 1, size);
      assert (r - 1) * size == r * size - size;
    }
    var q := (n + size - 1) / size;
    var m := (n + size - 1) % size;
    assert n + size - 1 == q * size + m && 0 <= m < size;
    assert (r + 1) * size == r * size + size;
    if q < r {
      MulMonotone(q, r - 1, size);
    } else if q > r {
      MulMonotone(r + 1, q, size);
    }
  }

  /** Six trials three to a page make two pages; seven make three. */
  lemma LastPageExamples()
    ensures CeilDiv(6, 3) == 2 && CeilDiv(7, 3) == 3
  {
  }

  lemma MulMonotone(a: nat, b: nat, c: nat)
    requires a <= b
    ensures a * c <= b * c
  {
  }

  /**
   The positions on page `pageNum`: `PageStart(pageNum, size) + i` for
   `i < size`, keeping only those below `bound`.
   */
  function PageTrials(pageNum: nat, size: int, bound: int): (w: seq<nat>)
    requires size > 0
    ensures forall j :: j in w <==> PageStart(pageNum, size) <= j < PageStart(pageNum, size) + size && j < bound
    ensures forall k :: 0 <= k < |w| ==> w[k] == PageStart(pageNum, size) + k
    ensures |w| <= size
  {
    PageStartMonotone(0, pageNum, size);
    var start: nat := PageStart(pageNum, size);
    var count: nat := if bound <= start then 0 else if bound - start < size then bound - start else size;
    var w: seq<nat> := seq(count, k requires 0 <= k < count => start + k);
    RangeContains(start, count, w);
    w
  }

  lemma RangeContains(start: nat, count: nat, w: seq<nat>)
    requires |w| == count && forall k :: 0 <= k < count ==> w[k] == start + k
    ensures forall j :: start <= j < start + count ==> j in w
  {
    forall j | start <= j < start + count ensures j in w {
      assert w[j - start] == j;
    }
  }

  /** Every page before the last holds a full `size` trials. */
  lemma NonLastPageIsFull(pageNum: nat, size: int, len: nat)
    requires size > 0 && pageNum + 1 < CeilDiv(len, size)
    ensures PageStart(pageNum, size) + size <= len
    ensures |PageTrials(pageNum, size, len)| == size
  {
    var last := CeilDiv(len, size);
    PageStartMonotone(pageNum + 1, last - 1, size);
  }

  /** The last page holds every trial from its start to the end of the list. */
  lemma LastPageHoldsRest(pageNum: nat, size: int, len: nat)
    requires size > 0 && pageNum + 1 == CeilDiv(len, size)
    ensures PageStart(pageNum, size) < len <= PageStart(pageNum, size) + size
    ensures forall j :: PageStart(pageNum, size) <= j < len ==> j in PageTrials(pageNum, size, len)
  {
    assert PageStart(pageNum + 1, size) == PageStart(pageNum, size) + size;
  }

  /** A page before the last starts no later than the last page, so inside the list. */
  lemma PageStartsInList(pageNum: nat, size: int, len: nat)
    requires size > 0 && pageNum < CeilDiv(len, size)
    ensures 0 <= PageStart(pageNum, size) < len
  {
    PageStartMonotone(pageNum, CeilDiv(len, size) - 1, size);
  }

  /** The host's radio selections, by trial position; a missing key is no selection. */
  type Selections = map<nat, Option<string>>

  function Selected(sel: Selections, i: nat): Option<string> {
    if i in sel then sel[i] else None
  }

  /** How many of the given trials have a checked radio button. */
  function CheckedCount(sel: Selections, window: seq<nat>): (c: nat)
    ensures c <= |window|
  {
    if window == [] then 0
    else CheckedCount(sel, window[..|window| - 1]) + (if Selected(sel, window[|window| - 1]).Some? then 1 else 0)
  }

  /** Every trial in the window has a selection. */
  predicate AllAnswered(sel: Selections, window: seq<nat>) {
    forall k :: 0 <= k < |window| ==> Selected(sel, window[k]).Some?
  }

  /** The count reaches the window's size exactly when every trial in it is answered. */
  lemma {:induction false} CheckedCountFull(sel: Selections, window: seq<nat>)
    ensures CheckedCount(sel, window) == |window| <==> AllAnswered(sel, window)
  {
    if window != [] {
      var init := window[..|window| - 1];
      CheckedCountFull(sel, init);
      assert forall k :: 0 <= k < |init| ==> init[k] == window[k];
      if AllAnswered(sel, window) {
        assert AllAnswered(sel, init);
      }
    }
  }

  /** On a page with fewer than `size` trials the count-based check can never succeed. */
  lemma PartialPageNeverEligible(sel: Selections, pageNum: nat, size: int, len: nat)
    requires size > 0 && |PageTrials(pageNum, size, len)| < size
    ensures CheckedCount(sel, PageTrials(pageNum, size, len)) < size
  {
  }

  /** What a Continue click does. */
  datatype ContinueOutcome = Advanced | Completed(didPass: bool) | ResponsesMissing

  /**
   The Continue decision as the handler takes it, from the page number, the
   page count, the number of answered trials on the page and the scores after
   grading: on the last page complete (unless the single trial of a one-trial
   check is still unscored), elsewhere advance when at least a page's worth of
   trials is answered, and otherwise warn.
   */
  function Decide(cfg: Config, pageNum: nat, lastPage: nat, checked: nat, scores: seq<Option<Score>>): ContinueOutcome {
    if pageNum == lastPage - 1 then
      if cfg.totalTrials == 1 && (|scores| == 0 || scores[0].None?) then ResponsesMissing
      else Completed(PassFail(scores, cfg.correctThreshold))
    else if checked >= cfg.trialsPerPage then Advanced
    else ResponsesMissing
  }

  /**
   Before the last page the count-based check is the per-trial one: the
   page advances exactly when every trial on it is answered, and otherwise
   warns; either way it stays within the page count.
   */
  lemma AdvanceIffPageAnswered(cfg: Config, pageNum: nat, len: nat, sel: Selections, scores: seq<Option<Score>>)
    requires cfg.trialsPerPage > 0 && pageNum + 1 < CeilDiv(len, cfg.trialsPerPage)
    ensures var w := PageTrials(pageNum, cfg.trialsPerPage, len);
      var out := Decide(cfg, pageNum, CeilDiv(len, cfg.trialsPerPage), CheckedCount(sel, w), scores);
      (out == Advanced <==> AllAnswered(sel, w)) &&
      (out != Advanced ==> out == ResponsesMissing)
  {
    var w := PageTrials(pageNum, cfg.trialsPerPage, len);
    NonLastPageIsFull(pageNum, cfg.trialsPerPage, len);
    CheckedCountFull(sel, w);
  }

  /** On the last page the click completes with the pass/fail verdict, whatever was answered. */
  lemma LastPageCompletes(cfg: Config, pageNum: nat, lastPage: nat, checked: nat, scores: seq<Option<Score>>)
    requires pageNum + 1 == lastPage && cfg.totalTrials != 1
    ensures Decide(cfg, pageNum, lastPage, checked, scores) == Completed(TotalCorrect(scores) >= cfg.correctThreshold)
  {
  }

  /** A one-trial check whose trial is unscored never completes; it warns. */
  lemma SingleTrialUnscoredWarns(cfg: Config, checked: nat, scores: seq<Option<Score>>)
    requires cfg.totalTrials == 1 && (|scores| == 0 || scores[0].None?)
    ensures Decide(cfg, 0, 1, checked, scores) == ResponsesMissing
  {
  }

  /**
   The handler as written completes on the last page with a trial left
   unanswered: two trials, one per page, the second unanswered.
   */
  lemma LastPageCompletesUnanswered()
    ensures var cfg := Config("", 2, 1, 1, true, true, false, false, false, false);
      var w := PageTrials(1, 1, 2);
      var scores: seq<Option<Score>> := [Some(1), None];
      w == [1] && !AllAnswered(map[], w) &&
      Decide(cfg, 1, CeilDiv(2, 1), CheckedCount(map[], w), scores) == Completed(true) &&
      DecideChecked(cfg, 1, CeilDiv(2, 1), AllAnswered(map[], w), scores) == ResponsesMissing
  {
    var scores: seq<Option<Score>> := [Some(1), None];
    assert scores[..1] == [Some(1)] && scores[..1][..0] == [];
    var w := PageTrials(1, 1, 2);
    assert w[0] == 1;
  }

  /**
   The decision with the eligibility check on every page: warn unless every
   trial on the page is answered; then complete on the last page and advance
   elsewhere.
   */
  function DecideChecked(cfg: Config, pageNum: nat, lastPage: nat, allAnswered: bool, scores: seq<Option<Score>>): ContinueOutcome {
    if !allAnswered then ResponsesMissing
    else if pageNum == lastPage - 1 then Completed(PassFail(scores, cfg.correctThreshold))
    else Advanced
  }

  /** Before the last page the checked decision agrees with the handler as written. */
  lemma DecideCheckedAgreesBeforeLastPage(cfg: Config, pageNum: nat, len: nat, sel: Selections, scores: seq<Option<Score>>)
    requires cfg.trialsPerPage > 0 && pageNum + 1 < CeilDiv(len, cfg.trialsPerPage)
    ensures var w := PageTrials(pageNum, cfg.trialsPerPage, len);
      var last := CeilDiv(len, cfg.trialsPerPage);
      DecideChecked(cfg, pageNum, last, AllAnswered(sel, w), scores) ==
      Decide(cfg, pageNum, last, CheckedCount(sel, w), scores)
  {
    AdvanceIffPageAnswered(cfg, pageNum, len, sel, scores);
  }
}
