# HeadphoneCheck trial orchestration, in Dafny

HeadphoneCheck is a browser screening task. A participant hears triplets of
tones and picks the softest tone. The task passes only when enough answers are
right, which is meant to show that the participant wears headphones. This
project models the non-visual core of the task and proves its properties:

- resolving option overrides against the defaults, and the setup guard;
- drawing the trial list from the stimulus pool, either with replacement or as
  the prefix of an in-place Knuth shuffle, together with the sampling helpers
  `randomInt` and `count`;
- building the trial ids and resetting the scores;
- grading responses, totalling the scores and the absolute pass threshold;
- the paged session state in `headphoneCheckData`, written as the class
  `Session.CheckData`. It covers the load-success handler, the trial window of
  a page, and the Continue handler with its answered-count check;
- the sequential-playback gate of `playStim`.

`Math.random()` becomes a sequence of integer draws. A draw `d` for bound `b`
stands for `floor(U * b)` with `U` uniform in [0, 1), so `0 <= d < b`. The
participant's radio-button selections become an input map from trial position
to an optional answer. Every DOM query the handlers make reads this map.

Modules:

- `Wrappers`: `Option`.
- `JsStrings`: decimal rendering, `indexOf`, `slice` and `Number` on strings.
- `Configuration`: defaults, override resolution, the setup guard.
- `Sampling`: `randomInt`, `sampleWithReplacement`, the shuffle and `count`.
- `Trials`: stimuli and trial ids.
- `Scoring`: scores, the total and pass/fail.
- `Paging`: the page count, the page window and the Continue decision.
- `Gate`: the sequential gate.
- `Session`: the session class and its invariant.

Three behaviours of the code are easy to miss. The model follows the code in
each:

- `shuffle` permutes the array it is passed, in place
  (HeadphoneCheck.js:615-617). That array is the caller's pool, `data.stimuli`
  of the loaded JSON (HeadphoneCheck.js:109). `Sampling.Shuffle` and
  `Session.CheckData.LoadSuccess` state that the pool array ends up as the
  shuffled permutation.
- The setup guard has exactly four checks (HeadphoneCheck.js:393-396). They
  include `totalTrials < trialsPerPage` and `correctThreshold > totalTrials`.
  A negative threshold is accepted. The threshold is an absolute count of
  correct trials (HeadphoneCheck.js:512). There is no fraction mode.
- The trial list can be shorter than `totalTrials`. Sampling without
  replacement clamps the sample size to the pool's length
  (HeadphoneCheck.js:601-604). So the invariant `Session.SessionOk` only
  bounds the list's length by `totalTrials`.

## Model

| member | source | states |
|---|---|---|
| Configuration.ParseConfig | HeadphoneCheck.js:375-381 | walks the default options in order; each option takes the override's value when the override object has the option's name, and its default otherwise; every option is present, and no other name is read |
| Configuration.NoOverrideIsDefault | HeadphoneCheck.js:379 | with an empty override object, every option resolves to its default |
| Configuration.ResolvedWellTyped | HeadphoneCheck.js:6-17 | overrides whose recognised names hold values of the right kind resolve to settings in which every option is present with a value of its kind |
| Configuration.DefaultSettingsConfig | HeadphoneCheck.js:6-17 | settings that hold every default read as the documented configuration: the default URL, 6 trials, 3 per page, threshold 4, sequential on, shuffle on, without replacement, calibration on, no cache, no debug |
| Configuration.DefaultsProceed | HeadphoneCheck.js:6-17 | with no overrides, the defaults give 6 trials, 3 per page and threshold 4, and the setup guard lets them through |
| Configuration.SetupCheck | HeadphoneCheck.js:393-396 | the guards run in order and the first failing one is the error: totalTrials <= 0, then trialsPerPage <= 0, then totalTrials < trialsPerPage, then correctThreshold > totalTrials; each error is returned exactly under its condition, and setup proceeds exactly when none holds |
| Sampling.RandomInt | sampling.js:6-19 | returns a single value exactly when n == 1, and otherwise a list of max(n, 0) values; value k is min(a, b) plus draw k, so it lies in [min(a, b), max(a, b)) and does not depend on the argument order (the main file's copy at HeadphoneCheck.js:630-639 is the same function) |
| Sampling.SampleWithReplacement | HeadphoneCheck.js:573-580 | returns exactly max(n, 0) samples; sample k is the pool element at the k-th drawn index, so every sample is an element of the pool; the pool is only read (the sampling helpers' copy at sampling.js:21-28 is the same loop) |
| Sampling.KnuthPermutes | HeadphoneCheck.js:607-618 | the Knuth shuffle swaps two elements per step, so its result is a permutation of the input (the same multiset) |
| Sampling.Shuffled | HeadphoneCheck.js:607-618 | the full shuffle keeps the length and the multiset of its input |
| Sampling.ShuffleInPlace | HeadphoneCheck.js:607-618 | the while loop leaves the array holding the Knuth shuffle of its old contents, a permutation of them |
| Sampling.SampleCount | HeadphoneCheck.js:594-605 | the sample size is n when n is given and lies in [1, length]; it is the whole length when n is missing, not positive, or larger than the array |
| Sampling.Shuffle | HeadphoneCheck.js:593-620 | permutes the caller's array in place into the Knuth shuffle of its old contents, and returns that permutation's prefix of the clamped length |
| Sampling.ShuffledPrefixFromPool | HeadphoneCheck.js:619 | every element of a shuffled prefix comes from the pool, and a pool without repeats gives a prefix without repeats |
| Sampling.ShuffleAll | sampling.js:43-58 | returns the same array object, now the Knuth shuffle of its old contents, with the same length and multiset |
| Sampling.Count | sampling.js:65-72 | the count equals the number of positions holding the element, and so lies between 0 and the length |
| Sampling.CountsSumToLength | sampling.js:77-79 | when every sampled element occurs in a pool without repeats, the counts over the pool's elements add up to the sample's length |
| Trials.TrialIds | HeadphoneCheck.js:559-562 | the id list has one entry per trial |
| Trials.TrialIdStringInjective | HeadphoneCheck.js:561 | two ids 'trial' + i + '-src' + id are equal only when they encode the same position |
| Trials.TrialIdsDistinct | HeadphoneCheck.js:559-562 | the trial ids are pairwise distinct, even when the same stimulus is drawn twice |
| JsStrings.NatToString | HeadphoneCheck.js:561 | the decimal rendering of a position is a non-empty run of digits |
| JsStrings.ParseNatToString | HeadphoneCheck.js:561 | reading a rendered position back as a number gives the position |
| JsStrings.NatToStringInjective | HeadphoneCheck.js:561 | distinct positions have distinct renderings |
| JsStrings.IndexOf | HeadphoneCheck.js:409 | indexOf gives the first position holding the character, and -1 exactly when the character does not occur |
| JsStrings.SliceTo | HeadphoneCheck.js:409 | slice(0, end) is a prefix of the string, and exactly the first end characters when end lies within the string |
| JsStrings.ToNumber | HeadphoneCheck.js:410 | the numeric conversion succeeds exactly on runs of decimal digits and gives a non-negative value; any other text converts to NaN |
| Scoring.ScoreOf | HeadphoneCheck.js:533 | a response scores 1 exactly when it equals the correct answer, and 0 otherwise |
| Scoring.TotalCorrect | HeadphoneCheck.js:523-528 | the sum of the scores, with unset entries counted as 0, lies between 0 and the list length |
| Scoring.TotalCorrectCountsCorrect | HeadphoneCheck.js:523-528 | the total is the number of entries holding a score of 1 |
| Scoring.UnsetCountsAsZero | HeadphoneCheck.js:525 | an unset entry and a score of 0 add the same to the total, though the two lists differ |
| Scoring.TotalCorrectExample | HeadphoneCheck.js:523-528 | the scores 1, unset, 0, 1 total 2 |
| Scoring.PassIffEnoughCorrect | HeadphoneCheck.js:510-513 | the check passes exactly when at least correctThreshold entries are correct |
| Scoring.PerfectRunPasses | HeadphoneCheck.js:510-513 | all-correct scores total their length, and so pass any threshold up to it |
| Scoring.UnreachableThresholdFails | HeadphoneCheck.js:510-513 | a threshold above the number of trials can never be passed |
| Paging.PageStartIsProduct | HeadphoneCheck.js:158 | the first position of a page is pageNum * trialsPerPage |
| Paging.PageStartMonotone | HeadphoneCheck.js:194 | later pages start at later positions, and no page starts below 0 |
| Paging.CeilDiv | HeadphoneCheck.js:114 | the page count ceil(n / trialsPerPage) is the least number of pages that reach n trials, and it is 0 exactly when there are no trials |
| Paging.CeilDivIsQuotient | HeadphoneCheck.js:114 | the page count equals the integer quotient (n + trialsPerPage - 1) / trialsPerPage |
| Paging.LastPageExamples | HeadphoneCheck.js:114 | six trials at three per page make two pages, and seven make three |
| Paging.PageTrials | HeadphoneCheck.js:157-166 | a page's window holds the positions pageNum * trialsPerPage + i for i < trialsPerPage, in order, that fall inside the trial list; nothing else is in it |
| Paging.NonLastPageIsFull | HeadphoneCheck.js:157-166 | every page before the last lies inside the list and holds a full trialsPerPage trials |
| Paging.LastPageHoldsRest | HeadphoneCheck.js:157-166 | the last page starts inside the list and holds every trial from its start to the end |
| Paging.PageStartsInList | HeadphoneCheck.js:158-162 | every page below the page count starts at a position inside the trial list |
| Paging.CheckedCount | HeadphoneCheck.js:473-477 | the number of checked radio groups never exceeds the number of trials on the page |
| Paging.CheckedCountFull | HeadphoneCheck.js:473-477 | the checked count reaches the page's size exactly when every trial on the page is answered |
| Paging.PartialPageNeverEligible | HeadphoneCheck.js:476 | on a page with fewer than trialsPerPage trials, the count-based check can never succeed |
| Paging.AdvanceIffPageAnswered | HeadphoneCheck.js:209-216 | before the last page, a click advances exactly when every trial on the page is answered, and otherwise warns |
| Paging.LastPageCompletes | HeadphoneCheck.js:198-208 | on the last page (totalTrials other than 1), a click completes with didPass = totalCorrect >= correctThreshold, whatever was answered |
| Paging.SingleTrialUnscoredWarns | HeadphoneCheck.js:200-203 | in a one-trial check whose trial is still unscored, the last-page click warns instead of completing |
| Paging.LastPageCompletesUnanswered | HeadphoneCheck.js:198-208 | counterexample: with two trials, one per page and the second unanswered, the handler completes, while the checked decision warns |
| Paging.DecideCheckedAgreesBeforeLastPage | HeadphoneCheck.js:209-216 | before the last page, the decision with a per-trial check agrees with the count-based one |
| Gate.CanPlay | HeadphoneCheck.js:410-417 | playback of trial i is refused exactly when sequential mode is on, i has a predecessor, and that predecessor has neither a selected response nor a score |
| Gate.SequentialGateExample | HeadphoneCheck.js:411-416 | with sequential mode on, trial 2 may play exactly when trial 1 has a selection or a score |
| Gate.GateAsWrittenNeverRefuses | HeadphoneCheck.js:409-411 | on every id the trial list uses, the text before the first '-' is 'trial' + index; it converts to NaN, so the gate as written never refuses |
| Gate.GateDiscrepancy | HeadphoneCheck.js:409-416 | counterexample: trial 2 with trial 1 untouched is refused by the position rule but allowed as written |
| Session.AllUnset | HeadphoneCheck.js:563 | `Array(n)`: a score list of length n with every entry unset |
| Session.ScoresAfterGrades | HeadphoneCheck.js:193-197 | after the page loop, every answered position in the page range inside the list holds the grade of its selection, and every other score is unchanged |
| Session.ResponsesAfterRecords | HeadphoneCheck.js:193-197 | after the page loop, the responses hold the selection of every answered position in the page range, and every other response is unchanged |
| Session.GradingKeepsMatch | HeadphoneCheck.js:193-197 | grading keeps every set score paired with the grade of the response recorded at its position |
| Session.GradingSetsScores | HeadphoneCheck.js:193-197 | grading never unsets a score |
| Session.FullPageScoresThrough | HeadphoneCheck.js:209-213 | advancing from a page with a page's worth of answers leaves every trial up to the next page's start scored |
| Session.LastPageScoresAll | HeadphoneCheck.js:198-208 | completing a fully answered last page leaves every trial scored |
| Session.GradingKeepsSessionOk | HeadphoneCheck.js:193-197 | grading keeps the session invariant |
| Session.ClickKeepsSessionOk | HeadphoneCheck.js:191-217 | a Continue click keeps the session invariant, including 0 <= pageNum < lastPage, whether it stays on the page or advances from a page before the last once that page is answered |
| Session.CheckData.constructor | HeadphoneCheck.js:27-35 | the record starts on page 0 with empty trial, id, score and response lists, no calibration and page count 0 |
| Session.CheckData.ScoreTrial | HeadphoneCheck.js:531-538 | a defined response records its score (1 exactly when it equals the correct answer) and the response at the trial's position, and returns the score; an undefined response changes nothing; no other entry changes |
| Session.CheckData.AssignTrials | HeadphoneCheck.js:558-563 | installs the trial list, its id list and an all-unset score list of the same length |
| Session.CheckData.ShuffleTrials | HeadphoneCheck.js:555-564 | builds the trial list either from n draws with replacement, leaving the pool unchanged, or as the clamped prefix of the pool shuffled in place; the ids are 'trial' + i + '-src' + id, one per trial, and every score is unset |
| Session.CheckData.FinishLoad | HeadphoneCheck.js:111-122 | keeps the calibration when calibration is on, sets lastPage = ceil(trials / trialsPerPage), and moves to calibration or to the first page |
| Session.CheckData.LoadSuccess | HeadphoneCheck.js:105-122 | the load handler as written: with shuffling on it builds the trial list (with replacement, or a shuffle of the pool in place) and yields a valid session from a non-empty pool; with shuffling off it leaves the trial list as it was; it sets the page count and the next stage |
| Session.CheckData.LoadSuccessInOrder | HeadphoneCheck.js:108-114 | the corrected load handler: with shuffling off, the trials are the first totalTrials stimuli in pool order; any non-empty pool yields a valid session |
| Session.CheckData.ScorePage | HeadphoneCheck.js:193-197 | grades positions pageNum * trialsPerPage + i for i < trialsPerPage from the selections; an unanswered position, or one past the list, is left as it was |
| Session.CheckData.Continue | HeadphoneCheck.js:191-217 | the Continue handler as written: counts the page's answers, grades the page, then completes on the last page, advances pageNum by exactly 1 when the count reaches trialsPerPage, and otherwise warns; it keeps the session invariant |
| Session.CheckData.ContinueChecked | HeadphoneCheck.js:198-216 | the corrected handler, which checks that the page is answered on every page: it keeps the session invariant, and a completed check has every trial scored |
| Session.PageStartPlayable | HeadphoneCheck.js:410-417 | in a valid session, the first trial of the page shown can always be played: its predecessor lies on an earlier page and is scored |
| Session.ShuffleOffLeavesNoPage | HeadphoneCheck.js:108-114 | with shuffling off, the handler as written leaves a fresh session with no trials and page count 0, which is not a valid session |

## Left out

- DOM rendering and styling are not modelled: page and trial markup, calibration markup, response warnings, page teardown and border colours. A warning is the `ResponsesMissing` outcome.
- Audio playback is not modelled: the play/ended wiring after the gate, `playCalibration`, `st_isPlaying` and `disableClick`. These are browser audio callbacks.
- The AJAX fetch in `loadStimuli` is not modelled. The success handler takes the pool and the calibration as inputs. `jsonData` is not kept, since nothing in the core reads it.
- Persistence is not modelled: `restoreProgress`, `storeProgress` and `isStorageAvailable`. They are browser storage and JSON serialisation.
- jQuery events and `console` logging are not modelled. The events the load handler fires are the returned `Stage`.
- `Math.random` and the floating-point `floor` are replaced by the integer draw oracle. So is the statistical check with 10,000 draws in the sampling helpers, which cannot be verified.
- `parseAudioType` is not modelled. It is marked as not working and no core code calls it.
- The example user code at the end of the main file is not modelled.
- Option values hold a number, a flag or a text only. `Configuration.ToConfig` requires every option to hold a value of its default's kind. Overrides of another JavaScript type are not modelled.
- Numeric options are integers (`Value.Number` holds an `int`). For `correctThreshold` nothing is lost. A fractional threshold t behaves as its ceiling, both in the guard `correctThreshold > totalTrials` (HeadphoneCheck.js:396) and in `totalCorrect >= correctThreshold` (HeadphoneCheck.js:512), because the other side of each comparison is an integer. Fractional `totalTrials` or `trialsPerPage` are not modelled. Examples are `slice(0, n)` truncating a fractional sample size (HeadphoneCheck.js:619) and the non-integer positions `pageNum * trialsPerPage + i` (HeadphoneCheck.js:158).
- The loose `==` in grading is modelled as string equality. A JSON `correct` value that is a number is taken in its string form.
- JsStrings.ToNumber: covers only what the gate needs. Decimal digit runs convert, the empty text gives 0, and anything else is NaN. JavaScript's signs, fractions, exponents, surrounding whitespace and hexadecimal forms are not modelled.
- Sampling.SampleWithReplacement, Session.CheckData.ShuffleTrials, Session.CheckData.LoadSuccess and Session.CheckData.LoadSuccessInOrder: require a non-empty pool when sampling with replacement with n > 0. On an empty pool the source pushes `undefined` samples, and reading their `id` in `shuffleTrials` then throws.
- Session.CheckData.ScoreTrial: requires the position to lie inside the score list when the response is defined. JavaScript would grow the array. The Continue handler only grades positions inside the list, because a position past it has no radio group and so reads as undefined.
- Paging.PageTrials: the window is bounded by the trial list's length. The page renderer bounds it by `totalTrials`, and the two agree whenever the list has `totalTrials` entries. When the list is shorter, the renderer reads `src` of a missing trial and throws. That crash is not modelled.
- Paging.PageStart and Paging.CeilDiv are defined by recursion rather than as a product and a rounded-up quotient. `Paging.PageStartIsProduct` and `Paging.CeilDivIsQuotient` prove that the definitions are equal.
- `headphoneCheckData.calibration` starts as `[]` and `lastPage` as `undefined`. The model starts them as `None` and 0.
- The session's scores are a sequence of optional scores, and its responses a map from position to answer. Neither models JavaScript's sparse arrays beyond that.

## Findings

| source | as written | input that shows it | evidently intended | confidence | as-written member | corrected member |
|---|---|---|---|---|---|---|
| HeadphoneCheck.js:409-411 | the previous index is computed from the text before the first '-' of the trial id, which is 'trialK'; 'trialK' - 1 is NaN, and NaN >= 0 is false, so the sequential gate never refuses | trial id 'trial2-src…' with sequential mode on and trial 1 neither answered nor scored: playback goes ahead | refuse trial K while trial K-1 has neither a response nor a score | not executed | Gate.GateAsWrittenNeverRefuses | Gate.CanPlay |
| HeadphoneCheck.js:198-208 | on the last page the click completes without consulting the answered-count check, so an unanswered trial counts as wrong | 2 trials, 1 per page, the second page left unanswered: the check completes | warn until every trial on the page is answered, on the last page as on the others | not executed | Paging.LastPageCompletesUnanswered | Session.CheckData.ContinueChecked |
| HeadphoneCheck.js:108-114 | with doShuffleTrials false, no trial list is built; stimDataList stays empty and lastPage becomes 0, so page 0 is past the end and rendering it reads a missing trial | doShuffleTrials false with any pool | take the pool's first totalTrials stimuli in order | not executed | Session.ShuffleOffLeavesNoPage | Session.CheckData.LoadSuccessInOrder |
