# Natural Questions: evaluation scoring and example browser, modelled in Dafny

This project models two parts of the Natural Questions tooling.

**Evaluation.** The first part covers spans, per-example scoring and the precision/recall curve:
- A `Span` has a byte pair and a token pair. A negative bound means that coordinate is absent.
- Construction refuses a pair that is half-absent or that does not end after it starts.
- Two non-null spans are equal when all four fields agree (a choice; see "## Left out"). Lists of spans are compared as sets, with null spans ignored.
- `score_long_answer` and `score_short_answer` decide three things against five raters' gold labels: whether a gold answer exists (at least two raters vote), whether the prediction gives an answer, and whether it is exactly right.
- `compute_pr_curves` turns the per-example statistics, sorted by score, into two results: the best-F1 point, and the best recall at each target precision.

**Browser.** The second part is the logic of the example browser (`nq_browser.py`):
- gold existence by rater vote, under the training policy (one annotation) or the development policy (five annotations, two must agree);
- the qualifying raters' long answers, short answers and yes/no verdicts;
- the most frequent long and short answer, with ties going to the first occurrence;
- classification of the top-level long-answer candidates;
- the loading fold, with its mode filter and its cut-off at `max_examples`.

The evaluation implementation files `eval_utils.py` and `nq_eval.py` are not part of this model; the evaluation modules (`Spans`, `Scoring`, `PrCurve`) follow the behaviour that their tests (`eval_utils_test.py`, `nq_eval_test.py`) fix. Where those tests leave a behaviour open, the model makes a choice, and each such choice is listed under "## Left out". Each test is restated as a lemma in `EvalCases` over the general definitions.

Files:
- `wrappers.dfy`: the `Option` and `Result` types.
- `raters.dfy`: the `YesNo` verdict and vote counting (`CountWhere`), with its algebra.
- `spans.dfy`: spans, construction and equality.
- `scoring.dfy`: labels, answer statistics and both scorers.
- `pr_curve.dfy`: the curve as a specification, and its loop implementation.
- `browser.dfy`: the browser.
- `eval_cases.dfy`: the evaluation tests as lemmas.

## Model

| member | source | states |
|---|---|---|
| Spans.MakeSpan | eval_utils_test.py:29-33 | Construction succeeds exactly when both coordinate pairs are absent-or-ordered, and then yields those fields. It reports the inconsistent-null error exactly when some pair is half-absent. |
| EvalCases.ConstructionRefusesBadSpans | eval_utils_test.py:29-33 | `Span(-1,1,-1,1)` and `Span(-1,-1,-1,1)` are refused as inconsistent nulls. `Span(-1,-1,3,1)` is refused as reversed. |
| Spans.IsNull | eval_utils_test.py:35-38 | A null span (all bounds negative) always meets the construction invariant. On a constructed span, being null is the same as both start bounds being absent. |
| Spans.IsNullSpanList | nq_eval_test.py:79-103 | A span list gives no answer exactly when it has no non-null member, so a rater listing only the null span gives none. |
| EvalCases.NullSpanCases | eval_utils_test.py:35-38 | The all-absent span is null. A span with a token pair present is not. |
| Spans.NonnullSpanEqual | eval_utils_test.py:40-52 | Two non-null spans are equal exactly when all four fields agree. |
| EvalCases.SpanEqualCases | eval_utils_test.py:40-52 | Byte-only spans with equal fields are equal, and so are token-only ones. A byte-only span never equals a token-only span with the same numbers. |
| Spans.DropNulls | eval_utils_test.py:54-67 | The result contains no null span, and holds exactly the non-null members of the input. |
| Spans.AnyEqual | eval_utils_test.py:54-67 | The membership test over non-null spans is list membership. |
| Spans.AllFound | eval_utils_test.py:54-67 | The result holds exactly when every span of one list occurs in the other. |
| Spans.SpanSetEqual | eval_utils_test.py:54-67 | Two span lists are set-equal exactly when their sets of non-null members coincide, so order, duplicates and nulls are irrelevant. |
| EvalCases.SpanSetEqualCases | eval_utils_test.py:54-67 | Equal lists are set-equal, and so is a list with an extra null. A strict subset is not. |
| Scoring.GoldHasLongAnswer | nq_eval_test.py:45-73 | A gold long answer needs a non-empty rater list with at least the threshold of raters. With a positive threshold some rater votes. With a zero threshold any rater list qualifies. |
| Scoring.GoldHasShortAnswer | nq_eval_test.py:75-171 | The same three facts for short-answer votes. |
| Scoring.LongMatch | nq_eval_test.py:45-73 | Some rater's long span equals the predicted non-null span, exactly when the rater loop reports a match. |
| Scoring.ScoreLongAnswer | nq_eval_test.py:45-73 | Gold exists iff there are raters and at least `minVotes` of them give a non-null long span. A prediction exists iff its span is not null. Correct iff both exist and some rater gave exactly the predicted span. The statistic is always consistent. |
| EvalCases.LongOneRaterIsNoGold | nq_eval_test.py:45-59 | One non-null rater out of five gives no gold answer, so an identical prediction is not correct. |
| EvalCases.LongTwoRatersMatchEither | nq_eval_test.py:61-73 | Two raters on different spans make a gold answer. A prediction equal to either one is correct. |
| Scoring.VerdictMatch | nq_eval_test.py:139-171 | Some rater gave the verdict, exactly when the verdict loop matches. |
| Scoring.SpanListMatch | nq_eval_test.py:105-137 | Some rater's span list is set-equal to the predicted one, exactly when the span loop matches. |
| Scoring.ScoreShortAnswer | nq_eval_test.py:75-171 | Gold exists iff at least `minVotes` raters give a non-null span or a verdict. A prediction exists iff it has a verdict or a non-null span. Correct iff both exist and either some rater has the predicted verdict, or, with no predicted verdict, some rater's span set equals the predicted span set. |
| Scoring.LongCorrectMatchesVotingRater | nq_eval_test.py:61-73 | A correct long prediction reproduces a rater that itself voted for a long answer. |
| Scoring.ShortCorrectMatchesVotingRater | nq_eval_test.py:105-171 | A correct short prediction reproduces a voting rater with the same kind of answer: the same verdict, or a non-null span set equal to the predicted one. |
| Scoring.VerdictIgnoresPredictedSpans | nq_eval_test.py:139-171 | With a predicted verdict, replacing the predicted spans leaves the short-answer statistic unchanged. |
| Scoring.ScoresIgnoreRaterOrder | nq_eval_test.py:45-171 | Both scorers give the same statistic for any reordering of the raters. |
| Scoring.StricterThresholdNeverAddsGold | nq_eval_test.py:45-171 | A higher vote threshold never turns a no-gold example into a gold one. |
| EvalCases.ShortVotesOfRaters | nq_eval_test.py:79-94 | A rater with non-null spans votes, and so does a rater with a verdict. A rater with only a null span does not. |
| EvalCases.ShortOneRaterIsNoGold | nq_eval_test.py:79-103 | One answering rater out of five gives no gold short answer, even with an exact predicted match. |
| EvalCases.ShortTwoRatersWholeSetMatch | nq_eval_test.py:105-137 | Two raters with the same span set make a gold answer. The whole set predicted is correct. A strict subset of it is not. |
| EvalCases.ShortVerdictMatch | nq_eval_test.py:139-171 | A verdict rater plus a span rater make a gold answer. A predicted "yes" matches the "yes" rater. A predicted "no" is incorrect. |
| Raters.CountWherePermutation | nq_eval_test.py:45-171 | A vote count depends only on the multiset of raters. |
| Raters.CountWherePositive | nq_browser.py:251-255 | A vote count is positive exactly when some rater votes. |
| Raters.CountWhereMonotone | nq_browser.py:114-122 | A vote implied rater by rater by another vote never counts more. |
| PrCurve.BestUpToIsBest | nq_eval_test.py:173-187 | The best point has the largest F1 among curve points, and every earlier curve point has a strictly smaller F1, so the first best wins. Without a positive F1 it stays all zeros. |
| PrCurve.TargetUpToIsBest | nq_eval_test.py:189-196 | For each target, the reported recall is the largest among curve points whose precision reaches the target, taken from the first such point. With no qualifying point of positive recall, the entry is `(target, 0, 0, no threshold)`. |
| PrCurve.PrCurves | nq_eval_test.py:182-196 | One entry per target, in the caller's order, each carrying its target. |
| PrCurve.TargetMonotone | nq_eval_test.py:189-196 | A stricter target never reports a larger recall. |
| PrCurve.PrCurvesRecallMonotone | nq_eval_test.py:189-196 | Within one result, a higher target's recall is at most a lower target's. |
| PrCurve.CountGold | nq_eval_test.py:176-184 | The loop's gold total equals the number of statistics that have gold. |
| PrCurve.PrefixPoints | nq_eval_test.py:176-184 | The running totals give, after each prefix, correct over predicted (precision) and correct over all gold (recall), at that prefix's last score. |
| PrCurve.UpdateTargets | nq_eval_test.py:189-196 | Comparing one curve point with every target advances each target's answer by exactly that point. |
| PrCurve.ComputePrCurves | nq_eval_test.py:176-196 | The loop implementation returns exactly the curve specification `PrCurves`. |
| PrCurve.PointBounds | nq_eval_test.py:176-187 | With consistent statistics, precision and recall lie in [0, 1]. |
| PrCurve.RecallNondecreasing | nq_eval_test.py:176-187 | Admitting more of the ranked predictions never lowers recall. |
| EvalCases.PrCurveCase | nq_eval_test.py:173-196 | On the test's two statistics, the best point has precision 0.5 and recall 1. The 0.5 target gets recall 1 and the 0.75 and 0.9 targets get none, in that order. |
| Browser.MakeCandidate | nq_browser.py:69-82 | The style is "is answer" exactly when the candidate is the answer, and "not answer" exactly when it neither is nor contains one. The flags and index are kept. |
| Browser.LongAnswersOf | nq_browser.py:124-128 | One entry per rater with a long answer (start byte not negative). Every such rater's answer is present and every entry comes from such a rater. |
| Browser.LongAnswersOfAppend | nq_browser.py:124-128 | The filter distributes over concatenation of rater groups. With `SingleRaterAnswers`, this fixes the result as the qualifying answers in rater order, with multiplicity. |
| Browser.ShortAnswersOf | nq_browser.py:129-133 | One entry per rater with a non-empty short-answer list. Every such list is present and every entry is some rater's list. |
| Browser.ShortAnswersOfAppend | nq_browser.py:129-133 | The short-answer filter distributes over concatenation of rater groups, so it keeps rater order and multiplicity. |
| Browser.YesNoAnswersOf | nq_browser.py:134-138 | One entry per rater whose verdict is not "NONE". Each such verdict is present and every entry is some rater's verdict. |
| Browser.YesNoAnswersOfAppend | nq_browser.py:134-138 | The verdict filter distributes over concatenation of rater groups, so it keeps rater order and multiplicity. |
| Browser.SingleRaterAnswers | nq_browser.py:124-138 | A single rater contributes its own long answer, span list or verdict exactly when it gives one. |
| Browser.ShortVotesAreShown | nq_browser.py:118-138 | Every short-answer vote contributes a span list or a verdict, so the displayed choices are never fewer than the votes. |
| Browser.ArgMax | nq_browser.py:147 | `np.argmax`: the index holds a maximum value and every earlier index holds a strictly smaller one. |
| Browser.OccurrencesIsMultiplicity | nq_browser.py:144-146 | Counting equal elements from the front, as `list.count` does, gives the element's multiplicity. |
| Browser.Counts | nq_browser.py:144-146 | Built from `list.count`-style counting, each position holds the multiplicity of its element. |
| Browser.MostFrequentIndex | nq_browser.py:140-171 | The chosen answer is a most frequent one, and no earlier position holds the same answer. |
| Browser.ModalPickUnique | nq_browser.py:140-171 | At most one index is the first most frequent answer, so the choice is determined. |
| Browser.MostFrequentCases | nq_browser.py:140-147 | The majority answer wins. On a tie, the first answer wins. |
| Browser.AnyExact | nq_browser.py:237-239 | Holds exactly when some long answer has the candidate's start and end bytes. |
| Browser.AnyEnclosed | nq_browser.py:240-242 | Holds exactly when some long answer lies within the candidate's bytes. |
| Browser.TopLevel | nq_browser.py:228 | Keeps the top-level candidates only, one per top-level input. |
| Browser.TopLevelAppend | nq_browser.py:228 | The filter distributes over concatenation. With `TopLevelSingle`, this fixes the result as the top-level candidates in input order. |
| Browser.TopLevelSingle | nq_browser.py:228 | A single candidate is kept exactly when it is top-level. |
| Browser.GetCandidates | nq_browser.py:218-248 | One candidate per top-level JSON candidate, numbered from 0. It is the answer iff a long answer exists and one has exactly its bytes. It contains the answer iff a long answer exists and one lies within its bytes. |
| Browser.CandidateStyles | nq_browser.py:69-82 | An answer candidate also contains the answer. "Not answer" is the style exactly when no answer is contained. Without a long answer, every candidate is "not answer". |
| Browser.AnswerIndices | nq_browser.py:181-183 | Increasing indices, exactly those of the candidates containing an answer. |
| Browser.ExampleOf | nq_browser.py:102-113 | Construction fails exactly when the number of annotations differs from the policy's. It keeps the example id. |
| Browser.BuildExample | nq_browser.py:88-97 | The built example carries the line's id. |
| Browser.ExampleOfContents | nq_browser.py:102-183 | Long answer: it exists iff at least `minVotes` raters give one, and its list is empty otherwise. The displayed answer is the first most frequent one by byte key. Short answer: the same rules over span lists and verdicts, with the choice counted over span-key lists followed by verdicts. Candidates and their answer indices come from the kept long answers. |
| Browser.TrainPolicyIsSingleRater | nq_browser.py:102-109 | Under the training policy, the example's flags are its single annotation's own flags. |
| Browser.AnyRaterHasLong | nq_browser.py:251-255 | The module-level long-answer filter holds exactly when the long-answer vote count is positive. |
| Browser.AnyRaterHasShortSpans | nq_browser.py:258-262 | The module-level short-answer filter holds exactly when the count of raters listing short spans is positive. Verdicts do not count. |
| Browser.SelectedMeaning | nq_browser.py:278-284 | Every line is kept in the default mode. The long-answers mode keeps a line exactly when its list of raters' long answers is non-empty. The short-answers mode keeps it exactly when its list of raters' short-answer lists is non-empty. |
| Browser.LongAnswerPassesFilter | nq_browser.py:114-117 | An example with enough long-answer votes shows a long answer, and always passes the long-answers mode filter (`has_long_answer`, lines 251-255). |
| Browser.VerdictOnlyIsFilteredOut | nq_browser.py:258-262 | An example whose only short answer is a verdict has a short answer, yet the short-answers mode filter drops it. |
| Browser.LoadFrom | nq_browser.py:275-290 | With a positive cut-off the load never exceeds it. Entries already loaded keep their keys. A failure comes from some kept line with the wrong annotation count. |
| Browser.LoadFromProvenance | nq_browser.py:278-287 | Every entry was either already loaded or was built from a kept line carrying its id. |
| Browser.LoadFromComplete | nq_browser.py:278-290 | When the load ends below the cut-off, every kept line's id is present and no kept line had the wrong annotation count. |
| Browser.LoadExamples | nq_browser.py:265-298 | Loading from an empty dictionary respects the cut-off and fails only on a kept line with the wrong annotation count. Without a positive cut-off, it fails exactly when some kept line has the wrong count. |
| Browser.LoadExamplesContents | nq_browser.py:265-298 | Every loaded example was built from a kept line with its id. Below the cut-off, every kept line is loaded and none was malformed. |
| Browser.LoadFromAppend | nq_browser.py:275-290 | Loading `a + b` is loading `a` and then, unless that failed or already holds a positive cut-off's worth of examples, loading `b` from what `a` left. Reading stops at the cut-off. |
| Browser.LoadStopsAtCutOff | nq_browser.py:289-290 | Once the lines read so far fill a positive cut-off, the lines after them change nothing. They add no entry, and a malformed one does not abort the load. |
| Browser.CutOffKeepsFirstIds | nq_browser.py:275-290 | With a cut-off of two, three good lines load ids 1 and 2 only. A malformed third line is never read, so the load succeeds. |
| Browser.LoadFromSingle | nq_browser.py:278-290 | A line the mode filters out leaves the loaded examples unchanged. A malformed kept line fails the load. A well-formed kept line is stored under its id, replacing an earlier example with that id. |
| Browser.LaterLineReplaces | nq_browser.py:285-287 | Of two kept lines with the same id, the later line's example is the one loaded. |
| Browser.LaterMalformedLineRaises | nq_browser.py:102-105 | A malformed line after a good one with the same id still aborts the load (lines 286-290). |

Design points of the model:
- `max_examples` is compared only after an insertion. A non-positive value therefore never stops the load, and the model keeps that behaviour.
- The Python module uses `'NONE'` in browser data and `'none'` in evaluation labels. Both are the single `YesNo.NoVerdict` here.
- Recall divides by all gold answers. A point replaces the best so far only with a strictly larger F1, or, for a target, a strictly larger recall.
- The curve test sorts the statistics by descending score before the call (`nq_eval_test.py:180`). The model states that as the precondition `SortedByScore`.

## Left out

- Reading and decompressing jsonlines files, JSON parsing, the HTTP server, templates and command-line flags. These are I/O; the flags become the `Dataset`, `Mode` and `maxExamples` parameters.
- Rendering: `render_long_answer`, `render_span`, the HTML and token text of candidates, `short_answers_texts` and the titles. These are string presentation with no logic to verify beyond slicing.
- The base64 encoding of example ids. It is injective, so keying the map by the raw id gives the same grouping.
- The evaluation's reading of prediction files, missing predictions, the sort inside the evaluation, and the aggregate F1 report. `nq_eval.py` is not part of this model; only its per-example scorers and curve, as the tests fix them, are.
- Bounds on F1 itself. The precision and recall bounds are proved (`PointBounds`); the harmonic-mean bound is left out because it needs nonlinear real arithmetic.
- PrCurve.IsCut: the curve keeps one point per distinct score, holding the totals after the last statistic with that score. The tests do not fix how tied scores are treated. The alternative is one point per prefix; the two differ only when scores tie.
- PrCurve.PointAt: precision divides the correct answers by the statistics with a prediction seen so far. The alternative divides by all statistics seen so far. The tests do not fix this, and the two differ only when a statistic without a prediction is ranked.
- Scoring.ScoreShortAnswer: with no predicted verdict, a span-set match is accepted against any rater, including one that also gave a verdict. The alternative requires the matching rater to have no verdict. The tests do not fix this. A rater's short vote uses "has a non-null span" rather than "has a non-empty list"; that choice is forced by the test at nq_eval_test.py:79-103.
- Spans.NonnullSpanEqual: two non-null spans are equal only when all four fields agree. The tests at eval_utils_test.py:40-52 compare only spans with a single present pair. The alternative, equal when some present pair agrees, fits them equally well; the two differ only on spans with both pairs present and one pair different.
- Spans.MakeSpan: a present pair must end strictly after it starts, so an empty range (start equal to end) is refused as reversed. The tests at eval_utils_test.py:29-33 refuse only an end before the start. The alternative accepts an empty range.
- Scoring.ScoreShortAnswer: a predicted span list holding only null spans, with no verdict, counts as no prediction. Every prediction in nq_eval_test.py:96-171 has a non-null span or a verdict. The alternative counts any non-empty list as a prediction.
- Scoring.GoldHasLongAnswer: an empty rater list gives "no gold answer" rather than an error, and so does `Scoring.GoldHasShortAnswer`. No test scores an example without raters. The alternative refuses such an input.
- Browser.ExampleOf: its own contract states only the failure condition and the id. The contents are stated by `ExampleOfContents`.
- PrCurve.PrCurves: its own contract states only the shape. The optimality of each part is stated by `BestUpToIsBest` and `TargetUpToIsBest`.
