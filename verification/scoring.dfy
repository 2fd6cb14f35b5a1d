/** Per-example scoring of long and short answers against multi-rater gold
    labels: gold existence by rater vote, prediction existence, and exact
    correctness. */
module Scoring {
  import opened Raters
  import opened Spans

  /** One rater's gold annotation, or one system prediction, for one
      example (the evaluation's `NQLabel`). Scores matter only for
      predictions and serve only as an ordering key. */
  datatype Label = Label(
    exampleId: int,
    longSpan: ValidSpan,
    shortSpans: seq<ValidSpan>,
    yesNo: YesNo,
    longScore: real,
    shortScore: real)

  /** The tuple `(gold_has_answer, pred_has_answer, is_correct, score)`. */
  datatype AnswerStat = AnswerStat(hasGold: bool, hasPred: bool, isCorrect: bool, score: real)

  /** A correct answer is always both expected and given. */
  predicate Consistent(s: AnswerStat) {
    s.isCorrect ==> s.hasGold && s.hasPred
  }

  /** The evaluation's vote threshold: at least 2 agreeing raters. */
  const EvalMinVotes: nat := 2

  /** A rater votes for a long answer when its long span is not null. */
  predicate LongVote(g: Label) {
    !IsNull(g.longSpan)
  }

  /** A rater votes for a short answer when it gives a non-null span or a
      yes/no verdict. */
  predicate ShortVote(g: Label) {
    !IsNullSpanList(g.shortSpans) || g.yesNo != NoVerdict
  }

  /** Gold existence for long answers: a non-empty rater list with at least
      `minVotes` votes. It needs that many raters, and with a positive
      threshold some rater must vote. */
  predicate GoldHasLongAnswer(golds: seq<Label>, minVotes: nat)
    ensures GoldHasLongAnswer(golds, minVotes) ==> 0 < |golds| && minVotes <= |golds|
    ensures GoldHasLongAnswer(golds, minVotes) && minVotes > 0 ==>
      exists i :: 0 <= i < |golds| && LongVote(golds[i])
    ensures minVotes == 0 ==> (GoldHasLongAnswer(golds, minVotes) <==> |golds| > 0)
  {
    CountWherePositive(golds, LongVote);
    |golds| > 0 && CountWhere(golds, LongVote) >= minVotes
  }

  /** Gold existence for short answers: the same rule over short-answer
      votes. */
  predicate GoldHasShortAnswer(golds: seq<Label>, minVotes: nat)
    ensures GoldHasShortAnswer(golds, minVotes) ==> 0 < |golds| && minVotes <= |golds|
    ensures GoldHasShortAnswer(golds, minVotes) && minVotes > 0 ==>
      exists i :: 0 <= i < |golds| && ShortVote(golds[i])
    ensures minVotes == 0 ==> (GoldHasShortAnswer(golds, minVotes) <==> |golds| > 0)
  {
    CountWherePositive(golds, ShortVote);
    |golds| > 0 && CountWhere(golds, ShortVote) >= minVotes
  }

  /** The rater loop of `score_long_answer`: null rater spans are skipped,
      the others compared with `nonnull_span_equal`. */
  function LongMatch(golds: seq<Label>, span: Span): (r: bool)
    requires !IsNull(span)
    ensures r <==> exists i :: 0 <= i < |golds| && golds[i].longSpan == span
  {
    if |golds| == 0 then false
    else if IsNull(golds[0].longSpan) then
      assert forall i :: 1 <= i < |golds| ==> golds[i] == golds[1..][i - 1];
      LongMatch(golds[1..], span)
    else
      assert forall i :: 1 <= i < |golds| ==> golds[i] == golds[1..][i - 1];
      NonnullSpanEqual(golds[0].longSpan, span) || LongMatch(golds[1..], span)
  }

  /** `score_long_answer`. A prediction is correct when a long answer is
      expected and predicted and some rater gave exactly the predicted span;
      that rater need not agree with the others. */
  function ScoreLongAnswer(golds: seq<Label>, pred: Label, minVotes: nat): (r: AnswerStat)
    ensures r.hasGold <==> |golds| > 0 && CountWhere(golds, LongVote) >= minVotes
    ensures r.hasPred <==> !IsNull(pred.longSpan)
    ensures r.isCorrect <==>
      r.hasGold && r.hasPred && exists i :: 0 <= i < |golds| && golds[i].longSpan == pred.longSpan
    ensures r.score == pred.longScore
    ensures Consistent(r)
  {
    var hasGold := GoldHasLongAnswer(golds, minVotes);
    var hasPred := !IsNull(pred.longSpan);
    var isCorrect := hasGold && hasPred && LongMatch(golds, pred.longSpan);
    AnswerStat(hasGold, hasPred, isCorrect, pred.longScore)
  }

  /** The yes/no loop of `score_short_answer`: some rater gave verdict `v`. */
  function VerdictMatch(golds: seq<Label>, v: YesNo): (r: bool)
    ensures r <==> exists i :: 0 <= i < |golds| && golds[i].yesNo == v
  {
    if |golds| == 0 then false
    else
      assert forall i :: 1 <= i < |golds| ==> golds[i] == golds[1..][i - 1];
      golds[0].yesNo == v || VerdictMatch(golds[1..], v)
  }

  /** The span loop of `score_short_answer`: some rater's span list is
      set-equal to `spans`. */
  function SpanListMatch(golds: seq<Label>, spans: seq<Span>): (r: bool)
    ensures r <==> exists i :: 0 <= i < |golds| && SpanSet(golds[i].shortSpans) == SpanSet(spans)
  {
    if |golds| == 0 then false
    else
      assert forall i :: 1 <= i < |golds| ==> golds[i] == golds[1..][i - 1];
      SpanSetEqual(golds[0].shortSpans, spans) || SpanListMatch(golds[1..], spans)
  }

  /** `score_short_answer`. A predicted verdict is matched against the
      raters' verdicts only; otherwise the predicted span list is matched
      as a whole set against each rater's list. */
  function ScoreShortAnswer(golds: seq<Label>, pred: Label, minVotes: nat): (r: AnswerStat)
    ensures r.hasGold <==> |golds| > 0 && CountWhere(golds, ShortVote) >= minVotes
    ensures r.hasPred <==>
      pred.yesNo != NoVerdict || exists i :: 0 <= i < |pred.shortSpans| && !IsNull(pred.shortSpans[i])
    ensures r.isCorrect <==>
      && r.hasGold
      && r.hasPred
      && if pred.yesNo != NoVerdict then
           exists i :: 0 <= i < |golds| && golds[i].yesNo == pred.yesNo
         else
           exists i :: 0 <= i < |golds| && SpanSet(golds[i].shortSpans) == SpanSet(pred.shortSpans)
    ensures r.score == pred.shortScore
    ensures Consistent(r)
  {
    var hasGold := GoldHasShortAnswer(golds, minVotes);
    var hasPred := !IsNullSpanList(pred.shortSpans) || pred.yesNo != NoVerdict;
    var isCorrect :=
      && hasGold
      && hasPred
      && if pred.yesNo != NoVerdict then VerdictMatch(golds, pred.yesNo)
         else SpanListMatch(golds, pred.shortSpans);
    AnswerStat(hasGold, hasPred, isCorrect, pred.shortScore)
  }

  /** A correct long prediction reproduces a rater that itself voted for a
      long answer: correctness never comes from a rater without one. */
  lemma LongCorrectMatchesVotingRater(golds: seq<Label>, pred: Label, minVotes: nat)
    requires ScoreLongAnswer(golds, pred, minVotes).isCorrect
    ensures exists i :: 0 <= i < |golds| && LongVote(golds[i]) && golds[i].longSpan == pred.longSpan
  {
  }

  /** A correct short prediction reproduces a rater that itself voted for a
      short answer, with the same kind of answer (verdict or spans). */
  lemma ShortCorrectMatchesVotingRater(golds: seq<Label>, pred: Label, minVotes: nat)
    requires ScoreShortAnswer(golds, pred, minVotes).isCorrect
    ensures exists i :: (
      && 0 <= i < |golds|
      && ShortVote(golds[i])
      && if pred.yesNo != NoVerdict then golds[i].yesNo == pred.yesNo
         else !IsNullSpanList(golds[i].shortSpans) && SpanSet(golds[i].shortSpans) == SpanSet(pred.shortSpans))
  {
    if pred.yesNo == NoVerdict {
      var j :| 0 <= j < |pred.shortSpans| && !IsNull(pred.shortSpans[j]);
      var i :| 0 <= i < |golds| && SpanSet(golds[i].shortSpans) == SpanSet(pred.shortSpans);
      assert pred.shortSpans[j] in SpanSet(golds[i].shortSpans);
    }
  }

  /** With a predicted verdict, the predicted span list plays no part. */
  lemma VerdictIgnoresPredictedSpans(golds: seq<Label>, pred: Label, spans: seq<ValidSpan>, minVotes: nat)
    requires pred.yesNo != NoVerdict
    ensures ScoreShortAnswer(golds, pred.(shortSpans := spans), minVotes) == ScoreShortAnswer(golds, pred, minVotes)
  {
  }

  /** Scores depend on the multiset of raters, not on their order. */
  lemma ScoresIgnoreRaterOrder(golds: seq<Label>, golds': seq<Label>, pred: Label, minVotes: nat)
    requires multiset(golds) == multiset(golds')
    ensures ScoreLongAnswer(golds, pred, minVotes) == ScoreLongAnswer(golds', pred, minVotes)
    ensures ScoreShortAnswer(golds, pred, minVotes) == ScoreShortAnswer(golds', pred, minVotes)
  {
    CountWherePermutation(golds, golds', LongVote);
    CountWherePermutation(golds, golds', ShortVote);
    assert |golds| == |multiset(golds)| == |golds'|;
    assert forall g :: g in golds <==> g in golds' by {
      forall g ensures g in golds <==> g in golds' {
        assert g in golds <==> g in multiset(golds);
        assert g in golds' <==> g in multiset(golds');
      }
    }
    var l, l' := ScoreLongAnswer(golds, pred, minVotes), ScoreLongAnswer(golds', pred, minVotes);
    if l.isCorrect {
      var i :| 0 <= i < |golds| && golds[i].longSpan == pred.longSpan;
      assert golds[i] in golds';
    }
    if l'.isCorrect {
      var i :| 0 <= i < |golds'| && golds'[i].longSpan == pred.longSpan;
      assert golds'[i] in golds;
    }
    var s, s' := ScoreShortAnswer(golds, pred, minVotes), ScoreShortAnswer(golds', pred, minVotes);
    if s.isCorrect {
      var i :| 0 <= i < |golds|
        && (if pred.yesNo != NoVerdict then golds[i].yesNo == pred.yesNo else SpanSet(golds[i].shortSpans) == SpanSet(pred.shortSpans));
      assert golds[i] in golds';
    }
    if s'.isCorrect {
      var i :| 0 <= i < |golds'|
        && (if pred.yesNo != NoVerdict then golds'[i].yesNo == pred.yesNo else SpanSet(golds'[i].shortSpans) == SpanSet(pred.shortSpans));
      assert golds'[i] in golds;
    }
  }

  /** Raising the vote threshold never creates a gold answer. */
  lemma StricterThresholdNeverAddsGold(golds: seq<Label>, pred: Label, lo: nat, hi: nat)
    requires lo <= hi
    ensures ScoreLongAnswer(golds, pred, hi).hasGold ==> ScoreLongAnswer(golds, pred, lo).hasGold
    ensures ScoreShortAnswer(golds, pred, hi).hasGold ==> ScoreShortAnswer(golds, pred, lo).hasGold
  {
  }
}
