/** The worked cases of the evaluation's unit tests, proved of the model. */
module EvalCases {
  import opened Wrappers
  import opened Raters
  import opened Spans
  import opened Scoring
  import opened PrCurve

  /** A token-only span `(start, end)`, or the null span for `(-1, -1)`. */
  function TokenSpan(start: int, end: int): (s: ValidSpan)
    requires (start == -1 && end == -1) || 0 <= start < end
    ensures !IsNull(s) <==> start >= 0
  {
    Span(-1, -1, start, end)
  }

  /** A label carrying spans and no verdict, with zero scores. */
  function SpanLabel(long: ValidSpan, shorts: seq<ValidSpan>): Label {
    Label(0, long, shorts, NoVerdict, 0.0, 0.0)
  }

  /** A label carrying a verdict and no short spans, with zero scores. */
  function VerdictLabel(long: ValidSpan, v: YesNo): Label {
    Label(0, long, [], v, 0.0, 0.0)
  }

  /** Half-absent pairs and a reversed pair are refused. */
  lemma ConstructionRefusesBadSpans()
    ensures MakeSpan(-1, 1, -1, 1) == Failure(InconsistentNull)
    ensures MakeSpan(-1, -1, -1, 1) == Failure(InconsistentNull)
    ensures MakeSpan(-1, -1, 3, 1) == Failure(InvalidOrder)
    ensures MakeSpan(100, 102, -1, -1) == Success(Span(100, 102, -1, -1))
  {
  }

  /** Only the all-absent span is null; one present pair suffices. */
  lemma NullSpanCases()
    ensures IsNull(Span(-1, -1, -1, -1))
    ensures !IsNull(Span(-1, -1, 0, 1))
  {
  }

  /** Equal fields are equal whichever pair is present; the same numbers in
      the other pair are not. */
  lemma SpanEqualCases()
    ensures NonnullSpanEqual(Span(100, 102, -1, -1), Span(100, 102, -1, -1))
    ensures NonnullSpanEqual(Span(-1, -1, 100, 102), Span(-1, -1, 100, 102))
    ensures !NonnullSpanEqual(Span(100, 102, -1, -1), Span(-1, -1, 100, 102))
  {
  }

  /** Set equality compares contents, ignores nulls, and rejects a subset. */
  lemma SpanSetEqualCases()
    ensures SpanSetEqual([Span(-1, -1, 100, 102), Span(-1, -1, 101, 105)],
                         [Span(-1, -1, 100, 102), Span(-1, -1, 101, 105)])
    ensures SpanSetEqual([Span(-1, -1, 100, 102), Span(-1, -1, 101, 105)],
                         [Span(-1, -1, 100, 102), Span(-1, -1, 101, 105), NullSpan])
    ensures !SpanSetEqual([Span(-1, -1, 100, 102)],
                          [Span(-1, -1, 100, 102), Span(-1, -1, 101, 105), NullSpan])
  {
    var b := Span(-1, -1, 101, 105);
    assert b in SpanSet([Span(-1, -1, 100, 102), Span(-1, -1, 101, 105), NullSpan]);
    assert b !in SpanSet([Span(-1, -1, 100, 102)]);
  }

  /** One non-null rater out of five is no gold long answer, so even an
      identical prediction is not correct. */
  lemma LongOneRaterIsNoGold()
    ensures ScoreLongAnswer(
      [SpanLabel(TokenSpan(0, 10), []), SpanLabel(NullSpan, []), SpanLabel(NullSpan, []),
       SpanLabel(NullSpan, []), SpanLabel(NullSpan, [])],
      SpanLabel(TokenSpan(0, 10), []), EvalMinVotes)
      == AnswerStat(false, true, false, 0.0)
  {
    var golds := [SpanLabel(TokenSpan(0, 10), []), SpanLabel(NullSpan, []), SpanLabel(NullSpan, []),
                  SpanLabel(NullSpan, []), SpanLabel(NullSpan, [])];
    assert CountWhere(golds[4..], LongVote) == 0;
    assert CountWhere(golds[3..], LongVote) == 0;
    assert CountWhere(golds[2..], LongVote) == 0;
    assert CountWhere(golds[1..], LongVote) == 0;
  }

  /** Two non-null raters on different spans make a gold long answer, and
      a prediction equal to either one is correct. */
  lemma LongTwoRatersMatchEither()
    ensures ScoreLongAnswer(
      [SpanLabel(TokenSpan(0, 10), []), SpanLabel(TokenSpan(0, 9), []), SpanLabel(NullSpan, []),
       SpanLabel(NullSpan, []), SpanLabel(NullSpan, [])],
      SpanLabel(TokenSpan(0, 10), []), EvalMinVotes)
      == AnswerStat(true, true, true, 0.0)
    ensures ScoreLongAnswer(
      [SpanLabel(TokenSpan(0, 10), []), SpanLabel(TokenSpan(0, 9), []), SpanLabel(NullSpan, []),
       SpanLabel(NullSpan, []), SpanLabel(NullSpan, [])],
      SpanLabel(TokenSpan(0, 9), []), EvalMinVotes)
      == AnswerStat(true, true, true, 0.0)
  {
    var golds := [SpanLabel(TokenSpan(0, 10), []), SpanLabel(TokenSpan(0, 9), []), SpanLabel(NullSpan, []),
                  SpanLabel(NullSpan, []), SpanLabel(NullSpan, [])];
    assert CountWhere(golds[4..], LongVote) == 0;
    assert CountWhere(golds[3..], LongVote) == 0;
    assert CountWhere(golds[2..], LongVote) == 0;
    assert CountWhere(golds[1..], LongVote) == 1;
    assert golds[0].longSpan == TokenSpan(0, 10);
    assert golds[1].longSpan == TokenSpan(0, 9);
  }

  /** The gold span set `[(1,3), (5,6)]` of the short-answer tests. */
  function GoldShorts(): seq<ValidSpan> {
    [TokenSpan(1, 3), TokenSpan(5, 6)]
  }

  /** A rater giving the gold span set, and a rater giving only a null span. */
  function Answering(): Label {
    SpanLabel(TokenSpan(0, 10), GoldShorts())
  }

  function Silent(): Label {
    SpanLabel(TokenSpan(0, 10), [NullSpan])
  }

  /** The per-rater short votes the tests rely on. */
  lemma ShortVotesOfRaters()
    ensures ShortVote(Answering())
    ensures !ShortVote(Silent())
    ensures ShortVote(VerdictLabel(TokenSpan(0, 10), Yes))
  {
    assert !IsNull(Answering().shortSpans[0]);
    assert IsNullSpanList([NullSpan]);
  }

  /** One answering rater is no gold short answer, despite an exact match. */
  lemma ShortOneRaterIsNoGold()
    ensures ScoreShortAnswer([Answering(), Silent(), Silent(), Silent(), Silent()],
                             Answering(), EvalMinVotes)
      == AnswerStat(false, true, false, 0.0)
  {
    var golds := [Answering(), Silent(), Silent(), Silent(), Silent()];
    ShortVotesOfRaters();
    assert CountWhere(golds[4..], ShortVote) == 0;
    assert CountWhere(golds[3..], ShortVote) == 0;
    assert CountWhere(golds[2..], ShortVote) == 0;
    assert CountWhere(golds[1..], ShortVote) == 0;
  }

  /** Two raters with the same span set make a gold short answer; the same
      set predicted is correct, a strict subset of it is not. */
  lemma ShortTwoRatersWholeSetMatch()
    ensures ScoreShortAnswer([Answering(), Answering(), Silent(), Silent(), Silent()],
                             Answering(), EvalMinVotes)
      == AnswerStat(true, true, true, 0.0)
    ensures ScoreShortAnswer([Answering(), Answering(), Silent(), Silent(), Silent()],
                             SpanLabel(TokenSpan(0, 10), [TokenSpan(1, 3)]), EvalMinVotes)
      == AnswerStat(true, true, false, 0.0)
  {
    var golds := [Answering(), Answering(), Silent(), Silent(), Silent()];
    ShortVotesOfRaters();
    assert CountWhere(golds[4..], ShortVote) == 0;
    assert CountWhere(golds[3..], ShortVote) == 0;
    assert CountWhere(golds[2..], ShortVote) == 0;
    assert CountWhere(golds[1..], ShortVote) == 1;
    assert golds[0] == Answering();
    var subset := [TokenSpan(1, 3)];
    assert !IsNull(subset[0]);
    assert TokenSpan(1, 3) in SpanSet(subset);
    assert TokenSpan(5, 6) in SpanSet(Answering().shortSpans);
    assert TokenSpan(5, 6) !in SpanSet(subset);
    assert SpanSet(Silent().shortSpans) == {};
    forall i | 0 <= i < 5
      ensures SpanSet(golds[i].shortSpans) != SpanSet(subset)
    {
      assert golds[i] == Answering() || golds[i] == Silent();
    }
  }

  /** A verdict rater and a span rater together make a gold short answer;
      a predicted verdict is matched by verdict only. */
  lemma ShortVerdictMatch()
    ensures ScoreShortAnswer([VerdictLabel(TokenSpan(0, 10), Yes), Answering(), Silent(), Silent(), Silent()],
                             VerdictLabel(TokenSpan(0, 10), Yes), EvalMinVotes)
      == AnswerStat(true, true, true, 0.0)
    ensures ScoreShortAnswer([VerdictLabel(TokenSpan(0, 10), Yes), Answering(), Silent(), Silent(), Silent()],
                             VerdictLabel(TokenSpan(0, 10), No), EvalMinVotes)
      == AnswerStat(true, true, false, 0.0)
  {
    var golds := [VerdictLabel(TokenSpan(0, 10), Yes), Answering(), Silent(), Silent(), Silent()];
    ShortVotesOfRaters();
    assert CountWhere(golds[4..], ShortVote) == 0;
    assert CountWhere(golds[3..], ShortVote) == 0;
    assert CountWhere(golds[2..], ShortVote) == 0;
    assert CountWhere(golds[1..], ShortVote) == 1;
    assert golds[0].yesNo == Yes;
    forall i | 0 <= i < 5
      ensures golds[i].yesNo != No
    {
      assert golds[i].yesNo == Yes || golds[i].yesNo == NoVerdict;
    }
  }

  /** The curve test: statistics already sorted by score, one unanswered
      prediction above one correct one. The best point has precision 0.5
      and recall 1; only the 0.5 target is reached, and targets come back in
      the caller's order. */
  lemma PrCurveCase()
    ensures PrCurves([AnswerStat(false, true, false, 10.0), AnswerStat(true, true, true, 1.0)], [0.5, 0.75, 0.9])
      == (BestPoint(2.0 / 3.0, 0.5, 1.0, 1.0),
          [TargetPoint(0.5, 1.0, 0.5, Some(1.0)), TargetPoint(0.75, 0.0, 0.0, None), TargetPoint(0.9, 0.0, 0.0, None)])
  {
    var stats := [AnswerStat(false, true, false, 10.0), AnswerStat(true, true, true, 1.0)];
    assert stats[..1] == [stats[0]] && stats[..2] == stats;
    assert CountWhere(stats, GoldStat) == 1;
    assert CountWhere(stats[..1], CorrectStat) == 0 && CountWhere(stats[..1], PredStat) == 1;
    assert CountWhere(stats[..2], CorrectStat) == 1 && CountWhere(stats[..2], PredStat) == 2;
    assert PointAt(stats, 1) == Point(10.0, 0.0, 0.0);
    assert PointAt(stats, 2) == Point(1.0, 0.5, 1.0);
    assert IsCut(stats, 1) && IsCut(stats, 2);
    assert BestUpTo(stats, 1) == NoBest;
    assert BestUpTo(stats, 2) == BestPoint(2.0 / 3.0, 0.5, 1.0, 1.0);
    assert TargetUpTo(stats, 0.5, 1) == TargetPoint(0.5, 0.0, 0.0, None);
    assert TargetUpTo(stats, 0.5, 2) == TargetPoint(0.5, 1.0, 0.5, Some(1.0));
    assert TargetUpTo(stats, 0.75, 1) == TargetPoint(0.75, 0.0, 0.0, None);
    assert TargetUpTo(stats, 0.75, 2) == TargetPoint(0.75, 0.0, 0.0, None);
    assert TargetUpTo(stats, 0.9, 1) == TargetPoint(0.9, 0.0, 0.0, None);
    assert TargetUpTo(stats, 0.9, 2) == TargetPoint(0.9, 0.0, 0.0, None);
    var r := PrCurves(stats, [0.5, 0.75, 0.9]);
    assert r.1[0] == TargetUpTo(stats, 0.5, 2);
    assert r.1[1] == TargetUpTo(stats, 0.75, 2);
    assert r.1[2] == TargetUpTo(stats, 0.9, 2);
    assert r.1 == [TargetPoint(0.5, 1.0, 0.5, Some(1.0)), TargetPoint(0.75, 0.0, 0.0, None), TargetPoint(0.9, 0.0, 0.0, None)];
    assert r.0 == BestPoint(2.0 / 3.0, 0.5, 1.0, 1.0);
  }
}
