/** The precision/recall curve over per-example statistics: the best-F1
    operating point and the best recall at each target precision. Scores
    are only an ordering key; all arithmetic is on exact reals. */
module PrCurve {
  import opened Wrappers
  import opened Raters
  import opened Scoring

  predicate GoldStat(s: AnswerStat) { s.hasGold }
  predicate PredStat(s: AnswerStat) { s.hasPred }
  predicate CorrectStat(s: AnswerStat) { s.isCorrect }

  /** Division that yields zero for a zero denominator. */
  function SafeDivide(x: real, y: real): real {
    if y == 0.0 then 0.0 else x / y
  }

  /** The harmonic mean of precision and recall, zero when both are. */
  function F1(precision: real, recall: real): real {
    SafeDivide(2.0 * precision * recall, precision + recall)
  }

  /** Callers hand over the statistics sorted by score, highest first. */
  predicate SortedByScore(stats: seq<AnswerStat>) {
    forall i, j :: 0 <= i < j < |stats| ==> stats[j].score <= stats[i].score
  }

  /** Every statistic is consistent, as the scorers guarantee. */
  predicate AllConsistent(stats: seq<AnswerStat>) {
    forall i :: 0 <= i < |stats| ==> Consistent(stats[i])
  }

  /** A threshold with the precision and recall of predicting it and every
      higher-scored example. */
  datatype Point = Point(threshold: real, precision: real, recall: real)

  /** The point reached after the first `k` statistics: correct answers over
      predicted answers, and over all gold answers of the whole list. */
  function PointAt(stats: seq<AnswerStat>, k: nat): Point
    requires 1 <= k <= |stats|
  {
    var correct := CountWhere(stats[..k], CorrectStat) as real;
    Point(stats[k - 1].score,
          SafeDivide(correct, CountWhere(stats[..k], PredStat) as real),
          SafeDivide(correct, CountWhere(stats, GoldStat) as real))
  }

  /** The curve keeps one point per distinct score, holding the totals after
      the last statistic with that score: statistics with tied scores are
      admitted together. */
  predicate IsCut(stats: seq<AnswerStat>, k: nat) {
    1 <= k <= |stats| && (k == |stats| || stats[k].score != stats[k - 1].score)
  }

  /** The summary `(f1, precision, recall, threshold)` of the best point. */
  datatype BestPoint = BestPoint(f1: real, precision: real, recall: real, threshold: real)

  /** The summary before any point improved on F1 zero. */
  const NoBest: BestPoint := BestPoint(0.0, 0.0, 0.0, 0.0)

  function BestAt(stats: seq<AnswerStat>, k: nat): BestPoint
    requires 1 <= k <= |stats|
  {
    var p := PointAt(stats, k);
    BestPoint(F1(p.precision, p.recall), p.precision, p.recall, p.threshold)
  }

  /** One step of the best-point scan: a curve point replaces the best so
      far only with a strictly larger F1. */
  function BestStep(b: BestPoint, stats: seq<AnswerStat>, k: nat): BestPoint
    requires 1 <= k <= |stats|
  {
    if IsCut(stats, k) && BestAt(stats, k).f1 > b.f1 then BestAt(stats, k) else b
  }

  /** The best point after scanning the curve points within the first `n`
      statistics. */
  function BestUpTo(stats: seq<AnswerStat>, n: nat): BestPoint
    requires n <= |stats|
  {
    if n == 0 then NoBest else BestStep(BestUpTo(stats, n - 1), stats, n)
  }

  /** The scanned best point has the largest F1 of all curve points, every
      earlier curve point has a smaller F1 (the first best wins), and with
      no positive F1 the summary stays `NoBest`. */
  lemma {:induction false} BestUpToIsBest(stats: seq<AnswerStat>, n: nat)
    requires n <= |stats|
    ensures forall k :: 1 <= k <= n && IsCut(stats, k) ==> BestAt(stats, k).f1 <= BestUpTo(stats, n).f1
    ensures BestUpTo(stats, n) != NoBest ==> exists k :: (
      && 1 <= k <= n
      && IsCut(stats, k)
      && BestUpTo(stats, n) == BestAt(stats, k)
      && BestAt(stats, k).f1 > 0.0
      && forall j :: 1 <= j < k && IsCut(stats, j) ==> BestAt(stats, j).f1 < BestAt(stats, k).f1)
  {
    if n > 0 {
      BestUpToIsBest(stats, n - 1);
    }
  }

  /** For one target precision: `(target, recall, precision, threshold)`,
      the threshold absent when no point qualified. */
  datatype TargetPoint = TargetPoint(target: real, recall: real, precision: real, threshold: Option<real>)

  /** One step of a target's scan: a curve point whose precision reaches
      the target replaces the answer so far only with a strictly larger
      recall. */
  function TargetStep(r: TargetPoint, stats: seq<AnswerStat>, k: nat): TargetPoint
    requires 1 <= k <= |stats|
  {
    var p := PointAt(stats, k);
    if IsCut(stats, k) && p.precision >= r.target && p.recall > r.recall then
      TargetPoint(r.target, p.recall, p.precision, Some(p.threshold))
    else r
  }

  /** The answer for target `t` after scanning the curve points within the
      first `n` statistics. */
  function TargetUpTo(stats: seq<AnswerStat>, t: real, n: nat): (r: TargetPoint)
    requires n <= |stats|
    ensures r.target == t
  {
    if n == 0 then TargetPoint(t, 0.0, 0.0, None) else TargetStep(TargetUpTo(stats, t, n - 1), stats, n)
  }

  /** The scanned answer for target `t` has the best recall among curve
      points whose precision reaches `t`; it is the first point with that
      recall, and without a point of positive recall it stays empty. */
  lemma {:induction false} TargetUpToIsBest(stats: seq<AnswerStat>, t: real, n: nat)
    requires n <= |stats|
    ensures TargetUpTo(stats, t, n).target == t && TargetUpTo(stats, t, n).recall >= 0.0
    ensures forall k :: 1 <= k <= n && IsCut(stats, k) && PointAt(stats, k).precision >= t ==>
      PointAt(stats, k).recall <= TargetUpTo(stats, t, n).recall
    ensures TargetUpTo(stats, t, n).threshold.None? ==> TargetUpTo(stats, t, n) == TargetPoint(t, 0.0, 0.0, None)
    ensures TargetUpTo(stats, t, n).threshold.Some? ==> exists k :: (
      && 1 <= k <= n
      && IsCut(stats, k)
      && PointAt(stats, k).precision >= t
      && PointAt(stats, k).recall > 0.0
      && TargetUpTo(stats, t, n) ==
           TargetPoint(t, PointAt(stats, k).recall, PointAt(stats, k).precision, Some(PointAt(stats, k).threshold))
      && forall j :: 1 <= j < k && IsCut(stats, j) && PointAt(stats, j).precision >= t ==>
           PointAt(stats, j).recall < PointAt(stats, k).recall)
  {
    if n > 0 {
      TargetUpToIsBest(stats, t, n - 1);
    }
  }

  /** `compute_pr_curves` as a specification: the best point, and one entry
      per target in the caller's order. */
  function PrCurves(stats: seq<AnswerStat>, targets: seq<real>): (r: (BestPoint, seq<TargetPoint>))
    requires SortedByScore(stats)
    ensures |r.1| == |targets|
    ensures forall i :: 0 <= i < |targets| ==> r.1[i].target == targets[i]
  {
    (BestUpTo(stats, |stats|), seq(|targets|, i requires 0 <= i < |targets| => TargetUpTo(stats, targets[i], |stats|)))
  }

  /** Across the targets of one call, a higher target never reports a
      higher recall. */
  lemma PrCurvesRecallMonotone(stats: seq<AnswerStat>, targets: seq<real>, i: nat, j: nat)
    requires SortedByScore(stats)
    requires i < |targets| && j < |targets| && targets[i] <= targets[j]
    ensures PrCurves(stats, targets).1[j].recall <= PrCurves(stats, targets).1[i].recall
  {
    TargetMonotone(stats, targets[i], targets[j], |stats|);
  }

  /** A stricter target precision never admits a larger recall. */
  lemma {:induction false} TargetMonotone(stats: seq<AnswerStat>, lo: real, hi: real, n: nat)
    requires n <= |stats| && lo <= hi
    ensures TargetUpTo(stats, hi, n).recall <= TargetUpTo(stats, lo, n).recall
  {
    TargetUpToIsBest(stats, lo, n);
    TargetUpToIsBest(stats, hi, n);
  }

  /** The first pass of `compute_pr_curves`: the number of gold answers. */
  method CountGold(stats: seq<AnswerStat>) returns (totalGold: nat)
    ensures totalGold == CountWhere(stats, GoldStat)
  {
    totalGold := 0;
    var i := 0;
    while i < |stats|
      invariant 0 <= i <= |stats|
      invariant totalGold == CountWhere(stats[..i], GoldStat)
    {
      assert stats[..i + 1] == stats[..i] + [stats[i]];
      CountWhereSnoc(stats[..i], stats[i], GoldStat);
      totalGold := totalGold + (if stats[i].hasGold then 1 else 0);
      i := i + 1;
    }
    assert stats[..|stats|] == stats;
  }

  /** The second pass: running totals of correct and predicted answers give
      the point after every prefix. */
  method PrefixPoints(stats: seq<AnswerStat>, totalGold: nat) returns (points: seq<Point>)
    requires totalGold == CountWhere(stats, GoldStat)
    ensures |points| == |stats|
    ensures forall k :: 1 <= k <= |stats| ==> points[k - 1] == PointAt(stats, k)
  {
    var totalCorrect, totalPred := 0, 0;
    points := [];
    var i := 0;
    while i < |stats|
      invariant 0 <= i <= |stats|
      invariant |points| == i
      invariant totalCorrect == CountWhere(stats[..i], CorrectStat)
      invariant totalPred == CountWhere(stats[..i], PredStat)
      invariant forall k :: 1 <= k <= i ==> points[k - 1] == PointAt(stats, k)
    {
      assert stats[..i + 1] == stats[..i] + [stats[i]];
      CountWhereSnoc(stats[..i], stats[i], CorrectStat);
      CountWhereSnoc(stats[..i], stats[i], PredStat);
      totalCorrect := totalCorrect + (if stats[i].isCorrect then 1 else 0);
      totalPred := totalPred + (if stats[i].hasPred then 1 else 0);
      var precision := SafeDivide(totalCorrect as real, totalPred as real);
      var recall := SafeDivide(totalCorrect as real, totalGold as real);
      points := points + [Point(stats[i].score, precision, recall)];
      i := i + 1;
    }
  }

  /** Comparing the curve point of the `k`-th statistic with every target
      moves each target's answer from `k - 1` statistics to `k`. */
  method UpdateTargets(stats: seq<AnswerStat>, targets: seq<real>, k: nat, p: Point, atTargets: seq<TargetPoint>)
    returns (next: seq<TargetPoint>)
    requires IsCut(stats, k) && p == PointAt(stats, k)
    requires |atTargets| == |targets|
    requires forall t :: 0 <= t < |targets| ==> atTargets[t] == TargetUpTo(stats, targets[t], k - 1)
    ensures |next| == |targets|
    ensures forall t :: 0 <= t < |targets| ==> next[t] == TargetUpTo(stats, targets[t], k)
  {
    next := atTargets;
    var t := 0;
    while t < |targets|
      invariant 0 <= t <= |targets|
      invariant |next| == |targets|
      invariant forall u :: 0 <= u < t ==> next[u] == TargetUpTo(stats, targets[u], k)
      invariant forall u :: t <= u < |targets| ==> next[u] == TargetUpTo(stats, targets[u], k - 1)
    {
      if p.precision >= targets[t] && p.recall > next[t].recall {
        next := next[t := TargetPoint(targets[t], p.recall, p.precision, Some(p.threshold))];
      }
      t := t + 1;
    }
  }

  /** The source's loops: gold total first, then running totals per prefix,
      then each curve point compared with every target and with the best F1
      so far. */
  method ComputePrCurves(stats: seq<AnswerStat>, targets: seq<real>) returns (best: BestPoint, atTargets: seq<TargetPoint>)
    requires SortedByScore(stats)
    ensures (best, atTargets) == PrCurves(stats, targets)
  {
    var totalGold := CountGold(stats);
    var points := PrefixPoints(stats, totalGold);
    best := NoBest;
    atTargets := seq(|targets|, t requires 0 <= t < |targets| => TargetPoint(targets[t], 0.0, 0.0, None));
    var k := 1;
    while k <= |stats|
      invariant 1 <= k <= |stats| + 1
      invariant best == BestUpTo(stats, k - 1)
      invariant |atTargets| == |targets|
      invariant forall t :: 0 <= t < |targets| ==> atTargets[t] == TargetUpTo(stats, targets[t], k - 1)
    {
      if k == |stats| || stats[k].score != stats[k - 1].score {
        var p := points[k - 1];
        atTargets := UpdateTargets(stats, targets, k, p, atTargets);
        var f1 := F1(p.precision, p.recall);
        if f1 > best.f1 {
          best := BestPoint(f1, p.precision, p.recall, p.threshold);
        }
      }
      k := k + 1;
    }
    assert atTargets == PrCurves(stats, targets).1;
  }

  /** A ratio of a non-negative numerator to a denominator at least as
      large lies in [0, 1]. */
  lemma SafeDivideBounds(x: real, y: real)
    requires 0.0 <= x <= y
    ensures 0.0 <= SafeDivide(x, y) <= 1.0
  {
    if y != 0.0 {
      assert x / y * y == x;
    }
  }

  /** A larger numerator over the same non-negative denominator is no
      smaller. */
  lemma SafeDivideMonotone(x: real, x': real, y: real)
    requires x <= x' && 0.0 <= y
    ensures SafeDivide(x, y) <= SafeDivide(x', y)
  {
    if y != 0.0 {
      assert x / y * y == x && x' / y * y == x';
    }
  }

  /** With consistent statistics, precision and recall stay within [0, 1]. */
  lemma PointBounds(stats: seq<AnswerStat>, k: nat)
    requires AllConsistent(stats) && 1 <= k <= |stats|
    ensures 0.0 <= PointAt(stats, k).precision <= 1.0
    ensures 0.0 <= PointAt(stats, k).recall <= 1.0
  {
    var prefix := stats[..k];
    var correct := CountWhere(prefix, CorrectStat);
    CountWhereMonotone(prefix, CorrectStat, PredStat);
    CountWhereMonotone(prefix, CorrectStat, GoldStat);
    CountWherePrefix(stats, k, GoldStat);
    SafeDivideBounds(correct as real, CountWhere(prefix, PredStat) as real);
    SafeDivideBounds(correct as real, CountWhere(stats, GoldStat) as real);
  }

  /** Admitting more predictions never lowers recall. */
  lemma RecallNondecreasing(stats: seq<AnswerStat>, j: nat, k: nat)
    requires 1 <= j <= k <= |stats|
    ensures PointAt(stats, j).recall <= PointAt(stats, k).recall
  {
    assert stats[..k][..j] == stats[..j];
    CountWherePrefix(stats[..k], j, CorrectStat);
    SafeDivideMonotone(CountWhere(stats[..j], CorrectStat) as real, CountWhere(stats[..k], CorrectStat) as real,
                       CountWhere(stats, GoldStat) as real);
  }
}
