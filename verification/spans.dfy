/** Answer spans and their equality rules: a span carries a byte range
    and a token range, either of which may be absent. */
module Spans {
  import opened Wrappers

  /** A location in a document: a byte pair, then a token pair. The order
      of the four fields is this model's choice; every property below is
      symmetric in the two pairs. A negative bound marks that coordinate as
      absent; data uses -1. */
  datatype Span = Span(startByte: int, endByte: int, startToken: int, endToken: int)

  /** The span with both coordinate pairs absent. */
  const NullSpan: Span := Span(-1, -1, -1, -1)

  /** A coordinate pair is either wholly absent or a non-empty range. */
  predicate PairOk(start: int, end: int) {
    (start < 0 && end < 0) || (0 <= start && start < end)
  }

  /** The construction invariant, stated pair by pair. */
  predicate Valid(s: Span) {
    PairOk(s.startByte, s.endByte) && PairOk(s.startToken, s.endToken)
  }

  /** Spans that construction can produce. */
  type ValidSpan = s: Span | Valid(s) witness NullSpan

  /** Why construction refused its arguments. */
  datatype SpanError =
    | InconsistentNull   // one end of a pair is absent and the other is not
    | InvalidOrder       // a present pair does not end after it starts

  predicate HalfAbsent(start: int, end: int) {
    (start < 0) != (end < 0)
  }

  predicate Reversed(start: int, end: int) {
    0 <= start && 0 <= end && end <= start
  }

  /** The constructor: the half-absent checks come before the order checks,
      and it fails exactly when the result would break the invariant. */
  function MakeSpan(startByte: int, endByte: int, startToken: int, endToken: int): (r: Result<ValidSpan, SpanError>)
    ensures r.Success? <==> Valid(Span(startByte, endByte, startToken, endToken))
    ensures r.Success? ==> r.value == Span(startByte, endByte, startToken, endToken)
    ensures r == Failure(InconsistentNull) <==> HalfAbsent(startByte, endByte) || HalfAbsent(startToken, endToken)
  {
    if HalfAbsent(startByte, endByte) || HalfAbsent(startToken, endToken) then
      Failure(InconsistentNull)
    else if Reversed(startByte, endByte) || Reversed(startToken, endToken) then
      Failure(InvalidOrder)
    else
      Success(Span(startByte, endByte, startToken, endToken))
  }

  /** `is_null_span`: every bound is absent. A null span always meets the
      construction invariant, and on a constructed span being null only
      needs both start bounds absent, so a present start bound makes the
      span non-null. */
  predicate IsNull(s: Span)
    ensures IsNull(s) ==> Valid(s)
    ensures Valid(s) ==> (IsNull(s) <==> s.startByte < 0 && s.startToken < 0)
  {
    s.startByte < 0 && s.endByte < 0 && s.startToken < 0 && s.endToken < 0
  }

  /** `nonnull_span_equal`: representation-exact comparison of two
      non-null spans; a byte-only span never equals a token-only one. */
  function NonnullSpanEqual(a: Span, b: Span): (r: bool)
    requires !IsNull(a) && !IsNull(b)
    ensures r <==> a == b
  {
    && a.startByte == b.startByte
    && a.endByte == b.endByte
    && a.startToken == b.startToken
    && a.endToken == b.endToken
  }

  /** The non-null members of a span list, as a set: what set equality
      compares. */
  ghost function SpanSet(xs: seq<Span>): set<Span> {
    set s | s in xs && !IsNull(s)
  }

  /** A span list that gives no answer: empty, or only null spans;
      equivalently, it has no non-null member. */
  predicate IsNullSpanList(xs: seq<Span>)
    ensures IsNullSpanList(xs) <==> SpanSet(xs) == {}
  {
    var r := forall i :: 0 <= i < |xs| ==> IsNull(xs[i]);
    assert !r ==> exists i :: 0 <= i < |xs| && xs[i] in SpanSet(xs);
    r
  }

  /** The list with its null spans dropped, order kept. */
  function DropNulls(xs: seq<Span>): (r: seq<Span>)
    ensures forall i :: 0 <= i < |r| ==> !IsNull(r[i])
    ensures forall s :: s in r <==> s in xs && !IsNull(s)
  {
    if |xs| == 0 then []
    else (if IsNull(xs[0]) then [] else [xs[0]]) + DropNulls(xs[1..])
  }

  /** `any(nonnull_span_equal(x, y) for y in ys)`. */
  function AnyEqual(x: Span, ys: seq<Span>): (r: bool)
    requires !IsNull(x)
    requires forall i :: 0 <= i < |ys| ==> !IsNull(ys[i])
    ensures r <==> x in ys
  {
    |ys| > 0 && (NonnullSpanEqual(x, ys[0]) || AnyEqual(x, ys[1..]))
  }

  /** Every span of `xs` has an equal span in `ys`. */
  function AllFound(xs: seq<Span>, ys: seq<Span>): (r: bool)
    requires forall i :: 0 <= i < |xs| ==> !IsNull(xs[i])
    requires forall i :: 0 <= i < |ys| ==> !IsNull(ys[i])
    ensures r <==> forall s :: s in xs ==> s in ys
  {
    |xs| == 0 || (AnyEqual(xs[0], ys) && AllFound(xs[1..], ys))
  }

  /** `span_set_equal`: after dropping nulls, each side's spans all occur
      on the other side. This is exactly equality of the non-null sets,
      so order, duplicates and null members make no difference. */
  function SpanSetEqual(gold: seq<Span>, pred: seq<Span>): (r: bool)
    ensures r <==> SpanSet(gold) == SpanSet(pred)
  {
    var g := DropNulls(gold);
    var p := DropNulls(pred);
    assert forall s :: s in SpanSet(gold) <==> s in g;
    assert forall s :: s in SpanSet(pred) <==> s in p;
    AllFound(p, g) && AllFound(g, p)
  }
}
