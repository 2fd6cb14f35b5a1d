/** Vocabulary shared by the evaluation and the browser: a rater's yes/no
    verdict, and counting how many raters vote for something. */
module Raters {

  /** A yes/no verdict; `NoVerdict` is the JSON value "NONE" (browser data)
      or "none" (evaluation labels). */
  datatype YesNo = NoVerdict | Yes | No

  /** How many elements of `s` satisfy `p`: Python's `sum` over a list of
      booleans, as used for every rater vote. */
  function CountWhere<T>(s: seq<T>, p: T -> bool): (n: nat)
    ensures n <= |s|
  {
    if |s| == 0 then 0 else (if p(s[0]) then 1 else 0) + CountWhere(s[1..], p)
  }

  /** Counting distributes over concatenation. */
  lemma {:induction false} CountWhereAppend<T>(a: seq<T>, b: seq<T>, p: T -> bool)
    ensures CountWhere(a + b, p) == CountWhere(a, p) + CountWhere(b, p)
    decreases |a|
  {
    if |a| == 0 {
      assert a + b == b;
    } else {
      assert (a + b)[1..] == a[1..] + b;
      CountWhereAppend(a[1..], b, p);
    }
  }

  /** Appending one element adds its vote. */
  lemma CountWhereSnoc<T>(s: seq<T>, x: T, p: T -> bool)
    ensures CountWhere(s + [x], p) == CountWhere(s, p) + (if p(x) then 1 else 0)
  {
    CountWhereAppend(s, [x], p);
  }

  /** Some element votes exactly when the count is positive. */
  lemma {:induction false} CountWherePositive<T>(s: seq<T>, p: T -> bool)
    ensures CountWhere(s, p) > 0 <==> exists i :: 0 <= i < |s| && p(s[i])
    decreases |s|
  {
    if |s| > 0 {
      CountWherePositive(s[1..], p);
      if exists i :: 0 <= i < |s[1..]| && p(s[1..][i]) {
        var i :| 0 <= i < |s[1..]| && p(s[1..][i]);
        assert p(s[i + 1]);
      }
      if exists i :: 0 <= i < |s| && p(s[i]) {
        var i :| 0 <= i < |s| && p(s[i]);
        if i > 0 {
          assert p(s[1..][i - 1]);
        }
      }
    }
  }

  /** A predicate implied element-wise by another counts at least as many. */
  lemma {:induction false} CountWhereMonotone<T>(s: seq<T>, p: T -> bool, q: T -> bool)
    requires forall i :: 0 <= i < |s| && p(s[i]) ==> q(s[i])
    ensures CountWhere(s, p) <= CountWhere(s, q)
    decreases |s|
  {
    if |s| > 0 {
      assert forall i :: 0 <= i < |s[1..]| ==> s[1..][i] == s[i + 1];
      CountWhereMonotone(s[1..], p, q);
    }
  }

  /** A prefix never has more votes than the whole sequence. */
  lemma CountWherePrefix<T>(s: seq<T>, k: nat, p: T -> bool)
    requires k <= |s|
    ensures CountWhere(s[..k], p) <= CountWhere(s, p)
  {
    assert s == s[..k] + s[k..];
    CountWhereAppend(s[..k], s[k..], p);
  }

  /** Removing one element removes its vote and nothing else. */
  lemma {:induction false} CountWhereRemove<T>(b: seq<T>, i: nat, p: T -> bool)
    requires i < |b|
    ensures CountWhere(b, p) == CountWhere(b[..i] + b[i + 1..], p) + (if p(b[i]) then 1 else 0)
    decreases i
  {
    var rest := b[..i] + b[i + 1..];
    if i == 0 {
      assert rest == b[1..];
    } else {
      var tail := b[1..];
      assert rest[0] == b[0];
      assert rest[1..] == tail[..i - 1] + tail[i..];
      CountWhereRemove(tail, i - 1, p);
    }
  }

  /** Removing one element removes one occurrence from the multiset. */
  lemma MultisetRemove<T>(b: seq<T>, i: nat)
    requires i < |b|
    ensures multiset(b[..i] + b[i + 1..]) == multiset(b) - multiset{b[i]}
  {
    assert b == b[..i] + [b[i]] + b[i + 1..];
  }

  /** The vote count depends only on the raters, not on their order. */
  lemma {:induction false} CountWherePermutation<T>(a: seq<T>, b: seq<T>, p: T -> bool)
    requires multiset(a) == multiset(b)
    ensures CountWhere(a, p) == CountWhere(b, p)
    decreases |a|
  {
    if |a| == 0 {
      assert |b| == |multiset(b)| == 0;
    } else {
      assert a[0] in multiset(b);
      var i :| 0 <= i < |b| && b[i] == a[0];
      CountWhereRemove(b, i, p);
      MultisetRemove(b, i);
      assert a == [a[0]] + a[1..];
      assert multiset(a[1..]) == multiset(a) - multiset{a[0]};
      CountWherePermutation(a[1..], b[..i] + b[i + 1..], p);
    }
  }
}
