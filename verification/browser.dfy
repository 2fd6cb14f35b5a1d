/** The browser's view of one Natural Questions example: gold existence by
    rater vote, the qualifying raters' answers, the most frequent answer
    shown, the classification of top-level long-answer candidates, and the
    loading fold with its mode filter and size cut-off. */
module Browser {
  import opened Wrappers
  import opened Raters

  /** Byte and token bounds of a JSON long answer, short answer or
      candidate; a long answer with a negative start byte is absent. */
  datatype Bounds = Bounds(startByte: int, endByte: int, startToken: int, endToken: int)

  /** One rater's JSON annotation. */
  datatype Annotation = Annotation(longAnswer: Bounds, shortAnswers: seq<Bounds>, yesNo: YesNo)

  /** A JSON long-answer candidate. */
  datatype JsonCandidate = JsonCandidate(bounds: Bounds, topLevel: bool)

  /** The fields of a JSON example that the browser's logic reads. */
  datatype JsonExample = JsonExample(exampleId: int, annotations: seq<Annotation>, candidates: seq<JsonCandidate>)

  /** How many annotations an example must carry, and how many of them must
      agree for an answer to exist. */
  datatype VotePolicy = VotePolicy(raters: nat, minVotes: nat)

  datatype Dataset = Train | Dev

  /** The training split has one annotation per example; the development
      split has five, of which two must agree. */
  function PolicyFor(d: Dataset): VotePolicy {
    match d
    case Train => VotePolicy(1, 1)
    case Dev => VotePolicy(5, 2)
  }

  /** A rater gives a long answer when its start byte is not negative. */
  predicate RaterHasLong(a: Annotation) {
    a.longAnswer.startByte >= 0
  }

  /** A rater gives a short answer when it lists short spans or a verdict. */
  predicate RaterHasShort(a: Annotation) {
    |a.shortAnswers| > 0 || a.yesNo != NoVerdict
  }

  predicate RaterHasSpans(a: Annotation) {
    |a.shortAnswers| > 0
  }

  predicate RaterHasVerdict(a: Annotation) {
    a.yesNo != NoVerdict
  }

  /** The long answers of the raters that give one, in rater order. */
  function LongAnswersOf(anns: seq<Annotation>): (r: seq<Bounds>)
    ensures |r| == CountWhere(anns, RaterHasLong)
    ensures forall i :: 0 <= i < |r| ==> r[i].startByte >= 0
    ensures forall i :: 0 <= i < |anns| && RaterHasLong(anns[i]) ==> anns[i].longAnswer in r
    ensures forall b :: b in r ==> exists i :: 0 <= i < |anns| && RaterHasLong(anns[i]) && anns[i].longAnswer == b
  {
    if |anns| == 0 then []
    else
      assert forall i :: 1 <= i < |anns| ==> anns[i] == anns[1..][i - 1];
      (if RaterHasLong(anns[0]) then [anns[0].longAnswer] else []) + LongAnswersOf(anns[1..])
  }

  /** The non-empty short-answer lists, in rater order. */
  function ShortAnswersOf(anns: seq<Annotation>): (r: seq<seq<Bounds>>)
    ensures |r| == CountWhere(anns, RaterHasSpans)
    ensures forall i :: 0 <= i < |r| ==> |r[i]| > 0
    ensures forall i :: 0 <= i < |anns| && RaterHasSpans(anns[i]) ==> anns[i].shortAnswers in r
    ensures forall x :: x in r ==> exists i :: 0 <= i < |anns| && anns[i].shortAnswers == x
  {
    if |anns| == 0 then []
    else
      assert forall i :: 1 <= i < |anns| ==> anns[i] == anns[1..][i - 1];
      (if RaterHasSpans(anns[0]) then [anns[0].shortAnswers] else []) + ShortAnswersOf(anns[1..])
  }

  /** The verdicts other than "NONE", in rater order. */
  function YesNoAnswersOf(anns: seq<Annotation>): (r: seq<YesNo>)
    ensures |r| == CountWhere(anns, RaterHasVerdict)
    ensures forall i :: 0 <= i < |r| ==> r[i] != NoVerdict
    ensures forall i :: 0 <= i < |anns| && RaterHasVerdict(anns[i]) ==> anns[i].yesNo in r
    ensures forall v :: v in r ==> exists i :: 0 <= i < |anns| && anns[i].yesNo == v
  {
    if |anns| == 0 then []
    else
      assert forall i :: 1 <= i < |anns| ==> anns[i] == anns[1..][i - 1];
      (if RaterHasVerdict(anns[0]) then [anns[0].yesNo] else []) + YesNoAnswersOf(anns[1..])
  }

  /** Every rater voting for a short answer contributes a span list or a
      verdict (or both), so the candidates for display are at least as many
      as the votes. */
  lemma {:induction false} ShortVotesAreShown(anns: seq<Annotation>)
    ensures CountWhere(anns, RaterHasShort) <= CountWhere(anns, RaterHasSpans) + CountWhere(anns, RaterHasVerdict)
    decreases |anns|
  {
    if |anns| > 0 {
      ShortVotesAreShown(anns[1..]);
    }
  }

  /** The long answers of two groups of raters are those of the first group
      followed by those of the second: rater order and multiplicity are
      kept. */
  lemma {:induction false} LongAnswersOfAppend(a: seq<Annotation>, b: seq<Annotation>)
    ensures LongAnswersOf(a + b) == LongAnswersOf(a) + LongAnswersOf(b)
    decreases |a|
  {
    if |a| == 0 {
      assert a + b == b;
    } else {
      assert (a + b)[0] == a[0] && (a + b)[1..] == a[1..] + b;
      LongAnswersOfAppend(a[1..], b);
    }
  }

  /** The short-answer lists of two groups of raters, in rater order. */
  lemma {:induction false} ShortAnswersOfAppend(a: seq<Annotation>, b: seq<Annotation>)
    ensures ShortAnswersOf(a + b) == ShortAnswersOf(a) + ShortAnswersOf(b)
    decreases |a|
  {
    if |a| == 0 {
      assert a + b == b;
    } else {
      assert (a + b)[0] == a[0] && (a + b)[1..] == a[1..] + b;
      ShortAnswersOfAppend(a[1..], b);
    }
  }

  /** The verdicts of two groups of raters, in rater order. */
  lemma {:induction false} YesNoAnswersOfAppend(a: seq<Annotation>, b: seq<Annotation>)
    ensures YesNoAnswersOf(a + b) == YesNoAnswersOf(a) + YesNoAnswersOf(b)
    decreases |a|
  {
    if |a| == 0 {
      assert a + b == b;
    } else {
      assert (a + b)[0] == a[0] && (a + b)[1..] == a[1..] + b;
      YesNoAnswersOfAppend(a[1..], b);
    }
  }

  /** A single rater contributes its own answer exactly when it gives one. */
  lemma SingleRaterAnswers(x: Annotation)
    ensures LongAnswersOf([x]) == (if RaterHasLong(x) then [x.longAnswer] else [])
    ensures ShortAnswersOf([x]) == (if RaterHasSpans(x) then [x.shortAnswers] else [])
    ensures YesNoAnswersOf([x]) == (if RaterHasVerdict(x) then [x.yesNo] else [])
  {
    assert [x][1..] == [];
  }

  /** The first index holding the largest value: `np.argmax`. */
  function ArgMax(xs: seq<nat>): (r: nat)
    requires |xs| > 0
    ensures r < |xs|
    ensures forall j :: 0 <= j < |xs| ==> xs[j] <= xs[r]
    ensures forall j :: 0 <= j < r ==> xs[j] < xs[r]
  {
    if |xs| == 1 then 0
    else
      var k := ArgMax(xs[..|xs| - 1]);
      if xs[|xs| - 1] > xs[k] then |xs| - 1 else k
  }

  /** `list.count`: the number of elements of `s` equal to `x`, counted
      from the front. */
  function Occurrences<T(==)>(s: seq<T>, x: T): (n: nat)
    ensures n <= |s|
  {
    if |s| == 0 then 0 else (if s[0] == x then 1 else 0) + Occurrences(s[1..], x)
  }

  /** Counting occurrences gives the multiplicity in the multiset. */
  lemma {:induction false} OccurrencesIsMultiplicity<T>(s: seq<T>, x: T)
    ensures Occurrences(s, x) == multiset(s)[x]
    decreases |s|
  {
    if |s| > 0 {
      assert s == [s[0]] + s[1..];
      assert multiset(s) == multiset{s[0]} + multiset(s[1..]);
      OccurrencesIsMultiplicity(s[1..], x);
    }
  }

  /** `[s.count(x) for x in s]`: each position holds how often its element
      occurs, which is its multiplicity. */
  function Counts<T(==)>(s: seq<T>): (c: seq<nat>)
    ensures |c| == |s| && forall i :: 0 <= i < |s| ==> c[i] == multiset(s)[s[i]]
  {
    var c := seq(|s|, i requires 0 <= i < |s| => Occurrences(s, s[i]));
    assert forall i :: 0 <= i < |s| ==> c[i] == multiset(s)[s[i]] by {
      forall i | 0 <= i < |s| ensures c[i] == multiset(s)[s[i]] {
        OccurrencesIsMultiplicity(s, s[i]);
      }
    }
    c
  }

  /** Index `i` holds a most frequent value of `s`, and every earlier index
      holds a strictly less frequent one: the first of the most frequent. */
  ghost predicate IsModalPick<T>(s: seq<T>, i: nat) {
    && i < |s|
    && (forall j :: 0 <= j < |s| ==> multiset(s)[s[j]] <= multiset(s)[s[i]])
    && (forall j :: 0 <= j < i ==> multiset(s)[s[j]] < multiset(s)[s[i]])
  }

  /** `argmax` of the occurrence counts: the first occurrence of a most
      frequent value. */
  function MostFrequentIndex<T(==)>(s: seq<T>): (r: nat)
    requires |s| > 0
    ensures IsModalPick(s, r)
    ensures forall j :: 0 <= j < r ==> s[j] != s[r]
  {
    ArgMax(Counts(s))
  }

  /** Ties go to the first occurrence: at most one index is a modal pick. */
  lemma ModalPickUnique<T>(s: seq<T>, i: nat, j: nat)
    requires IsModalPick(s, i) && IsModalPick(s, j)
    ensures i == j
  {
    assert multiset(s)[s[j]] <= multiset(s)[s[i]];
    assert multiset(s)[s[i]] <= multiset(s)[s[j]];
  }

  /** The `(start_byte, end_byte)` key by which answers are counted. */
  function ByteKey(b: Bounds): (int, int) {
    (b.startByte, b.endByte)
  }

  function ByteKeys(bs: seq<Bounds>): (r: seq<(int, int)>)
    ensures |r| == |bs|
  {
    seq(|bs|, i requires 0 <= i < |bs| => ByteKey(bs[i]))
  }

  /** What identifies a short answer when counting votes: the byte keys of
      a span list, or a verdict. */
  datatype ShortId = SpanIds(keys: seq<(int, int)>) | VerdictId(verdict: YesNo)

  /** The span-list ids followed by the verdicts. */
  function ShortIds(shorts: seq<seq<Bounds>>, verdicts: seq<YesNo>): (r: seq<ShortId>)
    ensures |r| == |shorts| + |verdicts|
  {
    seq(|shorts|, i requires 0 <= i < |shorts| => SpanIds(ByteKeys(shorts[i])))
      + seq(|verdicts|, i requires 0 <= i < |verdicts| => VerdictId(verdicts[i]))
  }

  /** How a candidate is displayed. */
  datatype Style = IsAnswerStyle | ContainsAnswerStyle | NotAnswerStyle

  /** A top-level candidate as `LongAnswerCandidate` holds it (its token
      text is presentation and not modelled). */
  datatype Candidate = Candidate(index: nat, isAnswer: bool, containsAnswer: bool, style: Style)

  /** `LongAnswerCandidate.__init__`: the style gives `is_answer`
      precedence over `contains_answer`. */
  function MakeCandidate(index: nat, isAnswer: bool, containsAnswer: bool): (c: Candidate)
    ensures c.index == index && c.isAnswer == isAnswer && c.containsAnswer == containsAnswer
    ensures c.style == IsAnswerStyle <==> isAnswer
    ensures c.style == NotAnswerStyle <==> !isAnswer && !containsAnswer
  {
    var style :=
      if isAnswer then IsAnswerStyle
      else if containsAnswer then ContainsAnswerStyle
      else NotAnswerStyle;
    Candidate(index, isAnswer, containsAnswer, style)
  }

  /** `np.any` over the long answers: some answer has exactly the bounds
      `start` and `end`. */
  function AnyExact(start: int, end: int, answers: seq<Bounds>): (r: bool)
    ensures r <==> exists i :: 0 <= i < |answers| && answers[i].startByte == start && answers[i].endByte == end
  {
    if |answers| == 0 then false
    else
      assert forall i :: 1 <= i < |answers| ==> answers[i] == answers[1..][i - 1];
      (start == answers[0].startByte && end == answers[0].endByte) || AnyExact(start, end, answers[1..])
  }

  /** `np.any` over the long answers: some answer lies within `start` and
      `end`. */
  function AnyEnclosed(start: int, end: int, answers: seq<Bounds>): (r: bool)
    ensures r <==> exists i :: 0 <= i < |answers| && start <= answers[i].startByte && answers[i].endByte <= end
  {
    if |answers| == 0 then false
    else
      assert forall i :: 1 <= i < |answers| ==> answers[i] == answers[1..][i - 1];
      (start <= answers[0].startByte && end >= answers[0].endByte) || AnyEnclosed(start, end, answers[1..])
  }

  predicate IsTopLevel(c: JsonCandidate) {
    c.topLevel
  }

  /** The top-level candidates, in input order. */
  function TopLevel(cands: seq<JsonCandidate>): (r: seq<JsonCandidate>)
    ensures |r| == CountWhere(cands, IsTopLevel)
    ensures forall i :: 0 <= i < |r| ==> r[i].topLevel && r[i] in cands
  {
    if |cands| == 0 then []
    else (if cands[0].topLevel then [cands[0]] else []) + TopLevel(cands[1..])
  }

  /** Filtering keeps input order: the top-level candidates of two runs are
      those of the first followed by those of the second. */
  lemma {:induction false} TopLevelAppend(a: seq<JsonCandidate>, b: seq<JsonCandidate>)
    ensures TopLevel(a + b) == TopLevel(a) + TopLevel(b)
    decreases |a|
  {
    if |a| == 0 {
      assert a + b == b;
    } else {
      assert (a + b)[0] == a[0] && (a + b)[1..] == a[1..] + b;
      TopLevelAppend(a[1..], b);
    }
  }

  /** A single candidate is kept exactly when it is top-level. */
  lemma TopLevelSingle(c: JsonCandidate)
    ensures TopLevel([c]) == (if c.topLevel then [c] else [])
  {
    assert [c][1..] == [];
  }

  /** `Example.get_candidates`: one candidate per top-level JSON
      candidate, numbered from 0 in order. A candidate is the answer when
      some long answer has exactly its bytes, and contains the answer when
      some long answer lies within its bytes; without a long answer it is
      neither. */
  function GetCandidates(cands: seq<JsonCandidate>, hasLong: bool, longAnswers: seq<Bounds>): (r: seq<Candidate>)
    ensures |r| == CountWhere(cands, IsTopLevel)
    ensures forall i :: 0 <= i < |r| ==> r[i].index == i
    ensures forall i :: 0 <= i < |r| ==>
      var b := TopLevel(cands)[i].bounds;
      && (r[i].isAnswer <==> hasLong && exists j :: (0 <= j < |longAnswers| &&
            longAnswers[j].startByte == b.startByte && longAnswers[j].endByte == b.endByte))
      && (r[i].containsAnswer <==> hasLong && exists j :: (0 <= j < |longAnswers| &&
            b.startByte <= longAnswers[j].startByte && longAnswers[j].endByte <= b.endByte))
  {
    var top := TopLevel(cands);
    var r := seq(|top|, i requires 0 <= i < |top| =>
      var b := top[i].bounds;
      MakeCandidate(i, hasLong && AnyExact(b.startByte, b.endByte, longAnswers),
                       hasLong && AnyEnclosed(b.startByte, b.endByte, longAnswers)));
    assert forall i :: 0 <= i < |r| ==> r[i].index == i by {
      forall i | 0 <= i < |r| ensures r[i].index == i {
        var b := top[i].bounds;
        assert r[i] == MakeCandidate(i, hasLong && AnyExact(b.startByte, b.endByte, longAnswers),
                                        hasLong && AnyEnclosed(b.startByte, b.endByte, longAnswers));
      }
    }
    r
  }

  /** A candidate that is the answer also contains it, so its style is
      "not answer" exactly when it does not contain an answer. */
  lemma CandidateStyles(cands: seq<JsonCandidate>, hasLong: bool, longAnswers: seq<Bounds>, i: nat)
    requires i < |GetCandidates(cands, hasLong, longAnswers)|
    ensures var c := GetCandidates(cands, hasLong, longAnswers)[i];
      && (c.isAnswer ==> c.containsAnswer)
      && (c.style == NotAnswerStyle <==> !c.containsAnswer)
      && (c.style == ContainsAnswerStyle <==> c.containsAnswer && !c.isAnswer)
      && (!hasLong ==> c.style == NotAnswerStyle)
  {
    var c := GetCandidates(cands, hasLong, longAnswers)[i];
    if c.isAnswer {
      var b := TopLevel(cands)[i].bounds;
      var j :| 0 <= j < |longAnswers| && longAnswers[j].startByte == b.startByte && longAnswers[j].endByte == b.endByte;
      assert b.startByte <= longAnswers[j].startByte && longAnswers[j].endByte <= b.endByte;
    }
  }

  /** `candidates_with_answer` over the first `n` candidates: the indices of
      those containing an answer, in increasing order. */
  function AnswerIndices(cs: seq<Candidate>, n: nat): (r: seq<nat>)
    requires n <= |cs|
    ensures forall k :: 0 <= k < |r| ==> r[k] < n && cs[r[k]].containsAnswer
    ensures forall k, l :: 0 <= k < l < |r| ==> r[k] < r[l]
    ensures forall i :: 0 <= i < n && cs[i].containsAnswer ==> i in r
  {
    if n == 0 then []
    else AnswerIndices(cs, n - 1) + (if cs[n - 1].containsAnswer then [n - 1] else [])
  }

  /** The browser's example. Presentation fields (URL, title, HTML, token
      text, rendered answers) are not modelled; `longAnswer` and
      `shortAnswer` are the answers whose rendering is displayed. */
  datatype Example = Example(
    exampleId: int,
    hasLongAnswer: bool,
    hasShortAnswer: bool,
    longAnswers: seq<Bounds>,
    shortAnswers: seq<seq<Bounds>>,
    yesNoAnswers: seq<YesNo>,
    longAnswer: Option<Bounds>,
    shortAnswer: Option<ShortId>,
    candidates: seq<Candidate>,
    candidatesWithAnswer: seq<nat>)

  /** `Example.__init__`: it fails exactly when the example does not carry
      the policy's number of annotations. */
  function ExampleOf(json: JsonExample, policy: VotePolicy): (r: Result<Example, string>)
    requires policy.minVotes >= 1
    ensures r.Failure? <==> |json.annotations| != policy.raters
    ensures r.Success? ==> r.value.exampleId == json.exampleId
  {
    if |json.annotations| != policy.raters then
      Failure(if policy.raters == 1 then "Train set json_examples should have a single annotation."
              else "Dev set json_examples should have five annotations.")
    else
      Success(BuildExample(json, policy))
  }

  /** The example built from a line whose annotation count is right. */
  function BuildExample(json: JsonExample, policy: VotePolicy): (e: Example)
    requires policy.minVotes >= 1
    ensures e.exampleId == json.exampleId
  {
    var anns := json.annotations;
    var hasLong := CountWhere(anns, RaterHasLong) >= policy.minVotes;
    var hasShort := CountWhere(anns, RaterHasShort) >= policy.minVotes;
    var longAnswers := if hasLong then LongAnswersOf(anns) else [];
    var shortAnswers := if hasShort then ShortAnswersOf(anns) else [];
    var yesNoAnswers := if hasShort then YesNoAnswersOf(anns) else [];
    var longAnswer :=
      if hasLong then Some(longAnswers[MostFrequentIndex(ByteKeys(longAnswers))]) else None;
    var ids := ShortIds(shortAnswers, yesNoAnswers);
    ShortVotesAreShown(anns);
    var shortAnswer := if hasShort then Some(ids[MostFrequentIndex(ids)]) else None;
    var candidates := GetCandidates(json.candidates, hasLong, longAnswers);
    Example(json.exampleId, hasLong, hasShort, longAnswers, shortAnswers, yesNoAnswers,
            longAnswer, shortAnswer, candidates, AnswerIndices(candidates, |candidates|))
  }

  /** What a constructed example holds. A long (short) answer exists when
      at least `minVotes` raters give one; the answer lists are then the
      qualifying raters' entries, in rater order, and are empty otherwise,
      so an answer exists exactly when its list is non-empty. The displayed
      answer is the first of the most frequent ones, the candidates are
      classified against the kept long answers, and the indices of those
      containing an answer are listed. */
  lemma ExampleOfContents(json: JsonExample, policy: VotePolicy)
    requires policy.minVotes >= 1 && |json.annotations| == policy.raters
    ensures ExampleOf(json, policy).Success?
    ensures
      var e := ExampleOf(json, policy).value;
      var anns := json.annotations;
      && (e.hasLongAnswer <==> CountWhere(anns, RaterHasLong) >= policy.minVotes)
      && (e.hasShortAnswer <==> CountWhere(anns, RaterHasShort) >= policy.minVotes)
      && (e.hasLongAnswer <==> |e.longAnswers| > 0)
      && (e.hasShortAnswer <==> |e.shortAnswers| + |e.yesNoAnswers| > 0)
      && e.longAnswers == (if e.hasLongAnswer then LongAnswersOf(anns) else [])
      && e.shortAnswers == (if e.hasShortAnswer then ShortAnswersOf(anns) else [])
      && e.yesNoAnswers == (if e.hasShortAnswer then YesNoAnswersOf(anns) else [])
      && (e.longAnswer.Some? <==> e.hasLongAnswer)
      && (e.longAnswer.Some? ==> exists i: nat :: (
            && IsModalPick(ByteKeys(e.longAnswers), i)
            && e.longAnswer.value == e.longAnswers[i]))
      && (e.shortAnswer.Some? <==> e.hasShortAnswer)
      && (e.shortAnswer.Some? ==> exists i: nat :: (
            && IsModalPick(ShortIds(e.shortAnswers, e.yesNoAnswers), i)
            && e.shortAnswer.value == ShortIds(e.shortAnswers, e.yesNoAnswers)[i]))
      && e.candidates == GetCandidates(json.candidates, e.hasLongAnswer, e.longAnswers)
      && e.candidatesWithAnswer == AnswerIndices(e.candidates, |e.candidates|)
  {
    var anns := json.annotations;
    ShortVotesAreShown(anns);
    CountWhereMonotone(anns, RaterHasSpans, RaterHasShort);
    CountWhereMonotone(anns, RaterHasVerdict, RaterHasShort);
  }

  /** Under the training policy the vote is that single annotation's own
      flags. */
  lemma TrainPolicyIsSingleRater(json: JsonExample)
    requires |json.annotations| == 1
    ensures var r := ExampleOf(json, PolicyFor(Train));
      && r.Success?
      && (r.value.hasLongAnswer <==> json.annotations[0].longAnswer.startByte >= 0)
      && (r.value.hasShortAnswer <==>
            |json.annotations[0].shortAnswers| > 0 || json.annotations[0].yesNo != NoVerdict)
  {
    var anns := json.annotations;
    assert anns[1..] == [];
  }

  /** Module-level `has_long_answer`: any rater gives a long answer, that
      is, the long-answer vote count is positive. */
  predicate AnyRaterHasLong(json: JsonExample)
    ensures AnyRaterHasLong(json) <==> CountWhere(json.annotations, RaterHasLong) > 0
  {
    CountWherePositive(json.annotations, RaterHasLong);
    exists i :: 0 <= i < |json.annotations| && json.annotations[i].longAnswer.startByte >= 0
  }

  /** Module-level `has_short_answer`: any rater lists short spans. Unlike
      the example's own flag, verdicts are not considered: the filter holds
      exactly when some rater's short-answer list would be kept. */
  predicate AnyRaterHasShortSpans(json: JsonExample)
    ensures AnyRaterHasShortSpans(json) <==> CountWhere(json.annotations, RaterHasSpans) > 0
  {
    CountWherePositive(json.annotations, RaterHasSpans);
    exists i :: 0 <= i < |json.annotations| && |json.annotations[i].shortAnswers| > 0
  }

  /** Whenever enough raters give a long answer for the example to show
      one, the module-level filter keeps it. */
  lemma LongAnswerPassesFilter(json: JsonExample, policy: VotePolicy)
    requires policy.minVotes >= 1 && CountWhere(json.annotations, RaterHasLong) >= policy.minVotes
    ensures |json.annotations| == policy.raters ==> ExampleOf(json, policy).value.hasLongAnswer
    ensures AnyRaterHasLong(json)
  {
    CountWherePositive(json.annotations, RaterHasLong);
  }

  /** A lone verdict is a short answer for the example but not for the
      module-level filter. */
  lemma VerdictOnlyIsFilteredOut()
    ensures var json := JsonExample(0, [Annotation(Bounds(-1, -1, -1, -1), [], Yes)], []);
      && ExampleOf(json, PolicyFor(Train)).Success?
      && ExampleOf(json, PolicyFor(Train)).value.hasShortAnswer
      && !AnyRaterHasShortSpans(json)
  {
    var json := JsonExample(0, [Annotation(Bounds(-1, -1, -1, -1), [], Yes)], []);
    TrainPolicyIsSingleRater(json);
  }

  /** The most frequent answer wins, and ties go to the first occurrence. */
  lemma MostFrequentCases()
    ensures MostFrequentIndex([(0, 10), (0, 9), (0, 9)]) == 1
    ensures MostFrequentIndex([(0, 10), (0, 9)]) == 0
  {
    var a := [(0, 10), (0, 9), (0, 9)];
    assert multiset(a)[(0, 10)] == 1 && multiset(a)[(0, 9)] == 2;
    var b := [(0, 10), (0, 9)];
    assert multiset(b)[(0, 10)] == 1 && multiset(b)[(0, 9)] == 1;
    assert b[1] != b[0];
  }

  /** Which examples the browser loads. */
  datatype Mode = AllExamples | LongAnswersOnly | ShortAnswersOnly

  /** The mode filter of the loading loop. */
  predicate Selected(mode: Mode, json: JsonExample) {
    match mode
    case AllExamples => true
    case LongAnswersOnly => AnyRaterHasLong(json)
    case ShortAnswersOnly => AnyRaterHasShortSpans(json)
  }

  /** What the mode filter keeps: every example in the default mode,
      otherwise those where some rater gives a long answer, or lists short
      spans, i.e. whose unvoted answer list is non-empty. */
  lemma SelectedMeaning(mode: Mode, json: JsonExample)
    ensures mode == AllExamples ==> Selected(mode, json)
    ensures mode == LongAnswersOnly ==> (Selected(mode, json) <==> |LongAnswersOf(json.annotations)| > 0)
    ensures mode == ShortAnswersOnly ==> (Selected(mode, json) <==> |ShortAnswersOf(json.annotations)| > 0)
  {
  }

  /** `load_examples._load` from the remaining `lines` into `acc`. Skipped
      lines are those the mode filters out; each kept line becomes an
      example stored under its id (a later one replaces an earlier one), a
      malformed one aborts the load, and the load stops as soon as
      `maxExamples` examples are held (never, when `maxExamples` is not
      positive, since the count is compared only after an insertion). */
  function LoadFrom(lines: seq<JsonExample>, mode: Mode, policy: VotePolicy, maxExamples: int,
                    acc: map<int, Example>): (r: Result<map<int, Example>, string>)
    requires policy.minVotes >= 1
    requires maxExamples <= 0 || |acc| < maxExamples
    ensures r.Success? && maxExamples > 0 ==> |r.value| <= maxExamples
    ensures r.Success? ==> acc.Keys <= r.value.Keys
    ensures r.Failure? ==>
      exists i :: 0 <= i < |lines| && Selected(mode, lines[i]) && |lines[i].annotations| != policy.raters
    decreases |lines|
  {
    if |lines| == 0 then Success(acc)
    else
      assert forall i :: 1 <= i < |lines| ==> lines[i] == lines[1..][i - 1];
      if !Selected(mode, lines[0]) then LoadFrom(lines[1..], mode, policy, maxExamples, acc)
      else
        match ExampleOf(lines[0], policy)
        case Failure(e) => Failure(e)
        case Success(example) =>
          var acc' := acc[example.exampleId := example];
          if |acc'| == maxExamples then Success(acc')
          else LoadFrom(lines[1..], mode, policy, maxExamples, acc')
  }

  /** Every loaded example is either one `acc` already held under that id
      or was built from a kept line carrying the id. */
  lemma {:induction false} LoadFromProvenance(lines: seq<JsonExample>, mode: Mode, policy: VotePolicy,
                                              maxExamples: int, acc: map<int, Example>)
    requires policy.minVotes >= 1
    requires maxExamples <= 0 || |acc| < maxExamples
    requires LoadFrom(lines, mode, policy, maxExamples, acc).Success?
    ensures forall id :: id in LoadFrom(lines, mode, policy, maxExamples, acc).value ==>
      KeptOrBuilt(lines, mode, policy, acc, id, LoadFrom(lines, mode, policy, maxExamples, acc).value[id])
    decreases |lines|
  {
    if |lines| > 0 {
      var loaded := LoadFrom(lines, mode, policy, maxExamples, acc).value;
      if !Selected(mode, lines[0]) {
        assert loaded == LoadFrom(lines[1..], mode, policy, maxExamples, acc).value;
        LoadFromProvenance(lines[1..], mode, policy, maxExamples, acc);
        forall id | id in loaded && BuiltFromLine(lines[1..], mode, policy, id, loaded[id])
          ensures BuiltFromLine(lines, mode, policy, id, loaded[id])
        {
          BuiltFromLater(lines, mode, policy, id, loaded[id]);
        }
      } else {
        var example := ExampleOf(lines[0], policy).value;
        var acc' := acc[example.exampleId := example];
        assert BuiltFromLine(lines, mode, policy, example.exampleId, example) by {
          assert lines[0].exampleId == example.exampleId;
        }
        if |acc'| != maxExamples {
          assert loaded == LoadFrom(lines[1..], mode, policy, maxExamples, acc').value;
          LoadFromProvenance(lines[1..], mode, policy, maxExamples, acc');
          forall id | id in loaded && BuiltFromLine(lines[1..], mode, policy, id, loaded[id])
            ensures BuiltFromLine(lines, mode, policy, id, loaded[id])
          {
            BuiltFromLater(lines, mode, policy, id, loaded[id]);
          }
        } else {
          assert loaded == acc';
        }
      }
    }
  }

  /** `example` is what `acc` held under `id`, or a kept line built it. */
  ghost predicate KeptOrBuilt(lines: seq<JsonExample>, mode: Mode, policy: VotePolicy,
                              acc: map<int, Example>, id: int, example: Example)
    requires policy.minVotes >= 1
  {
    (id in acc && acc[id] == example) || BuiltFromLine(lines, mode, policy, id, example)
  }

  /** Some kept line carries `id` and builds `example`. */
  ghost predicate BuiltFromLine(lines: seq<JsonExample>, mode: Mode, policy: VotePolicy,
                                id: int, example: Example)
    requires policy.minVotes >= 1
  {
    exists i :: (
      && 0 <= i < |lines|
      && Selected(mode, lines[i])
      && lines[i].exampleId == id
      && ExampleOf(lines[i], policy) == Success(example))
  }

  lemma BuiltFromLater(lines: seq<JsonExample>, mode: Mode, policy: VotePolicy, id: int, example: Example)
    requires policy.minVotes >= 1 && |lines| > 0
    requires BuiltFromLine(lines[1..], mode, policy, id, example)
    ensures BuiltFromLine(lines, mode, policy, id, example)
  {
    var j :| (
      && 0 <= j < |lines[1..]|
      && Selected(mode, lines[1..][j])
      && lines[1..][j].exampleId == id
      && ExampleOf(lines[1..][j], policy) == Success(example));
    assert lines[1..][j] == lines[j + 1];
  }

  /** A load that ends below the cut-off (or has none) has read every line:
      it holds every kept line's id, and no kept line had the wrong number
      of annotations. */
  lemma {:induction false} LoadFromComplete(lines: seq<JsonExample>, mode: Mode, policy: VotePolicy,
                                            maxExamples: int, acc: map<int, Example>)
    requires policy.minVotes >= 1
    requires maxExamples <= 0 || |acc| < maxExamples
    requires LoadFrom(lines, mode, policy, maxExamples, acc).Success?
    requires maxExamples <= 0 || |LoadFrom(lines, mode, policy, maxExamples, acc).value| < maxExamples
    ensures forall i :: 0 <= i < |lines| && Selected(mode, lines[i]) ==>
      lines[i].exampleId in LoadFrom(lines, mode, policy, maxExamples, acc).value
    ensures forall i :: 0 <= i < |lines| && Selected(mode, lines[i]) ==>
      |lines[i].annotations| == policy.raters
    decreases |lines|
  {
    if |lines| > 0 {
      assert forall i :: 1 <= i < |lines| ==> lines[i] == lines[1..][i - 1];
      if !Selected(mode, lines[0]) {
        LoadFromComplete(lines[1..], mode, policy, maxExamples, acc);
      } else {
        var example := ExampleOf(lines[0], policy).value;
        var acc' := acc[example.exampleId := example];
        LoadFromComplete(lines[1..], mode, policy, maxExamples, acc');
      }
    }
  }

  /** Folding over `a + b` is folding over `a` and then, unless that
      failed or stopped at the cut-off, over `b` from what `a` left: once
      `maxExamples` examples are held, no later line is read. */
  lemma {:induction false} LoadFromAppend(a: seq<JsonExample>, b: seq<JsonExample>, mode: Mode,
                                          policy: VotePolicy, maxExamples: int, acc: map<int, Example>)
    requires policy.minVotes >= 1
    requires maxExamples <= 0 || |acc| < maxExamples
    ensures LoadFrom(a + b, mode, policy, maxExamples, acc) ==
      match LoadFrom(a, mode, policy, maxExamples, acc)
      case Failure(e) => Failure(e)
      case Success(m) =>
        if maxExamples > 0 && |m| == maxExamples then Success(m)
        else LoadFrom(b, mode, policy, maxExamples, m)
    decreases |a|
  {
    if |a| == 0 {
      assert a + b == b;
    } else {
      assert (a + b)[0] == a[0] && (a + b)[1..] == a[1..] + b;
      if !Selected(mode, a[0]) {
        LoadFromAppend(a[1..], b, mode, policy, maxExamples, acc);
      } else if ExampleOf(a[0], policy).Success? {
        var example := ExampleOf(a[0], policy).value;
        var acc' := acc[example.exampleId := example];
        if |acc'| != maxExamples {
          LoadFromAppend(a[1..], b, mode, policy, maxExamples, acc');
        }
      }
    }
  }

  /** `load_examples`: the fold from an empty dictionary. */
  function LoadExamples(lines: seq<JsonExample>, mode: Mode, policy: VotePolicy, maxExamples: int)
    : (r: Result<map<int, Example>, string>)
    requires policy.minVotes >= 1
    ensures r.Success? && maxExamples > 0 ==> |r.value| <= maxExamples
    ensures r.Failure? ==>
      exists i :: 0 <= i < |lines| && Selected(mode, lines[i]) && |lines[i].annotations| != policy.raters
    ensures maxExamples <= 0 ==> (r.Failure? <==>
      exists i :: 0 <= i < |lines| && Selected(mode, lines[i]) && |lines[i].annotations| != policy.raters)
  {
    var r := LoadFrom(lines, mode, policy, maxExamples, map[]);
    assert r.Success? && maxExamples <= 0 ==>
      forall i :: 0 <= i < |lines| && Selected(mode, lines[i]) ==> |lines[i].annotations| == policy.raters by {
      if r.Success? && maxExamples <= 0 {
        LoadFromComplete(lines, mode, policy, maxExamples, map[]);
      }
    }
    r
  }

  /** What a successful load holds: each entry was built from a kept line
      carrying its id, and unless the cut-off was reached every kept line's
      id is present and no kept line was malformed (one would have raised). */
  lemma {:induction false} LoadExamplesContents(lines: seq<JsonExample>, mode: Mode, policy: VotePolicy,
                                                maxExamples: int)
    requires policy.minVotes >= 1
    requires LoadExamples(lines, mode, policy, maxExamples).Success?
    ensures forall id :: id in LoadExamples(lines, mode, policy, maxExamples).value ==>
      BuiltFromLine(lines, mode, policy, id, LoadExamples(lines, mode, policy, maxExamples).value[id])
    ensures maxExamples <= 0 || |LoadExamples(lines, mode, policy, maxExamples).value| < maxExamples ==>
      forall i :: 0 <= i < |lines| && Selected(mode, lines[i]) ==>
        lines[i].exampleId in LoadExamples(lines, mode, policy, maxExamples).value
    ensures maxExamples <= 0 || |LoadExamples(lines, mode, policy, maxExamples).value| < maxExamples ==>
      forall i :: 0 <= i < |lines| && Selected(mode, lines[i]) ==> |lines[i].annotations| == policy.raters
  {
    var loaded := LoadExamples(lines, mode, policy, maxExamples).value;
    LoadFromProvenance(lines, mode, policy, maxExamples, map[]);
    if maxExamples <= 0 || |loaded| < maxExamples {
      LoadFromComplete(lines, mode, policy, maxExamples, map[]);
    }
  }

  /** One line: a line the mode filters out leaves `acc` as it is, a
      malformed kept line fails the load, and a well-formed kept line is
      stored under its id, replacing whatever `acc` held there. With
      `LoadFromAppend` this fixes the fold line by line. */
  lemma LoadFromSingle(x: JsonExample, mode: Mode, policy: VotePolicy, maxExamples: int,
                       acc: map<int, Example>)
    requires policy.minVotes >= 1
    requires maxExamples <= 0 || |acc| < maxExamples
    ensures LoadFrom([x], mode, policy, maxExamples, acc) ==
      if !Selected(mode, x) then Success(acc)
      else match ExampleOf(x, policy)
        case Failure(e) => Failure(e)
        case Success(example) => Success(acc[example.exampleId := example])
  {
    assert [x][1..] == [];
  }

  /** Two kept lines with the same id: the later line's example is the one
      loaded, whatever the earlier line held. */
  lemma LaterLineReplaces()
    ensures
      var earlier := JsonExample(7, [Annotation(Bounds(0, 10, 0, 2), [], NoVerdict)], []);
      var later := JsonExample(7, [Annotation(Bounds(-1, -1, -1, -1), [], NoVerdict)], []);
      var policy := PolicyFor(Train);
      LoadExamples([earlier, later], AllExamples, policy, 200)
        == Success(map[7 := ExampleOf(later, policy).value])
  {
    var earlier := JsonExample(7, [Annotation(Bounds(0, 10, 0, 2), [], NoVerdict)], []);
    var later := JsonExample(7, [Annotation(Bounds(-1, -1, -1, -1), [], NoVerdict)], []);
    var policy := PolicyFor(Train);
    assert ExampleOf(earlier, policy).Success? && ExampleOf(later, policy).Success?;
    var first := ExampleOf(earlier, policy).value;
    var second := ExampleOf(later, policy).value;
    assert first.exampleId == 7 && second.exampleId == 7;
    LoadFromSingle(earlier, AllExamples, policy, 200, map[]);
    assert LoadFrom([earlier], AllExamples, policy, 200, map[]) == Success(map[7 := first]);
    LoadFromSingle(later, AllExamples, policy, 200, map[7 := first]);
    assert map[7 := first][7 := second] == map[7 := second];
    assert LoadFrom([later], AllExamples, policy, 200, map[7 := first]) == Success(map[7 := second]);
    LoadFromAppend([earlier], [later], AllExamples, policy, 200, map[]);
    assert [earlier] + [later] == [earlier, later];
  }

  /** Once a load of `a` holds `maxExamples` examples, whatever follows
      `a` in the file is never read: it cannot add an entry and a malformed
      line in it cannot abort the load. */
  lemma {:induction false} LoadStopsAtCutOff(a: seq<JsonExample>, b: seq<JsonExample>, mode: Mode,
                                             policy: VotePolicy, maxExamples: int)
    requires policy.minVotes >= 1
    requires LoadExamples(a, mode, policy, maxExamples).Success?
    requires maxExamples > 0 && |LoadExamples(a, mode, policy, maxExamples).value| == maxExamples
    ensures LoadExamples(a + b, mode, policy, maxExamples) == LoadExamples(a, mode, policy, maxExamples)
  {
    LoadFromAppend(a, b, mode, policy, maxExamples, map[]);
  }

  /** With a cut-off of two, three good lines load the first two ids, and
      a malformed third line is never read. */
  lemma CutOffKeepsFirstIds()
    ensures
      var line := (id: int) => JsonExample(id, [Annotation(Bounds(-1, -1, -1, -1), [], NoVerdict)], []);
      && LoadExamples([line(1), line(2), line(3)], AllExamples, PolicyFor(Train), 2).Success?
      && LoadExamples([line(1), line(2), line(3)], AllExamples, PolicyFor(Train), 2).value.Keys == {1, 2}
      && LoadExamples([line(1), line(2), JsonExample(3, [], [])], AllExamples, PolicyFor(Train), 2).Success?
  {
    var line := (id: int) => JsonExample(id, [Annotation(Bounds(-1, -1, -1, -1), [], NoVerdict)], []);
    var policy := PolicyFor(Train);
    var first := LoadExamples([line(1), line(2)], AllExamples, policy, 2);
    var e1 := ExampleOf(line(1), policy).value;
    var e2 := ExampleOf(line(2), policy).value;
    assert [line(1), line(2)][1..] == [line(2)];
    assert LoadFrom([line(1), line(2)], AllExamples, policy, 2, map[])
      == LoadFrom([line(2)], AllExamples, policy, 2, map[1 := e1]);
    assert map[1 := e1][2 := e2].Keys == {1, 2};
    assert first == Success(map[1 := e1][2 := e2]);
    LoadStopsAtCutOff([line(1), line(2)], [line(3)], AllExamples, policy, 2);
    LoadStopsAtCutOff([line(1), line(2)], [JsonExample(3, [], [])], AllExamples, policy, 2);
    assert [line(1), line(2)] + [line(3)] == [line(1), line(2), line(3)];
    assert [line(1), line(2)] + [JsonExample(3, [], [])] == [line(1), line(2), JsonExample(3, [], [])];
  }

  /** A malformed line after a good one with the same id still aborts the
      load when the cut-off has not been reached. */
  lemma LaterMalformedLineRaises()
    ensures
      var good := JsonExample(7, [Annotation(Bounds(-1, -1, -1, -1), [], NoVerdict)], []);
      var malformed := JsonExample(7, [], []);
      LoadExamples([good, malformed], AllExamples, PolicyFor(Train), 200).Failure?
  {
    var good := JsonExample(7, [Annotation(Bounds(-1, -1, -1, -1), [], NoVerdict)], []);
    var malformed := JsonExample(7, [], []);
    var lines := [good, malformed];
    var acc := map[7 := ExampleOf(good, PolicyFor(Train)).value];
    assert |acc| == 1;
    assert lines[1..] == [malformed];
    assert LoadFrom(lines, AllExamples, PolicyFor(Train), 200, map[]) == LoadFrom([malformed], AllExamples, PolicyFor(Train), 200, acc);
  }
}
