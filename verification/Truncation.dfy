/**
  Shortening a state to its budgets (internal/contract/request.go): the cluster-aware cut around the
  truncation marker and the search for the largest part that fits the prompt tokens. Rendering a prompt
  is a function of the question; the state is a sequence of runes.
*/
module Truncation {
  import opened Tokens
  import opened Wrappers

  const PAIR_SPECIAL_TOKENS := 4
  const MIN_PREMISE_TOKENS := 8
  const ZWJ: Rune := 0x200d
  const MARKER: Text := Runes("\n...[state truncated]...\n")

  function Runes(s: string): (t: Text)
    ensures |t| == |s| && forall i :: 0 <= i < |s| ==> t[i] == s[i] as int
  {
    seq(|s|, i requires 0 <= i < |s| => s[i] as int)
  }

  // ---------------------------------------------------------------- cluster boundaries

  predicate Extender(r: Rune) {
    || r == 0x200c || r == 0x200d
    || 0x0300 <= r <= 0x036f || 0x1ab0 <= r <= 0x1aff || 0x1dc0 <= r <= 0x1dff
    || 0x20d0 <= r <= 0x20ff || 0xfe00 <= r <= 0xfe0f || 0xfe20 <= r <= 0xfe2f
    || 0x1f3fb <= r <= 0x1f3ff || 0xe0020 <= r <= 0xe007f || 0xe0100 <= r <= 0xe01ef
  }

  predicate Indicator(r: Rune) { 0x1f1e6 <= r <= 0x1f1ff }

  // How many regional indicators in a row end just before i.
  function IndicatorsBefore(r: Text, i: nat): (n: nat)
    requires i <= |r|
    ensures n <= i && (forall j :: i - n <= j < i ==> Indicator(r[j])) && (n == i || !Indicator(r[i - n - 1]))
  {
    if i > 0 && Indicator(r[i - 1]) then IndicatorsBefore(r, i - 1) + 1 else 0
  }

  predicate Boundary(r: Text, i: nat) {
    || i == 0 || i >= |r|
    || (&& !Extender(r[i]) && r[i - 1] != ZWJ
        && (Indicator(r[i]) && Indicator(r[i - 1]) ==> IndicatorsBefore(r, i) % 2 == 0))
  }

  method ClusterBoundary(r: Text, i: nat) returns (b: bool)
    ensures b <==> Boundary(r, i)
  {
    if i <= 0 || i >= |r| { return true; }
    if Extender(r[i]) || r[i - 1] == ZWJ { return false; }
    if Indicator(r[i]) && Indicator(r[i - 1]) {
      var n := 0;
      var j: int := i - 1;
      while j >= 0 && Indicator(r[j])
        invariant -1 <= j < i && n == i - 1 - j
        invariant IndicatorsBefore(r, i) == n + IndicatorsBefore(r, j + 1)
      {
        n := n + 1;
        j := j - 1;
      }
      return n % 2 == 0;
    }
    b := true;
  }

  lemma {:induction false} IndicatorsInRun(r: Text, a: nat, i: nat)
    requires a <= i <= |r| && (a == 0 || !Indicator(r[a - 1])) && forall j :: a <= j < i ==> Indicator(r[j])
    ensures IndicatorsBefore(r, i) == i - a
    decreases i
  {
    if i > a { IndicatorsInRun(r, a, i - 1); }
  }

  /** Inside a run of regional indicators a cut may only fall between two whole flags. */
  lemma FlagsStayPaired(r: Text, a: nat, i: nat)
    requires a < i < |r| && (a == 0 || !Indicator(r[a - 1])) && forall j :: a <= j <= i ==> Indicator(r[j])
    ensures Boundary(r, i) <==> (i - a) % 2 == 0
  {
    IndicatorsInRun(r, a, i);
  }

  // ---------------------------------------------------------------- the cut

  // The last boundary at or before h, and the first at or after t.
  function CutBefore(r: Text, h: nat): (b: nat)
    ensures b <= h && Boundary(r, b) && forall i :: b < i <= h ==> !Boundary(r, i)
  {
    if Boundary(r, h) then h else CutBefore(r, h - 1)
  }

  function CutAfter(r: Text, t: nat): (b: nat)
    requires t <= |r|
    ensures t <= b <= |r| && Boundary(r, b) && forall i :: t <= i < b ==> !Boundary(r, i)
    decreases |r| - t
  {
    if Boundary(r, t) then t else CutAfter(r, t + 1)
  }

  function HeadEnd(r: Text, keep: nat): nat { CutBefore(r, keep - keep / 2) }

  function TailStart(r: Text, keep: nat): nat
    requires keep <= |r|
  {
    CutAfter(r, |r| - keep / 2)
  }

  lemma PartsApart(r: Text, keep: nat)
    requires keep <= |r|
    ensures HeadEnd(r, keep) <= TailStart(r, keep) <= |r|
    ensures HeadEnd(r, keep) + |r| - TailStart(r, keep) <= keep
  {
  }

  function Shortened(r: Text, keep: nat): Text
    requires keep <= |r|
  {
    r[..HeadEnd(r, keep)] + MARKER + r[TailStart(r, keep)..]
  }

  // keep in two halves, the larger one first.
  ghost predicate Halves(keep: nat, larger: nat, smaller: nat) {
    larger + smaller == keep && smaller <= larger <= smaller + 1
  }

  // The last place at or before i, and the first at or after it, where a cluster may start.
  ghost predicate LastBoundary(r: Text, i: nat, h: nat) {
    h <= i && Boundary(r, h) && forall j :: h < j <= i ==> !Boundary(r, j)
  }

  ghost predicate FirstBoundary(r: Text, i: nat, t: nat) {
    i <= t <= |r| && Boundary(r, t) && forall j :: i <= j < t ==> !Boundary(r, j)
  }

  // h and t cut r where the halves of keep end, moved outwards to whole clusters.
  ghost predicate CutAt(r: Text, keep: nat, h: nat, t: nat)
    requires keep <= |r|
  {
    exists larger: nat, smaller: nat :: Halves(keep, larger, smaller)
      && LastBoundary(r, larger, h) && smaller <= |r| && FirstBoundary(r, |r| - smaller, t)
  }

  /** shorten keeps the head up to the last boundary within the larger half of keep, and the tail from the first
      boundary within the smaller half from the end. */
  lemma ShortenedIs(r: Text, keep: nat) returns (h: nat, t: nat)
    requires keep <= |r|
    ensures CutAt(r, keep, h, t) && h <= t <= |r| && Shortened(r, keep) == r[..h] + MARKER + r[t..]
  {
    h, t := HeadEnd(r, keep), TailStart(r, keep);
    assert Halves(keep, keep - keep / 2, keep / 2);
  }

  // Only one pair of places does that.
  lemma CutOnce(r: Text, keep: nat, h: nat, t: nat, h': nat, t': nat)
    requires keep <= |r| && CutAt(r, keep, h, t) && CutAt(r, keep, h', t')
    ensures h == h' && t == t'
  {
  }

  /** No kept piece starts with a combining mark or right after a joiner. */
  lemma PiecesWhole(r: Text, keep: nat, h: nat, t: nat)
    requires keep <= |r| && CutAt(r, keep, h, t)
    ensures 0 < h < |r| ==> !Extender(r[h]) && r[h - 1] != ZWJ
    ensures 0 < t < |r| ==> !Extender(r[t]) && r[t - 1] != ZWJ
  {
  }

  method Shorten(r: Text, keep: nat) returns (s: Text, ghost h: nat, ghost t: nat)
    requires keep <= |r|
    ensures s == Shortened(r, keep)
    ensures CutAt(r, keep, h, t) && h <= t <= |r| && s == r[..h] + MARKER + r[t..]
  {
    var tail := keep / 2;
    var head: int := keep - tail;
    var b := ClusterBoundary(r, head);
    while head > 0 && !b
      invariant 0 <= head <= keep - tail && (b <==> Boundary(r, head))
      invariant CutBefore(r, head) == HeadEnd(r, keep)
    {
      head := head - 1;
      b := ClusterBoundary(r, head);
    }
    var end := |r| - tail;
    b := ClusterBoundary(r, end);
    while end < |r| && !b
      invariant |r| - tail <= end <= |r| && (b <==> Boundary(r, end))
      invariant CutAfter(r, end) == TailStart(r, keep)
    {
      end := end + 1;
      b := ClusterBoundary(r, end);
    }
    h, t := ShortenedIs(r, keep);
    s := r[..head] + MARKER + r[end..];
  }

  /** Both kept pieces end at cluster boundaries, they hold at most keep runes, and they only grow with keep. */
  lemma ShortenedGrows(r: Text, keep: nat, more: nat)
    requires keep <= more <= |r|
    ensures Boundary(r, HeadEnd(r, keep)) && Boundary(r, TailStart(r, keep))
    ensures |Shortened(r, keep)| <= keep + |MARKER|
    ensures HeadEnd(r, keep) <= HeadEnd(r, more) <= |r|
    ensures TailStart(r, more) <= TailStart(r, keep) <= |r|
  {
    PartsApart(r, keep);
    var h, h' := keep - keep / 2, more - more / 2;
    assert h <= h' && |r| - more / 2 <= |r| - keep / 2;
  }

  /** The plain estimate of what is kept grows with keep: the marker keeps the pieces' runs apart. */
  lemma EstimateGrows(before: Text, r: Text, keep: nat, more: nat, after: Text)
    requires keep <= more <= |r|
    ensures Cost(before + Shortened(r, keep) + after) <= Cost(before + Shortened(r, more) + after)
  {
    ShortenedGrows(r, keep, more);
    SurroundedCost(before, r, keep, after);
    SurroundedCost(before, r, more, after);
    HeadCost(before, r, HeadEnd(r, keep), HeadEnd(r, more));
    TailCost(r, TailStart(r, more), TailStart(r, keep), after);
  }

  lemma HeadCost(before: Text, r: Text, h: nat, h': nat)
    requires h <= h' <= |r|
    ensures Cost(before + r[..h]) <= Cost(before + r[..h'])
  {
    Superadditive(before + r[..h], r[h..h']);
    assert before + r[..h'] == before + r[..h] + r[h..h'];
  }

  lemma TailCost(r: Text, t: nat, t': nat, after: Text)
    requires t <= t' <= |r|
    ensures Cost(r[t'..] + after) <= Cost(r[t..] + after)
  {
    Superadditive(r[t..t'], r[t'..] + after);
    assert r[t..] + after == r[t..t'] + (r[t'..] + after);
  }

  lemma SurroundedCost(before: Text, r: Text, keep: nat, after: Text)
    requires keep <= |r|
    ensures Cost(before + Shortened(r, keep) + after)
      == Cost(before + r[..HeadEnd(r, keep)]) + Cost(MARKER) + Cost(r[TailStart(r, keep)..] + after)
  {
    var a, z := before + r[..HeadEnd(r, keep)], r[TailStart(r, keep)..] + after;
    assert before + Shortened(r, keep) + after == a + MARKER + z;
    assert !Alnum(MARKER[0]) && !Alnum(MARKER[|MARKER| - 1]);
    assert (a + MARKER)[|a + MARKER| - 1] == MARKER[|MARKER| - 1];
    Superadditive(a, MARKER);
    Superadditive(a + MARKER, z);
  }

  // ---------------------------------------------------------------- the budgets

  datatype Limits = Limits(maxStateChars: nat, maxPromptTokens: int, pairMode: bool, truncate: bool)

  // Code points of instructions and labels, the one-line hypotheses of the pair mode, and the letter
  // prompt around a state; None when there are more options than letters.
  datatype Question = Question(chars: nat, hypotheses: seq<Text>, render: Text -> Option<Text>)

  function WorstOf(ts: seq<Text>): nat {
    if ts == [] then 0 else Larger(WorstOf(ts[..|ts| - 1]), Estimate(ts[|ts| - 1]))
  }

  function Larger(a: nat, b: nat): nat { if a >= b then a else b }

  function PromptTokens(q: Question, state: Text, pair: bool): nat {
    if pair then Estimate(state) + WorstOf(q.hypotheses) + PAIR_SPECIAL_TOKENS
    else match q.render(state)
         case None => 0
         case Some(p) => Estimate(p)
  }

  function WorstPrompt(qs: seq<Question>, state: Text, pair: bool): nat {
    if qs == [] then 0 else Larger(WorstPrompt(qs[..|qs| - 1], state, pair), PromptTokens(qs[|qs| - 1], state, pair))
  }

  function Longest(qs: seq<Question>): nat {
    if qs == [] then 0 else Larger(Longest(qs[..|qs| - 1]), qs[|qs| - 1].chars)
  }

  predicate TokenFits(qs: seq<Question>, lim: Limits, state: Text) {
    lim.maxPromptTokens <= 0 || (lim.pairMode && lim.truncate)
      || WorstPrompt(qs, state, lim.pairMode) <= lim.maxPromptTokens
  }

  ghost predicate HypothesesFit(qs: seq<Question>, lim: Limits) {
    lim.maxPromptTokens > 0 && lim.pairMode ==>
      forall i :: 0 <= i < |qs| ==> PromptTokens(qs[i], [], true) + MIN_PREMISE_TOKENS <= lim.maxPromptTokens
  }

  predicate CharOver(rs: Text, qs: seq<Question>, lim: Limits) { |rs| + Longest(qs) > lim.maxStateChars }

  datatype Budgeted = Budgeted(state: Text, truncated: bool)

  datatype BudgetError = StateOver | QuestionOver

  // Where the search starts: what the characters leave, or one rune less than everything.
  function MostKept(rs: Text, qs: seq<Question>, lim: Limits): int {
    if CharOver(rs, qs, lim) then lim.maxStateChars - Longest(qs) - |MARKER| else |rs| - 1
  }

  method FindWorstPrompt(qs: seq<Question>, state: Text, pair: bool) returns (worst: nat)
    ensures worst == WorstPrompt(qs, state, pair)
  {
    worst := 0;
    for i := 0 to |qs|
      invariant worst == WorstPrompt(qs[..i], state, pair)
    {
      assert qs[..i + 1][..i] == qs[..i];
      var n := PromptTokens(qs[i], state, pair);
      if n > worst { worst := n; }
    }
    assert qs[..|qs|] == qs;
  }

  method Fits(qs: seq<Question>, lim: Limits, state: Text) returns (b: bool)
    ensures b <==> TokenFits(qs, lim, state)
  {
    if lim.maxPromptTokens <= 0 || (lim.pairMode && lim.truncate) { return true; }
    var worst := FindWorstPrompt(qs, state, lim.pairMode);
    b := worst <= lim.maxPromptTokens;
  }

  method FindLongest(qs: seq<Question>) returns (longest: nat)
    ensures longest == Longest(qs)
  {
    longest := 0;
    for i := 0 to |qs|
      invariant longest == Longest(qs[..i])
    {
      assert qs[..i + 1][..i] == qs[..i];
      if qs[i].chars > longest { longest := qs[i].chars; }
    }
    assert qs[..|qs|] == qs;
  }

  method CheckHypotheses(qs: seq<Question>, lim: Limits) returns (ok: bool)
    ensures ok <==> HypothesesFit(qs, lim)
  {
    if lim.maxPromptTokens <= 0 || !lim.pairMode { return true; }
    for i := 0 to |qs|
      invariant forall j :: 0 <= j < i ==> PromptTokens(qs[j], [], true) + MIN_PREMISE_TOKENS <= lim.maxPromptTokens
    {
      if PromptTokens(qs[i], [], true) + MIN_PREMISE_TOKENS > lim.maxPromptTokens { return false; }
    }
    ok := true;
  }

  ghost predicate NeedsShortening(rs: Text, qs: seq<Question>, lim: Limits) {
    CharOver(rs, qs, lim) || !TokenFits(qs, lim, rs)
  }

  // tokenFits of the state shortened to k runes.
  function ShortenedFitting(rs: Text, qs: seq<Question>, lim: Limits): int -> bool {
    k => 0 <= k <= |rs| && TokenFits(qs, lim, Shortened(rs, k))
  }

  // The largest keep up to most that the search settles on, if the least part fits at all.
  ghost predicate Settled(fits: int -> bool, most: int, r: Option<nat>) {
    if most >= 2 && fits(2) then
      r.Some? && 2 <= r.value <= most && fits(r.value) && (r.value < most ==> !fits(r.value + 1))
    else r.None?
  }

  /** The binary search below a keep that is known not to fit. */
  method SearchKeep(keep: nat, fits: int -> bool) returns (lo: nat)
    requires 2 <= keep && fits(2) && !fits(keep)
    ensures 2 <= lo < keep && fits(lo) && !fits(lo + 1)
  {
    var hi := keep;
    lo := 2;
    while hi - lo > 1
      invariant 2 <= lo < hi <= keep && fits(lo) && !fits(hi)
      decreases hi - lo
    {
      var mid := (lo + hi) / 2;
      if fits(mid) { lo := mid; } else { hi := mid; }
    }
  }

  method FindKeep(most: int, fits: int -> bool) returns (r: Option<nat>)
    ensures Settled(fits, most, r)
  {
    if most < 2 || !fits(2) { return None; }
    var keep: nat := most;
    if !fits(keep) { keep := SearchKeep(keep, fits); }
    r := Some(keep);
  }

  method ShortenTo(rs: Text, most: int, fits: int -> bool)
    returns (r: Result<Budgeted, BudgetError>, ghost kept: Option<nat>)
    requires most <= |rs|
    ensures Settled(fits, most, kept)
    ensures kept.None? ==> r == Err(QuestionOver)
    ensures kept.Some? ==> kept.value <= |rs| && r == Ok(Budgeted(Shortened(rs, kept.value), true))
  {
    var keep := FindKeep(most, fits);
    if keep.None? { return Err(QuestionOver), keep; }
    var s, _, _ := Shorten(rs, keep.value);
    return Ok(Budgeted(s, true)), keep;
  }

  /** The truncation part of ParseRequest: every refusal and every acceptance, and how much is kept. */
  method Truncate(rs: Text, qs: seq<Question>, lim: Limits)
    returns (r: Result<Budgeted, BudgetError>, ghost kept: Option<nat>)
    ensures !HypothesesFit(qs, lim) ==> r == Err(QuestionOver)
    ensures HypothesesFit(qs, lim) && !NeedsShortening(rs, qs, lim) ==> r == Ok(Budgeted(rs, false))
    ensures HypothesesFit(qs, lim) && NeedsShortening(rs, qs, lim) && !lim.truncate ==> r == Err(StateOver)
    ensures HypothesesFit(qs, lim) && NeedsShortening(rs, qs, lim) && lim.truncate ==>
      && Settled(ShortenedFitting(rs, qs, lim), MostKept(rs, qs, lim), kept)
      && (kept.None? ==> r == Err(QuestionOver))
      && (kept.Some? ==> kept.value <= |rs| && r == Ok(Budgeted(Shortened(rs, kept.value), true)))
  {
    kept := None;
    var longest := FindLongest(qs);
    var charOver := |rs| + longest > lim.maxStateChars;
    var hypotheses := CheckHypotheses(qs, lim);
    if !hypotheses { return Err(QuestionOver), None; }
    var fits := Fits(qs, lim, rs);
    if !charOver && fits { return Ok(Budgeted(rs, false)), None; }
    if !lim.truncate { return Err(StateOver), None; }
    var most := if charOver then lim.maxStateChars - longest - |MARKER| else |rs| - 1;
    r, kept := ShortenTo(rs, most, ShortenedFitting(rs, qs, lim));
  }

  // ---------------------------------------------------------------- what truncation guarantees

  // The state was shortened, to keep runes.
  ghost predicate TruncatedTo(rs: Text, qs: seq<Question>, lim: Limits, keep: nat) {
    Settled(ShortenedFitting(rs, qs, lim), MostKept(rs, qs, lim), Some(keep))
  }

  /** What is sent fits the token budget; the characters fit when they were over, and otherwise exceed
      their budget by less than the marker. */
  lemma TruncatedFits(rs: Text, qs: seq<Question>, lim: Limits, keep: nat)
    requires TruncatedTo(rs, qs, lim, keep)
    ensures keep < |rs| && TokenFits(qs, lim, Shortened(rs, keep))
    ensures CharOver(rs, qs, lim) ==> |Shortened(rs, keep)| + Longest(qs) <= lim.maxStateChars
    ensures |Shortened(rs, keep)| + Longest(qs) <= lim.maxStateChars + |MARKER| - 1
  {
    assert MostKept(rs, qs, lim) < |rs|;
    assert ShortenedFitting(rs, qs, lim)(keep);
    PartsApart(rs, keep);
  }

  /** Nothing is lost to the clusters of plain letters: the larger half of keep remains at the start, the smaller one
      at the end. */
  lemma LettersKept(rs: Text, keep: nat)
    requires keep <= |rs| && forall i :: 0 <= i < |rs| ==> Letter(rs[i])
    ensures Shortened(rs, keep) == rs[..keep - keep / 2] + MARKER + rs[|rs| - keep / 2..]
    ensures |Shortened(rs, keep)| == keep + |MARKER|
  {
    assert Boundary(rs, keep - keep / 2) && Boundary(rs, |rs| - keep / 2);
  }

  lemma {:induction false} WorstPromptIs(qs: seq<Question>, state: Text, pair: bool, budget: nat)
    ensures WorstPrompt(qs, state, pair) <= budget <==>
      forall i :: 0 <= i < |qs| ==> PromptTokens(qs[i], state, pair) <= budget
    decreases |qs|
  {
    if qs != [] { WorstPromptIs(qs[..|qs| - 1], state, pair, budget); }
  }

  /** A state fits the token budget exactly when every question's prompt does, except where nothing is checked. */
  lemma FitsEveryPrompt(qs: seq<Question>, lim: Limits, state: Text)
    requires lim.maxPromptTokens > 0 && !(lim.pairMode && lim.truncate)
    ensures TokenFits(qs, lim, state) <==>
      forall i :: 0 <= i < |qs| ==> PromptTokens(qs[i], state, lim.pairMode) <= lim.maxPromptTokens
  {
    WorstPromptIs(qs, state, lim.pairMode, lim.maxPromptTokens);
  }

  /** The prompt of a pair is the state with the costliest hypothesis. */
  lemma PairPromptIs(q: Question, state: Text, budget: nat)
    requires q.hypotheses != []
    ensures PromptTokens(q, state, true) <= budget <==> forall h :: 0 <= h < |q.hypotheses| ==>
      Estimate(state) + Estimate(q.hypotheses[h]) + PAIR_SPECIAL_TOKENS <= budget
  {
    WorstOfIs(q.hypotheses, budget as int - PAIR_SPECIAL_TOKENS - Estimate(state));
    assert Estimate(q.hypotheses[0]) >= 0;
  }

  lemma {:induction false} WorstOfIs(ts: seq<Text>, budget: int)
    ensures budget >= 0 ==> (WorstOf(ts) <= budget <==> forall i :: 0 <= i < |ts| ==> Estimate(ts[i]) <= budget)
    decreases |ts|
  {
    if ts != [] { WorstOfIs(ts[..|ts| - 1], budget); }
  }

  lemma {:induction false} LongestIs(qs: seq<Question>, room: int)
    ensures room >= 0 ==> (Longest(qs) <= room <==> forall i :: 0 <= i < |qs| ==> qs[i].chars <= room)
    decreases |qs|
  {
    if qs != [] { LongestIs(qs[..|qs| - 1], room); }
  }

  // chars code points of a state leave room for every question.
  ghost predicate CharFits(chars: nat, qs: seq<Question>, lim: Limits) {
    chars <= lim.maxStateChars && forall i :: 0 <= i < |qs| ==> chars + qs[i].chars <= lim.maxStateChars
  }

  /** Characters are over exactly when the state does not leave room for some question, and the search then starts at
      the most runes that do with the marker; when only the tokens are over it starts one rune below the state. */
  lemma MostKeptIs(rs: Text, qs: seq<Question>, lim: Limits, keep: nat)
    ensures CharOver(rs, qs, lim) <==> !CharFits(|rs|, qs, lim)
    ensures CharOver(rs, qs, lim) ==> (keep <= MostKept(rs, qs, lim) <==> CharFits(keep + |MARKER|, qs, lim))
    ensures !CharOver(rs, qs, lim) ==> (keep <= MostKept(rs, qs, lim) <==> keep < |rs|)
  {
    LongestIs(qs, lim.maxStateChars - |rs|);
    LongestIs(qs, lim.maxStateChars - keep - |MARKER|);
  }

  /** With prompts that embed the state as it is, what is kept is the most that fits: no part of at least two runes
      beyond it meets both budgets, and every smaller one does. */
  lemma KeepsTheMost(rs: Text, qs: seq<Question>, lim: Limits, keep: nat, k: nat)
    requires TruncatedTo(rs, qs, lim, keep) && AllPlain(qs, rs) && 2 <= k < |rs|
    ensures k <= keep <==>
      TokenFits(qs, lim, Shortened(rs, k)) && (CharOver(rs, qs, lim) ==> CharFits(k + |MARKER|, qs, lim))
  {
    var fits, most := ShortenedFitting(rs, qs, lim), MostKept(rs, qs, lim);
    PlainFitsBelow(rs, qs, lim);
    assert most < |rs|;
    LargestKept(fits, most, keep);
    MostKeptIs(rs, qs, lim, k);
    assert fits(k) <==> TokenFits(qs, lim, Shortened(rs, k));
  }

  // The prompt embeds the shortened state unchanged between fixed texts.
  ghost predicate Embeds(q: Question, rs: Text, before: Text, after: Text) {
    forall keep: nat :: keep <= |rs| ==> q.render(Shortened(rs, keep)) == Some(before + Shortened(rs, keep) + after)
  }

  ghost predicate Plain(q: Question, rs: Text) {
    || (forall keep: nat :: keep <= |rs| ==> q.render(Shortened(rs, keep)).None?)
    || exists before, after :: Embeds(q, rs, before, after)
  }

  ghost predicate AllPlain(qs: seq<Question>, rs: Text) { forall i :: 0 <= i < |qs| ==> Plain(qs[i], rs) }

  lemma PromptGrows(q: Question, rs: Text, keep: nat, more: nat, pair: bool)
    requires keep <= more <= |rs| && Plain(q, rs)
    ensures PromptTokens(q, Shortened(rs, keep), pair) <= PromptTokens(q, Shortened(rs, more), pair)
  {
    var s, s' := Shortened(rs, keep), Shortened(rs, more);
    EstimateGrows([], rs, keep, more, []);
    assert [] + s + [] == s && [] + s' + [] == s';
    if !pair && q.render(s).Some? {
      var before, after :| Embeds(q, rs, before, after);
      EstimateGrows(before, rs, keep, more, after);
      assert q.render(s) == Some(before + s + after) && q.render(s') == Some(before + s' + after);
    }
  }

  // Every prompt costs at most as much with s as with s'.
  ghost predicate Cheaper(qs: seq<Question>, s: Text, s': Text, pair: bool) {
    forall i :: 0 <= i < |qs| ==> PromptTokens(qs[i], s, pair) <= PromptTokens(qs[i], s', pair)
  }

  lemma {:induction false} WorstGrows(qs: seq<Question>, s: Text, s': Text, pair: bool)
    requires Cheaper(qs, s, s', pair)
    ensures WorstPrompt(qs, s, pair) <= WorstPrompt(qs, s', pair)
    decreases |qs|
  {
    if qs != [] {
      var n := |qs| - 1;
      assert PromptTokens(qs[n], s, pair) <= PromptTokens(qs[n], s', pair);
      WorstGrows(qs[..n], s, s', pair);
    }
  }

  lemma FitsShrinks(rs: Text, qs: seq<Question>, lim: Limits, keep: nat, more: nat)
    requires keep <= more <= |rs| && AllPlain(qs, rs)
    ensures ShortenedFitting(rs, qs, lim)(more) ==> ShortenedFitting(rs, qs, lim)(keep)
  {
    AllCheaper(rs, qs, keep, more, lim.pairMode);
    CheaperFits(qs, lim, Shortened(rs, keep), Shortened(rs, more));
  }

  lemma CheaperFits(qs: seq<Question>, lim: Limits, s: Text, s': Text)
    requires Cheaper(qs, s, s', lim.pairMode)
    ensures TokenFits(qs, lim, s') ==> TokenFits(qs, lim, s)
  {
    WorstGrows(qs, s, s', lim.pairMode);
  }

  lemma AllCheaper(rs: Text, qs: seq<Question>, keep: nat, more: nat, pair: bool)
    requires keep <= more <= |rs| && AllPlain(qs, rs)
    ensures Cheaper(qs, Shortened(rs, keep), Shortened(rs, more), pair)
  {
    forall i | 0 <= i < |qs|
      ensures PromptTokens(qs[i], Shortened(rs, keep), pair) <= PromptTokens(qs[i], Shortened(rs, more), pair) {
      PromptGrows(qs[i], rs, keep, more, pair);
    }
  }

  // A part that fits still fits when it is cut further.
  ghost predicate FitsBelow(fits: int -> bool, most: int) {
    forall keep: nat, more: nat :: keep <= more <= most && fits(more) ==> fits(keep)
  }

  /** With prompts that embed the state as it is, less of it never costs more. */
  lemma PlainFitsBelow(rs: Text, qs: seq<Question>, lim: Limits)
    requires AllPlain(qs, rs)
    ensures FitsBelow(ShortenedFitting(rs, qs, lim), |rs|)
  {
    var fits := ShortenedFitting(rs, qs, lim);
    forall keep: nat, more: nat | keep <= more <= |rs| && fits(more) ensures fits(keep) {
      FitsShrinks(rs, qs, lim, keep, more);
    }
  }

  /** Then the search settles on the largest part that fits. */
  lemma LargestKept(fits: int -> bool, most: int, keep: nat)
    requires Settled(fits, most, Some(keep)) && FitsBelow(fits, most)
    ensures forall k: nat :: 2 <= k <= most ==> (fits(k) <==> k <= keep)
  {
    forall k: nat | 2 <= k <= most ensures fits(k) <==> k <= keep {
      if k > keep { assert fits(k) ==> fits(keep + 1); }
    }
  }
}
