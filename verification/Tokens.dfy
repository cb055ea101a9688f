/**
  The prompt-token estimate (internal/contract/tokens.go): a streaming pass over the runes of a text,
  stated as a cost per rune that depends on the maximal letter/digit run around it. Costs are hundredths
  of a token.
*/
module Tokens {
  type Rune = int

  type Text = seq<Rune>

  const MAX_RUN_NORMAL := 12

  predicate Digit(r: Rune) { '0' as int <= r <= '9' as int }

  predicate Letter(r: Rune) { 'a' as int <= r <= 'z' as int || 'A' as int <= r <= 'Z' as int }

  predicate Alnum(r: Rune) { Digit(r) || Letter(r) }

  function RuneCost(r: Rune): (c: nat)
    ensures 15 <= c <= 300
    ensures Letter(r) ==> c == 40
    ensures Digit(r) ==> c == 100
  {
    if Digit(r) then 100
    else if Letter(r) then 40
    else if r == ' ' as int || r == '\n' as int || r == '\t' as int || r == '\r' as int then 15
    else if r < 0x80 then 80
    else if 0x0300 <= r <= 0x036f then 200
    else if r <= 0x07ff then 60
    else if r <= 0x0fff then 150
    else if 0x2000 <= r <= 0x206f then 100
    else if 0xe000 <= r <= 0xf8ff then 300
    else if 0x3400 <= r <= 0x4dbf then 160
    else if 0x2e80 <= r <= 0xd7af then 100
    else if r > 0xffff then 300
    else 160
  }

  function LongRunCost(r: Rune): nat { if Digit(r) then 100 else 80 }

  // ---------------------------------------------------------------- the declarative cost

  // The first position of the letter/digit run that reaches up to i.
  function RunStart(s: Text, i: nat): (a: nat)
    requires i <= |s|
    ensures a <= i
  {
    if i > 0 && Alnum(s[i - 1]) then RunStart(s, i - 1) else i
  }

  // The end of the run that starts at i.
  function RunEnd(s: Text, i: nat): (e: nat)
    requires i <= |s|
    ensures i <= e <= |s|
    decreases |s| - i
  {
    if i < |s| && Alnum(s[i]) then RunEnd(s, i + 1) else i
  }

  function CostAt(s: Text, i: nat): nat
    requires i < |s|
  {
    if Alnum(s[i]) && RunEnd(s, i) - RunStart(s, i) > MAX_RUN_NORMAL then LongRunCost(s[i]) else RuneCost(s[i])
  }

  function CostTo(s: Text, k: nat): nat
    requires k <= |s|
  {
    if k == 0 then 0 else CostTo(s, k - 1) + CostAt(s, k - 1)
  }

  function Cost(s: Text): nat { CostTo(s, |s|) }

  function Estimate(s: Text): nat { (Cost(s) + 99) / 100 }

  // ---------------------------------------------------------------- the streaming pass

  // s[a..e] is a whole run.
  ghost predicate WholeRun(s: Text, a: nat, e: nat) {
    && a <= e <= |s|
    && (a == 0 || !Alnum(s[a - 1]))
    && (forall j :: a <= j < e ==> Alnum(s[j]))
    && (e == |s| || !Alnum(s[e]))
  }

  lemma {:induction false} StartOfRun(s: Text, a: nat, j: nat)
    requires a <= j <= |s| && (a == 0 || !Alnum(s[a - 1])) && forall t :: a <= t < j ==> Alnum(s[t])
    ensures RunStart(s, j) == a
    decreases j
  {
    if j > a { StartOfRun(s, a, j - 1); }
  }

  lemma {:induction false} EndOfRun(s: Text, j: nat, e: nat)
    requires j <= e <= |s| && (e == |s| || !Alnum(s[e])) && forall t :: j <= t < e ==> Alnum(s[t])
    ensures RunEnd(s, j) == e
    decreases e - j
  {
    if j < e { EndOfRun(s, j + 1, e); }
  }

  // Inside a whole run every rune is priced by the length of the run.
  lemma CostInRun(s: Text, a: nat, e: nat, j: nat)
    requires WholeRun(s, a, e) && a <= j < e
    ensures CostTo(s, j + 1) == CostTo(s, j) + if e - a <= MAX_RUN_NORMAL then RuneCost(s[j]) else LongRunCost(s[j])
  {
    StartOfRun(s, a, j);
    EndOfRun(s, j, e);
  }

  method Flush(s: Text, end: nat, run: nat, before: nat) returns (total: nat)
    requires run <= end && WholeRun(s, end - run, end) && before == CostTo(s, end - run)
    ensures total == CostTo(s, end)
  {
    total := before;
    if run == 0 { return; }
    var seg := s[end - run..end];
    for i := 0 to |seg|
      invariant total == CostTo(s, end - run + i)
    {
      CostInRun(s, end - run, end, end - run + i);
      if run <= MAX_RUN_NORMAL {
        total := total + RuneCost(seg[i]);
      } else if Digit(seg[i]) {
        total := total + 100;
      } else {
        total := total + 80;
      }
    }
  }

  /** EstimateTextTokens: one pass, pricing each run when it ends. */
  method EstimateTextTokens(s: Text) returns (tokens: nat)
    ensures tokens == Estimate(s)
  {
    var total, run := 0, 0;
    for i := 0 to |s|
      invariant run <= i && total == CostTo(s, i - run)
      invariant (i - run == 0 || !Alnum(s[i - run - 1])) && forall j :: i - run <= j < i ==> Alnum(s[j])
    {
      if Alnum(s[i]) {
        run := run + 1;
      } else {
        total := Flush(s, i, run, total);
        run := 0;
        total := total + RuneCost(s[i]);
      }
    }
    total := Flush(s, |s|, run, total);
    tokens := (total + 99) / 100;
  }

  // ---------------------------------------------------------------- extending a text

  lemma {:induction false} StartInPrefix(s: Text, t: Text, i: nat)
    requires i <= |s|
    ensures RunStart(s + t, i) == RunStart(s, i)
  {
    if i > 0 && Alnum(s[i - 1]) { StartInPrefix(s, t, i - 1); }
  }

  lemma {:induction false} EndInPrefix(s: Text, t: Text, i: nat)
    requires i <= |s|
    ensures RunEnd(s + t, i) >= RunEnd(s, i)
    ensures t == [] || !Alnum(t[0]) ==> RunEnd(s + t, i) == RunEnd(s, i)
    decreases |s| - i
  {
    if i < |s| && Alnum(s[i]) { EndInPrefix(s, t, i + 1); }
  }

  lemma {:induction false} EndInSuffix(s: Text, t: Text, i: nat)
    requires i <= |t|
    ensures RunEnd(s + t, |s| + i) == |s| + RunEnd(t, i)
    decreases |t| - i
  {
    if i < |t| && Alnum(t[i]) { EndInSuffix(s, t, i + 1); }
  }

  lemma {:induction false} StartInSuffix(s: Text, t: Text, i: nat)
    requires i <= |t|
    ensures RunStart(s + t, |s| + i) <= |s| + RunStart(t, i)
    ensures s == [] || !Alnum(s[|s| - 1]) ==> RunStart(s + t, |s| + i) == |s| + RunStart(t, i)
  {
    if i > 0 && Alnum(t[i - 1]) { StartInSuffix(s, t, i - 1); }
  }

  // No run crosses the border between s and t.
  predicate Apart(s: Text, t: Text) { s == [] || t == [] || !Alnum(s[|s| - 1]) || !Alnum(t[0]) }

  // A run only grows when the text does, and a longer run is never cheaper.
  lemma AtInPrefix(s: Text, t: Text, i: nat)
    requires i < |s|
    ensures CostAt(s + t, i) >= CostAt(s, i)
    ensures t == [] || !Alnum(t[0]) ==> CostAt(s + t, i) == CostAt(s, i)
  {
    StartInPrefix(s, t, i);
    EndInPrefix(s, t, i);
  }

  lemma AtInSuffix(s: Text, t: Text, i: nat)
    requires i < |t|
    ensures CostAt(s + t, |s| + i) >= CostAt(t, i)
    ensures s == [] || !Alnum(s[|s| - 1]) ==> CostAt(s + t, |s| + i) == CostAt(t, i)
  {
    StartInSuffix(s, t, i);
    EndInSuffix(s, t, i);
  }

  // The end of a text that is not a letter or digit keeps later runs out, and so does such a beginning.
  lemma AtApart(s: Text, t: Text, i: nat)
    requires i < |s| && (s == [] || !Alnum(s[|s| - 1]))
    ensures CostAt(s + t, i) == CostAt(s, i)
  {
    StartInPrefix(s, t, i);
    ClosedEnd(s, t, i);
  }

  lemma {:induction false} ClosedEnd(s: Text, t: Text, i: nat)
    requires i < |s| && !Alnum(s[|s| - 1])
    ensures RunEnd(s + t, i) == RunEnd(s, i)
    decreases |s| - i
  {
    if Alnum(s[i]) { ClosedEnd(s, t, i + 1); }
  }

  lemma AtApartSuffix(s: Text, t: Text, i: nat)
    requires i < |t| && !Alnum(t[0])
    ensures CostAt(s + t, |s| + i) == CostAt(t, i)
  {
    EndInSuffix(s, t, i);
    ClosedStart(s, t, i);
  }

  lemma {:induction false} ClosedStart(s: Text, t: Text, i: nat)
    requires i < |t| && !Alnum(t[0])
    ensures Alnum(t[i]) ==> RunStart(s + t, |s| + i) == |s| + RunStart(t, i)
  {
    if i > 0 && Alnum(t[i - 1]) { ClosedStart(s, t, i - 1); }
  }

  lemma {:induction false} PrefixCost(s: Text, t: Text, k: nat)
    requires k <= |s|
    ensures CostTo(s + t, k) >= CostTo(s, k)
    ensures Apart(s, t) ==> CostTo(s + t, k) == CostTo(s, k)
  {
    if k > 0 {
      PrefixCost(s, t, k - 1);
      AtInPrefix(s, t, k - 1);
      if !Alnum(s[|s| - 1]) { AtApart(s, t, k - 1); }
    }
  }

  lemma {:induction false} SuffixCost(s: Text, t: Text, k: nat)
    requires k <= |t|
    ensures CostTo(s + t, |s| + k) >= CostTo(s + t, |s|) + CostTo(t, k)
    ensures Apart(s, t) ==> CostTo(s + t, |s| + k) == CostTo(s + t, |s|) + CostTo(t, k)
  {
    if k > 0 {
      SuffixCost(s, t, k - 1);
      AtInSuffix(s, t, k - 1);
      if !Alnum(t[0]) { AtApartSuffix(s, t, k - 1); }
    }
  }

  /** Joining texts never lowers the cost, and only adds it up when no run crosses the border. */
  lemma Superadditive(s: Text, t: Text)
    ensures Cost(s + t) >= Cost(s) + Cost(t)
    ensures Apart(s, t) ==> Cost(s + t) == Cost(s) + Cost(t)
  {
    PrefixCost(s, t, |s|);
    SuffixCost(s, t, |t|);
  }

  /** So the estimate of a text is at least that of every stretch of it. */
  lemma StretchCostsLess(s: Text, a: nat, e: nat)
    requires a <= e <= |s|
    ensures Estimate(s[a..e]) <= Estimate(s)
  {
    Superadditive(s[..a], s[a..]);
    Superadditive(s[a..e], s[e..]);
    assert s == s[..a] + s[a..] && s[a..] == s[a..e] + s[e..];
  }

  // ---------------------------------------------------------------- the estimate in plain terms

  lemma {:induction false} AlikeCost(s: Text, c: nat, k: nat)
    requires k <= |s| && forall i :: 0 <= i < |s| ==> CostAt(s, i) == c
    ensures CostTo(s, k) == k * c
  {
    if k > 0 { AlikeCost(s, c, k - 1); }
  }

  /** A lone run of letters costs 40 a letter up to twelve of them and 80 beyond, one of digits always 100. */
  lemma LoneRun(s: Text)
    ensures (forall i :: 0 <= i < |s| ==> Letter(s[i])) ==> Cost(s) == |s| * if |s| <= 12 then 40 else 80
    ensures (forall i :: 0 <= i < |s| ==> Digit(s[i])) ==> Cost(s) == |s| * 100
  {
    if forall i :: 0 <= i < |s| ==> Alnum(s[i]) {
      forall i | 0 <= i < |s|
        ensures CostAt(s, i) == if |s| <= MAX_RUN_NORMAL then RuneCost(s[i]) else LongRunCost(s[i])
      {
        CostInRun(s, 0, |s|, i);
      }
      if forall i :: 0 <= i < |s| ==> Letter(s[i]) { AlikeCost(s, if |s| <= 12 then 40 else 80, |s|); }
      if forall i :: 0 <= i < |s| ==> Digit(s[i]) { AlikeCost(s, 100, |s|); }
    }
  }

  /** The estimate is the cost in whole tokens, rounded up. */
  lemma EstimateRoundsUp(s: Text)
    ensures Cost(s) <= 100 * Estimate(s) < Cost(s) + 100
  {
  }
}
