/**
  The entropy floor of an access key (internal/keyring/keyring.go, WeakKey). The search for k inside
  (k+k)[1:] finds it before the trivial rotation exactly when k is a shorter block repeated.
*/
module KeyStrength {
  datatype Weakness = FewDistinct | Dominant | Periodic | FewBits | Strong

  // ---------------------------------------------------------------- string search

  predicate OccursAt(s: string, sub: string, i: nat) {
    i + |sub| <= |s| && s[i..i + |sub|] == sub
  }

  // strings.Index: the first occurrence, -1 without one.
  method Index(s: string, sub: string) returns (r: int)
    ensures Found(s, sub, r)
  {
    var i := 0;
    while i + |sub| <= |s|
      invariant forall j: nat :: j < i ==> !OccursAt(s, sub, j)
    {
      if s[i..i + |sub|] == sub { return i; }
      i := i + 1;
    }
    r := -1;
  }

  // ---------------------------------------------------------------- rotations and blocks

  // The position d places after i, going round a word of length n.
  function Around(i: nat, d: nat, n: nat): nat
    requires i < n && d <= n
  {
    if i + d < n then i + d else i + d - n
  }

  ghost predicate ShiftAt(k: string, d: nat, i: nat)
    requires i < |k| && d <= |k|
  {
    k[Around(i, d, |k|)] == k[i]
  }

  // Rotating k by d gives k again.
  ghost predicate Shift(k: string, d: nat)
    requires d <= |k|
  {
    forall i: nat :: i < |k| ==> ShiftAt(k, d, i)
  }

  function Repeat(b: string, m: nat): string { if m == 0 then "" else b + Repeat(b, m - 1) }

  ghost predicate IsRepetition(k: string) {
    exists b: string, m: nat :: m >= 2 && k == Repeat(b, m)
  }

  lemma OccurrenceIsShift(k: string, j: nat)
    requires j < |k|
    ensures OccursAt((k + k)[1..], k, j) <==> Shift(k, j + 1)
  {
    var n, d := |k|, j + 1;
    var w := (k + k)[1..][j..j + n];
    forall i: nat | i < n ensures w[i] == k[Around(i, d, n)] { }
    if w == k {
      forall i: nat | i < n ensures ShiftAt(k, d, i) { assert w[i] == k[i]; }
    }
    if Shift(k, d) {
      forall i: nat | i < n ensures w[i] == k[i] { assert ShiftAt(k, d, i); }
    }
  }

  lemma ShiftDifference(k: string, a: nat, b: nat)
    requires a <= b <= |k| && Shift(k, a) && Shift(k, b)
    ensures Shift(k, b - a)
  {
    var d := b - a;
    forall i: nat | i < |k| ensures ShiftAt(k, d, i) {
      var j := Around(i, d, |k|);
      assert ShiftAt(k, a, j) && ShiftAt(k, b, i);
      assert Around(j, a, |k|) == Around(i, b, |k|);
    }
  }

  ghost predicate Divides(p: nat, n: nat) { exists q: nat :: n == q * p }

  lemma DividesSum(p: nat, a: nat, b: nat)
    requires Divides(p, a) && Divides(p, b)
    ensures Divides(p, a + b)
  {
    var x: nat :| a == x * p;
    var y: nat :| b == y * p;
    assert a + b == (x + y) * p;
  }

  lemma DividesItself(p: nat)
    ensures Divides(p, p)
  {
    assert p == 1 * p;
  }

  // Subtractive Euclid on rotations: two rotations that keep k give one by a common divisor.
  lemma CommonShift(k: string, a: nat, b: nat) returns (p: nat)
    requires 0 < a <= |k| && 0 < b <= |k| && Shift(k, a) && Shift(k, b)
    ensures 0 < p <= a && p <= b && Shift(k, p) && Divides(p, a) && Divides(p, b)
    decreases a + b
  {
    if a == b {
      p := a;
      DividesItself(p);
    } else if a < b {
      ShiftDifference(k, a, b);
      p := CommonShift(k, a, b - a);
      DividesSum(p, a, b - a);
    } else {
      ShiftDifference(k, b, a);
      p := CommonShift(k, a - b, b);
      DividesSum(p, b, a - b);
    }
  }

  // Every character equals the one p places before it.
  ghost predicate Recurs(k: string, p: nat) { forall i: nat :: p <= i < |k| ==> k[i] == k[i - p] }

  lemma ShiftRecurs(k: string, p: nat)
    requires p <= |k| && Shift(k, p)
    ensures Recurs(k, p)
  {
    forall i: nat | p <= i < |k| ensures k[i] == k[i - p] { assert ShiftAt(k, p, i - p); }
  }

  lemma {:induction false} BlocksFromRecurrence(k: string, p: nat, q: nat)
    requires Recurs(k, p) && |k| == q * p && (q > 0 ==> p <= |k|)
    ensures q > 0 ==> k == Repeat(k[..p], q)
    decreases q
  {
    if q > 1 {
      var r := k[p..];
      assert q * p == p + (q - 1) * p;
      assert (q - 1) * p >= p;
      forall i: nat | p <= i < |r| ensures r[i] == r[i - p] { assert k[p + i] == k[p + i - p]; }
      BlocksFromRecurrence(r, p, q - 1);
      assert r[..p] == k[..p];
      assert k == k[..p] + r;
    } else if q == 1 {
      assert k[..p] == k && k + Repeat(k, 0) == k;
    }
  }

  lemma {:induction false} RepeatSnoc(b: string, m: nat)
    requires m > 0
    ensures Repeat(b, m) == Repeat(b, m - 1) + b
    decreases m
  {
    if m == 1 {
      assert b + "" == "" + b;
    } else {
      RepeatSnoc(b, m - 1);
      assert b + (Repeat(b, m - 2) + b) == (b + Repeat(b, m - 2)) + b;
    }
  }

  lemma ShiftFromBlocks(b: string, m: nat)
    requires m >= 2
    ensures |b| <= |Repeat(b, m)| && Shift(Repeat(b, m), |b|)
    ensures Repeat(b, m) != [] ==> 0 < |b| < |Repeat(b, m)|
  {
    var k, r := Repeat(b, m), Repeat(b, m - 1);
    RepeatSnoc(b, m);
    assert k == b + r == r + b;
    assert r == b + Repeat(b, m - 2);
    forall i: nat | i < |k| ensures ShiftAt(k, |b|, i) {
      if i < |r| { assert k[i] == r[i] && k[i + |b|] == r[i]; } else { assert k[i] == b[i - |r|]; }
    }
    if b == [] { EmptyBlocks(m); }
  }

  lemma {:induction false} EmptyBlocks(m: nat)
    ensures Repeat("", m) == ""
    decreases m
  {
    if m > 0 { EmptyBlocks(m - 1); }
  }

  /** A proper rotation keeps a non-empty k exactly when k is at least two copies of one shorter block. */
  lemma RotationIffBlocks(k: string)
    requires k != []
    ensures (exists d: nat :: 0 < d < |k| && Shift(k, d)) <==> IsRepetition(k)
  {
    if d: nat :| 0 < d < |k| && Shift(k, d) {
      forall i: nat | i < |k| ensures ShiftAt(k, |k|, i) { }
      var p := CommonShift(k, d, |k|);
      var q: nat :| |k| == q * p;
      AtLeastTwo(q, p, |k|);
      ShiftRecurs(k, p);
      BlocksFromRecurrence(k, p, q);
    }
    if IsRepetition(k) {
      var b: string, m: nat :| m >= 2 && k == Repeat(b, m);
      ShiftFromBlocks(b, m);
    }
  }

  lemma AtLeastTwo(q: nat, p: nat, n: nat)
    requires n == q * p && 0 < p < n
    ensures q >= 2
  {
  }

  // r is what a search for sub in s returns.
  ghost predicate Found(s: string, sub: string, r: int) {
    && (r >= 0 ==> OccursAt(s, sub, r) && forall j: nat :: j < r ==> !OccursAt(s, sub, j))
    && (r < 0 ==> forall j: nat :: !OccursAt(s, sub, j))
  }

  /** The search succeeds before position n-1 exactly for repeated blocks. */
  lemma SearchIffBlocks(k: string, r: int)
    requires k != [] && Found((k + k)[1..], k, r)
    ensures 0 <= r < |k| && (r < |k| - 1 <==> IsRepetition(k))
  {
    var s, n := (k + k)[1..], |k|;
    forall i: nat | i < n ensures ShiftAt(k, n, i) { }
    OccurrenceIsShift(k, n - 1);
    RotationIffBlocks(k);
    if r < n - 1 {
      OccurrenceIsShift(k, r);
    }
    if d: nat :| 0 < d < n && Shift(k, d) {
      OccurrenceIsShift(k, d - 1);
    }
  }

  // ---------------------------------------------------------------- the whole floor

  function Count(k: string, c: char): nat {
    if k == [] then 0 else Count(k[..|k| - 1], c) + if k[|k| - 1] == c then 1 else 0
  }

  function Limit(n: nat): nat { if (n + 2) / 3 < 8 then 8 else (n + 2) / 3 }

  predicate Lower(c: char) { 'a' <= c <= 'z' }
  predicate Upper(c: char) { 'A' <= c <= 'Z' }
  predicate Digit(c: char) { '0' <= c <= '9' }
  predicate Symbol(c: char) { !Lower(c) && !Upper(c) && !Digit(c) }

  function Alphabet(k: string): nat {
    (if exists i :: 0 <= i < |k| && Lower(k[i]) then 26 else 0)
    + (if exists i :: 0 <= i < |k| && Upper(k[i]) then 26 else 0)
    + (if exists i :: 0 <= i < |k| && Digit(k[i]) then 10 else 0)
    + (if exists i :: 0 <= i < |k| && Symbol(k[i]) then 2 else 0)
  }

  function Pow(b: nat, e: nat): nat { if e == 0 then 1 else b * Pow(b, e - 1) }

  const TWO_TO_128: nat := 0x1_0000_0000_0000_0000_0000_0000_0000_0000

  // The first rule that fails; n * log2(alphabet) < 128 is alphabet^n < 2^128.
  ghost function WeaknessOf(k: string): Weakness {
    if |set c | c in k :: c| < 8 then FewDistinct
    else if exists c :: c in k && Count(k, c) > Limit(|k|) then Dominant
    else if IsRepetition(k) then Periodic
    else if Pow(Alphabet(k), |k|) < TWO_TO_128 then FewBits
    else Strong
  }

  method CountRunes(k: string) returns (counts: map<char, nat>)
    ensures forall c :: c in counts <==> c in k
    ensures forall c :: c in counts ==> counts[c] == Count(k, c)
  {
    counts := map[];
    for i := 0 to |k|
      invariant forall c :: c in counts <==> c in k[..i]
      invariant forall c :: c in counts ==> counts[c] == Count(k[..i], c)
    {
      assert k[..i + 1][..i] == k[..i];
      assert k[..i + 1] == k[..i] + [k[i]];
      AbsentCount(k[..i], k[i]);
      counts := counts[k[i] := if k[i] in counts then counts[k[i]] + 1 else 1];
    }
    assert k[..|k|] == k;
  }

  lemma {:induction false} AbsentCount(k: string, c: char)
    ensures c !in k ==> Count(k, c) == 0
    decreases |k|
  {
    if k != [] {
      assert k == k[..|k| - 1] + [k[|k| - 1]];
      AbsentCount(k[..|k| - 1], c);
    }
  }

  /** WeakKey reports the first failing rule, Strong when the key passes all of them. */
  method WeakKey(k: string) returns (w: Weakness)
    ensures w == WeaknessOf(k)
  {
    var counts := CountRunes(k);
    assert counts.Keys == set c | c in k :: c;
    if |counts.Keys| < 8 { return FewDistinct; }
    if exists c :: c in counts.Keys && counts[c] > Limit(|k|) { return Dominant; }
    assert k == [] ==> counts.Keys == {};
    var at := Index((k + k)[1..], k);
    SearchIffBlocks(k, at);
    if at < |k| - 1 { return Periodic; }
    if Pow(Alphabet(k), |k|) < TWO_TO_128 { return FewBits; }
    w := Strong;
  }
}
