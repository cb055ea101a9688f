/** Sums and counts over an index range, with the few laws the counting proofs need. */
module Sums {
  // f(a) + ... + f(b - 1)
  function SumFrom(a: int, b: int, f: int -> real): real
    decreases b - a
  {
    if a >= b then 0.0 else SumFrom(a, b - 1, f) + f(b - 1)
  }

  function SumTo(k: nat, f: int -> real): real { SumFrom(0, k, f) }

  function CountTo(k: nat, p: int -> bool): (c: nat)
    ensures c <= k
  {
    if k == 0 then 0 else CountTo(k - 1, p) + if p(k - 1) then 1 else 0
  }

  lemma {:induction false} Split(a: int, b: int, c: int, f: int -> real)
    requires a <= b <= c
    ensures SumFrom(a, c, f) == SumFrom(a, b, f) + SumFrom(b, c, f)
    decreases c - b
  {
    if b < c { Split(a, b, c - 1, f); }
  }

  lemma {:induction false} Shifted(a: int, b: int, d: int, f: int -> real, g: int -> real)
    requires forall i :: a <= i < b ==> f(i) == g(i + d)
    ensures SumFrom(a, b, f) == SumFrom(a + d, b + d, g)
    decreases b - a
  {
    if a < b { Shifted(a, b - 1, d, f, g); }
  }

  lemma {:induction false} Reflected(a: int, b: int, c: int, f: int -> real, g: int -> real)
    requires forall i :: a <= i < b ==> f(i) == g(c - i)
    ensures SumFrom(a, b, f) == SumFrom(c - b + 1, c - a + 1, g)
    decreases b - a
  {
    if a < b {
      Reflected(a, b - 1, c, f, g);
      Split(c - b + 1, c - b + 2, c - a + 1, g);
      assert SumFrom(c - b + 1, c - b + 2, g) == g(c - b + 1);
    }
  }

  lemma {:induction false} SumSame(a: int, b: int, f: int -> real, g: int -> real)
    requires forall i :: a <= i < b ==> f(i) == g(i)
    ensures SumFrom(a, b, f) == SumFrom(a, b, g)
    decreases b - a
  {
    if a < b { SumSame(a, b - 1, f, g); }
  }

  lemma {:induction false} SumPlus(k: nat, f: int -> real, g: int -> real, h: int -> real)
    requires forall i :: 0 <= i < k ==> h(i) == f(i) + g(i)
    ensures SumTo(k, h) == SumTo(k, f) + SumTo(k, g)
  {
    if k > 0 { SumPlus(k - 1, f, g, h); }
  }

  lemma {:induction false} SumTimes(k: nat, c: real, f: int -> real, g: int -> real)
    requires forall i :: 0 <= i < k ==> g(i) == c * f(i)
    ensures SumTo(k, g) == c * SumTo(k, f)
  {
    if k > 0 { SumTimes(k - 1, c, f, g); }
  }

  lemma {:induction false} SumOver(k: nat, n: real, f: int -> real, g: int -> real)
    requires n > 0.0 && forall i :: 0 <= i < k ==> g(i) == f(i) / n
    ensures SumTo(k, g) == SumTo(k, f) / n
  {
    if k > 0 {
      SumOver(k - 1, n, f, g);
      AddQuotients(SumTo(k - 1, f), f(k - 1), n);
    }
  }

  lemma AddQuotients(x: real, y: real, n: real)
    requires n > 0.0
    ensures x / n + y / n == (x + y) / n
  {
  }

  lemma {:induction false} SumConstant(k: nat, c: real, f: int -> real)
    requires forall i :: 0 <= i < k ==> f(i) == c
    ensures SumTo(k, f) == k as real * c
  {
    if k > 0 { SumConstant(k - 1, c, f); }
  }

  lemma {:induction false} SumAtMost(k: nat, f: int -> real, g: int -> real)
    requires forall i :: 0 <= i < k ==> f(i) <= g(i)
    ensures SumTo(k, f) <= SumTo(k, g)
  {
    if k > 0 { SumAtMost(k - 1, f, g); }
  }

  lemma {:induction false} SumSingle(n: nat, c: int, f: int -> real)
    requires forall i :: 0 <= i < n && i != c ==> f(i) == 0.0
    ensures SumTo(n, f) == if 0 <= c < n then f(c) else 0.0
  {
    if n > 0 { SumSingle(n - 1, c, f); }
  }

  // One at p, zero elsewhere.
  function Only(p: int): int -> real { i => if i == p then 1.0 else 0.0 }

  lemma {:induction false} SumOnly(k: nat, p: int)
    ensures SumTo(k, Only(p)) == if 0 <= p < k then 1.0 else 0.0
  {
    if k > 0 { SumOnly(k - 1, p); }
  }

  lemma {:induction false} CountAsSum(k: nat, p: int -> bool, f: int -> real)
    requires forall i :: 0 <= i < k ==> f(i) == if p(i) then 1.0 else 0.0
    ensures CountTo(k, p) as real == SumTo(k, f)
  {
    if k > 0 { CountAsSum(k - 1, p, f); }
  }

  function RowSums(f: (int, int) -> real, n: nat): int -> real { i => SumTo(n, j => f(i, j)) }

  function ColumnSums(f: (int, int) -> real, k: nat): int -> real { j => SumTo(k, i => f(i, j)) }

  lemma ColumnSnoc(f: (int, int) -> real, k: nat, j: int)
    requires k > 0
    ensures ColumnSums(f, k)(j) == ColumnSums(f, k - 1)(j) + f(k - 1, j)
  {
  }

  lemma {:induction false} SumSwap(k: nat, n: nat, f: (int, int) -> real)
    ensures SumTo(k, RowSums(f, n)) == SumTo(n, ColumnSums(f, k))
  {
    if k == 0 {
      SumConstant(n, 0.0, ColumnSums(f, 0));
    } else {
      SumSwap(k - 1, n, f);
      var last := j => f(k - 1, j);
      forall j | 0 <= j < n ensures ColumnSums(f, k)(j) == ColumnSums(f, k - 1)(j) + last(j) { ColumnSnoc(f, k, j); }
      SumPlus(n, ColumnSums(f, k - 1), last, ColumnSums(f, k));
      SumSame(0, n, j => f(k - 1, j), last);
    }
  }
}
