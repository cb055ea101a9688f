/**
  Cyclic rotations of an option list (internal/client/permute.go, probe.go): where each option is listed
  in each call, and sums over whole cycles of calls.
*/
module Rotations {
  import opened Sums

  // ---------------------------------------------------------------- positions

  // Go's remainder keeps the sign of the dividend.
  function GoMod(a: int, n: nat): int
    requires n > 0
  {
    if a >= 0 then a % n else -((-a) % n)
  }

  // Call i lists option j at this position.
  function Position(j: int, i: int, n: nat): int
    requires n > 0
  {
    GoMod(GoMod(j - i, n) + n, n)
  }

  function Rotate<T>(xs: seq<T>, shift: nat): seq<T>
    requires |xs| > 0
  {
    xs[shift % |xs|..] + xs[..shift % |xs|]
  }

  // The same position by the shift s = i mod n.
  function Back(j: int, s: int, n: int): int { if s <= j then j - s else j + n - s }

  function Ahead(r: int, s: int, n: int): int { if r + s < n then r + s else r + s - n }

  lemma Multiple(d: int, n: int)
    requires n > 0
    ensures d >= 1 ==> d * n >= n
    ensures d <= -1 ==> d * n <= -n
  {
    if d <= -1 { assert d * n == -((-d) * n) && (-d) * n >= n; }
  }

  lemma QuotientUnique(x: int, q: int, y: int, r: int, n: int)
    requires x * n + y == q * n + r && 0 <= y < n && 0 <= r < n
    ensures y == r && x == q
  {
    var d := x - q;
    assert d * n == r - y;
    Multiple(d, n);
  }

  lemma ModIs(a: int, q: int, r: int, n: int)
    requires 0 <= r < n && a == q * n + r
    ensures a % n == r && a / n == q
  {
    QuotientUnique(a / n, q, a % n, r, n);
  }

  lemma PositionIs(j: int, i: nat, n: nat)
    requires 0 <= j < n
    ensures Position(j, i, n) == Back(j, i % n, n)
  {
    var q, s := i / n, i % n;
    assert i == q * n + s;
    if j < i {
      if s >= j { ModIs(i - j, q, s - j, n); } else {
        assert (q - 1) * n == q * n - n;
        ModIs(i - j, q - 1, s - j + n, n);
      }
    } else {
      ModIs(i, 0, i, n);
      ModIs(j - i, 0, j - i, n);
    }
    var b := Back(j, s, n);
    var a := GoMod(j - i, n) + n;
    if a == b { ModIs(a, 0, b, n); } else { ModIs(a, 1, b, n); }
  }

  /** Call i really lists option j at that position. */
  lemma ListedAt<T>(xs: seq<T>, i: nat, j: nat)
    requires j < |xs|
    ensures 0 <= Position(j, i, |xs|) < |xs| && Rotate(xs, i)[Position(j, i, |xs|)] == xs[j]
  {
    PositionIs(j, i, |xs|);
  }

  lemma AheadIs(r: nat, i: nat, n: nat)
    requires r < n
    ensures (r + i) % n == Ahead(r, i % n, n)
  {
    var q, s := i / n, i % n;
    assert i == q * n + s;
    if r + s < n { ModIs(r + i, q, r + s, n); } else {
      assert (q + 1) * n == q * n + n;
      ModIs(r + i, q + 1, r + s - n, n);
    }
  }

  /** Rotating the caller's own list by r only shifts the calls. */
  lemma RotateTwice<T>(xs: seq<T>, r: nat, i: nat)
    requires r < |xs|
    ensures |Rotate(xs, r)| == |xs| && Rotate(Rotate(xs, r), i) == Rotate(xs, r + i)
  {
    var n := |xs|;
    ModIs(r, 0, r, n);
    AheadIs(r, i, n);
    assert Rotate(xs, r) == xs[r..] + xs[..r];
  }

  // ---------------------------------------------------------------- whole cycles

  // f repeats every n calls.
  ghost predicate Periodic(f: int -> real, n: nat) { n > 0 && forall i :: 0 <= i ==> f(i) == f(i % n) }

  lemma CycleTerm(f: int -> real, n: nat, m: nat, a: nat, t: nat)
    requires Periodic(f, n) && a == m * n && t < n
    ensures f(t + a) == f(t)
  {
    ModIs(t + a, m, t, n);
  }

  lemma OneMore(f: int -> real, n: nat, b: nat, a: nat)
    requires Periodic(f, n) && a == b * n
    ensures SumTo(a + n, f) == SumTo(a, f) + SumTo(n, f)
  {
    forall t | 0 <= t < n ensures f(t) == f(t + a) { CycleTerm(f, n, b, a, t); }
    Repeats(f, a, n);
  }

  // The calls after whole cycles repeat the first ones.
  lemma AfterCycles(f: int -> real, n: nat, m: nat, a: nat, s: nat)
    requires Periodic(f, n) && a == m * n && s < n
    ensures SumTo(a + s, f) == SumTo(a, f) + SumTo(s, f)
  {
    forall t | 0 <= t < s ensures f(t) == f(t + a) { CycleTerm(f, n, m, a, t); }
    Repeats(f, a, s);
  }

  lemma Repeats(f: int -> real, a: nat, s: nat)
    requires forall t :: 0 <= t < s ==> f(t) == f(t + a)
    ensures SumTo(a + s, f) == SumTo(a, f) + SumTo(s, f)
  {
    Split(0, a, a + s, f);
    Shifted(0, s, a, f, f);
  }

  lemma Less(m: nat, n: nat, k: nat)
    requires m > 0 && k == m * n
    ensures k - n == (m - 1) * n && k >= n
  {
    assert (m - 1) * n >= 0;
  }

  lemma Distribute(m: nat, x: real)
    requires m > 0
    ensures (m - 1) as real * x + x == m as real * x
  {
  }

  lemma {:induction false} CycleSum(f: int -> real, n: nat, m: nat, k: nat, total: real)
    requires Periodic(f, n) && k == m * n && total == SumTo(n, f)
    ensures SumTo(k, f) == m as real * total
    decreases m
  {
    if m > 0 {
      Less(m, n, k);
      CycleSum(f, n, m - 1, k - n, total);
      OneMore(f, n, m - 1, k - n);
      Distribute(m, total);
    }
  }

  // Over one cycle an option is listed once at every position.
  lemma BackSum(j: nat, n: nat, g: int -> real, f: int -> real)
    requires j < n && forall s :: 0 <= s < n ==> f(s) == g(Back(j, s, n))
    ensures SumTo(n, f) == SumTo(n, g)
  {
    Split(0, j + 1, n, f);
    Split(0, j + 1, n, g);
    Reflected(0, j + 1, j, f, g);
    Reflected(j + 1, n, j + n, f, g);
  }

  lemma AheadSum(r: nat, n: nat, g: int -> real, f: int -> real)
    requires r < n && forall s :: 0 <= s < n ==> f(s) == g(Ahead(r, s, n))
    ensures SumTo(n, f) == SumTo(n, g)
  {
    Split(0, n - r, n, f);
    Split(0, r, n, g);
    Shifted(0, n - r, r, f, g);
    Shifted(n - r, n, r - n, f, g);
  }

  lemma AheadPeriodic(r: nat, n: nat, g: int -> real, f: int -> real, i: nat)
    requires r < n && Periodic(g, n) && f(i) == g(r + i) && f(i % n) == g(r + i % n)
    ensures f(i) == f(i % n) && (i < n ==> f(i) == g(Ahead(r, i, n)))
  {
    AheadIs(r, i, n);
    AheadIs(r, i % n, n);
    ModIs(i % n, 0, i % n, n);
    if i < n { ModIs(i, 0, i, n); }
  }

  // Whole cycles do not depend on where they start.
  lemma ShiftedCycles(r: nat, n: nat, m: nat, k: nat, g: int -> real, f: int -> real)
    requires r < n && k == m * n && Periodic(g, n) && forall i :: 0 <= i ==> f(i) == g(r + i)
    ensures SumTo(k, f) == SumTo(k, g)
  {
    forall i | 0 <= i ensures f(i) == f(i % n) { AheadPeriodic(r, n, g, f, i); }
    forall s | 0 <= s < n ensures f(s) == g(Ahead(r, s, n)) { AheadPeriodic(r, n, g, f, s); }
    AheadSum(r, n, g, f);
    CycleSum(f, n, m, k, SumTo(n, g));
    CycleSum(g, n, m, k, SumTo(n, g));
  }

  // g at the position of option j in call i.
  function Placed(g: int -> real, j: int, n: nat): int -> real
    requires n > 0
  {
    i => g(Back(j, i % n, n))
  }

  lemma PlacedPeriodic(g: int -> real, j: int, n: nat)
    requires n > 0
    ensures Periodic(Placed(g, j, n), n)
  {
    forall i | 0 <= i ensures Placed(g, j, n)(i) == Placed(g, j, n)(i % n) { ModIs(i % n, 0, i % n, n); }
  }

  lemma PlacedCycle(g: int -> real, j: nat, n: nat)
    requires j < n
    ensures SumTo(n, Placed(g, j, n)) == SumTo(n, g)
  {
    var f := Placed(g, j, n);
    forall s | 0 <= s < n ensures f(s) == g(Back(j, s, n)) { ModIs(s, 0, s, n); }
    BackSum(j, n, g, f);
  }

  lemma PlacedSum(g: int -> real, j: nat, n: nat, m: nat, k: nat)
    requires j < n && k == m * n
    ensures SumTo(k, Placed(g, j, n)) == m as real * SumTo(n, g)
  {
    PlacedCycle(g, j, n);
    PlacedTotal(g, j, n, m, k, SumTo(n, g));
  }

  lemma PlacedTotal(g: int -> real, j: int, n: nat, m: nat, k: nat, total: real)
    requires n > 0 && k == m * n && total == SumTo(n, Placed(g, j, n))
    ensures SumTo(k, Placed(g, j, n)) == m as real * total
  {
    PlacedPeriodic(g, j, n);
    CycleSum(Placed(g, j, n), n, m, k, total);
  }

  /** Over m whole cycles every option is listed at every position exactly m times. */
  lemma EveryPairEqually(n: nat, m: nat, k: nat, j: nat, p: nat)
    requires j < n && p < n && k == m * n
    ensures CountTo(k, i => Position(j, i, n) == p) == m
  {
    var f := Placed(Only(p), j, n);
    PlacedSum(Only(p), j, n, m, k);
    SumOnly(n, p);
    forall i | 0 <= i < k ensures f(i) == if Position(j, i, n) == p then 1.0 else 0.0 { PositionIs(j, i, n); }
    CountAsSum(k, i => Position(j, i, n) == p, f);
  }
}
