/** Real arithmetic shared by the numeric modules: sums over sequences and the few facts they need. */
module Numeric {
  function Min(x: real, y: real): real { if x <= y then x else y }

  function Max(x: real, y: real): real { if x >= y then x else y }

  function Abs(x: real): real { if x < 0.0 then -x else x }

  function Sum(xs: seq<real>): real {
    if xs == [] then 0.0 else Sum(xs[..|xs| - 1]) + xs[|xs| - 1]
  }

  function SumOf(f: real -> real, xs: seq<real>): real {
    if xs == [] then 0.0 else SumOf(f, xs[..|xs| - 1]) + f(xs[|xs| - 1])
  }

  lemma SumSnoc(f: real -> real, xs: seq<real>, x: real)
    ensures Sum(xs + [x]) == Sum(xs) + x && SumOf(f, xs + [x]) == SumOf(f, xs) + f(x)
  {
    assert (xs + [x])[..|xs|] == xs;
  }

  lemma {:induction false} SumUpdate(xs: seq<real>, i: nat, v: real)
    requires i < |xs|
    ensures Sum(xs[i := v]) == Sum(xs) - xs[i] + v
    decreases |xs|
  {
    var n := |xs| - 1;
    if i < n {
      SumUpdate(xs[..n], i, v);
      assert xs[i := v][..n] == xs[..n][i := v];
    } else {
      assert xs[i := v][..n] == xs[..n];
    }
  }

  lemma {:induction false} SumBounds(xs: seq<real>, ys: seq<real>)
    requires |xs| == |ys| && forall i :: 0 <= i < |xs| ==> xs[i] <= ys[i]
    ensures Sum(xs) <= Sum(ys)
    decreases |xs|
  {
    if xs != [] { SumBounds(xs[..|xs| - 1], ys[..|ys| - 1]); }
  }

  lemma {:induction false} SumNonNegative(xs: seq<real>)
    requires forall i :: 0 <= i < |xs| ==> 0.0 <= xs[i]
    ensures 0.0 <= Sum(xs) && forall i :: 0 <= i < |xs| ==> xs[i] <= Sum(xs)
    decreases |xs|
  {
    if xs != [] { SumNonNegative(xs[..|xs| - 1]); }
  }

  // a * c <= b * c with c > 0 gives a <= b.
  lemma CancelRight(a: real, b: real, c: real)
    requires c > 0.0 && a * c <= b * c
    ensures a <= b
  {
    assert b - a == (b * c - a * c) / c;
  }

  lemma Scaled(a: real, b: real, c: real)
    requires a <= b && c >= 0.0
    ensures a * c <= b * c
  {
  }

  lemma Positive(x: real, y: real)
    requires x > 0.0 && y > 0.0
    ensures x * y > 0.0
  {
  }

  lemma PositiveIs(x: real, r: real)
    requires x > 0.0 && r == x * x
    ensures r > 0.0
  {
    assert r / x == x;
  }

  lemma Product(x: real, y: real)
    requires x >= 0.0 && y >= 0.0
    ensures x * y >= 0.0
    ensures x > 0.0 && y > 0.0 ==> x * y > 0.0
  {
  }

  lemma SquareNonNegative(x: real)
    ensures x * x >= 0.0
  {
    if x >= 0.0 { Product(x, x); } else {
      Product(-x, -x);
      assert (-x) * (-x) == x * x;
    }
  }

  lemma QuotientBetween(v: real, w: real, lo: real, hi: real)
    requires w > 0.0 && lo * w <= v <= hi * w
    ensures lo <= v / w <= hi
  {
    assert v / w - lo == (v - lo * w) / w;
    assert hi - v / w == (hi * w - v) / w;
  }

  lemma UnitQuotient(x: real, c: real)
    requires c > 0.0 && 0.0 <= x <= c
    ensures 0.0 <= x / c <= 1.0
  {
  }

  lemma Ratio(n: real, z: real, n': real, z': real)
    requires z > 0.0 && z' > 0.0 && n * z' <= n' * z
    ensures n / z <= n' / z'
  {
    assert n' / z' - n / z == (n' * z - n * z') / (z * z');
  }

  lemma StrictlySmaller(x: real, z: real, z': real)
    requires x > 0.0 && 0.0 < z < z'
    ensures x / z' < x / z
  {
    assert x / z - x / z' == x * (z' - z) / (z * z');
  }

  lemma {:induction false} SumOfUpdate(f: real -> real, xs: seq<real>, i: nat, v: real)
    requires i < |xs|
    ensures SumOf(f, xs[i := v]) == SumOf(f, xs) - f(xs[i]) + f(v)
    decreases |xs|
  {
    var n := |xs| - 1;
    if i < n {
      SumOfUpdate(f, xs[..n], i, v);
      assert xs[i := v][..n] == xs[..n][i := v];
    } else {
      assert xs[i := v][..n] == xs[..n];
    }
  }

  lemma {:induction false} SumPointwise(xs: seq<real>, ys: seq<real>, zs: seq<real>)
    requires |xs| == |ys| == |zs| && forall l :: 0 <= l < |xs| ==> zs[l] == xs[l] + ys[l]
    ensures Sum(zs) == Sum(xs) + Sum(ys)
    decreases |xs|
  {
    if xs != [] { SumPointwise(xs[..|xs| - 1], ys[..|ys| - 1], zs[..|zs| - 1]); }
  }

  lemma NonNegativeQuotient(c: real, n: real)
    requires c >= 0.0 && n > 0.0
    ensures c / n >= 0.0
  {
  }
}
