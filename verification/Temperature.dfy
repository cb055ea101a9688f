/**
  Temperature scaling (internal/calibrate/fit.go, FitTemperature): a golden-section search for the minimum
  of the negative log-likelihood. The logit and softplus are arbitrary functions, softplus convex; the
  golden ratio is the exact root of g*g + g == 1.
*/
module Temperature {
  import opened Isotonic
  import opened Numeric
  import opened Wrappers

  const LOW: real := 0.01
  const HIGH: real := 100.0
  const ROUNDS: nat := 200

  predicate Golden(g: real) { g > 0.0 && g * g + g == 1.0 }

  function Pow(x: real, n: nat): real { if n == 0 then 1.0 else Pow(x, n - 1) * x }

  // v lies between u and w, and f(v) at or below the chord.
  ghost predicate ConvexAt(f: real -> real, u: real, v: real, w: real) {
    u < v < w ==> f(v) * (w - u) <= f(u) * (w - v) + f(w) * (v - u)
  }

  ghost predicate Convex(f: real -> real) { forall u, v, w :: ConvexAt(f, u, v, w) }

  // Nothing in [LOW, HIGH] is below everything in [lo, hi].
  ghost predicate Holds(f: real -> real, lo: real, hi: real, x: real) {
    LOW <= x <= HIGH ==> exists y :: Better(f, lo, hi, x, y)
  }

  ghost predicate Better(f: real -> real, lo: real, hi: real, x: real, y: real) { lo <= y <= hi && f(y) <= f(x) }

  ghost predicate HoldsMinimum(f: real -> real, lo: real, hi: real) { forall x :: Holds(f, lo, hi, x) }

  ghost predicate Minimiser(f: real -> real, m: real) {
    LOW <= m <= HIGH && forall x :: LOW <= x <= HIGH ==> f(m) <= f(x)
  }

  // ---------------------------------------------------------------- the objective

  function Term(softplus: real -> real, x: Pair, z: real, a: real): real {
    if x.y == 1 then softplus(-a * z) else softplus(a * z)
  }

  function Nll(softplus: real -> real, d: seq<Pair>, z: seq<real>, a: real): real
    requires |d| == |z|
  {
    if d == [] then 0.0
    else Nll(softplus, d[..|d| - 1], z[..|d| - 1], a) + Term(softplus, d[|d| - 1], z[|d| - 1], a)
  }

  function Objective(softplus: real -> real, d: seq<Pair>, z: seq<real>): real -> real
    requires |d| == |z|
  {
    a => Nll(softplus, d, z, a)
  }

  method FindNll(softplus: real -> real, d: seq<Pair>, z: seq<real>, a: real) returns (s: real)
    requires |d| == |z|
    ensures s == Objective(softplus, d, z)(a)
  {
    s := 0.0;
    for i := 0 to |d|
      invariant s == Nll(softplus, d[..i], z[..i], a)
    {
      assert d[..i + 1][..i] == d[..i] && z[..i + 1][..i] == z[..i];
      assert Nll(softplus, d[..i + 1], z[..i + 1], a) ==
        Nll(softplus, d[..i], z[..i], a) + Term(softplus, d[i], z[i], a);
      if d[i].y == 1 { s := s + softplus(-a * z[i]); } else { s := s + softplus(a * z[i]); }
    }
    assert d[..|d|] == d && z[..|d|] == z;
  }

  // Scaling the argument of a convex function keeps it convex.
  lemma Scaled(f: real -> real, k: real, u: real, v: real, w: real)
    requires Convex(f) && u < v < w
    ensures f(k * v) * (w - u) <= f(k * u) * (w - v) + f(k * w) * (v - u)
  {
    var x, y, z := k * u, k * v, k * w;
    if k > 0.0 {
      assert z - x == k * (w - u) && z - y == k * (w - v) && y - x == k * (v - u);
      Ordered(k, w - v, v - u);
      assert ConvexAt(f, x, y, z);
      DivideBy(k, f(y), f(x), f(z), w - u, w - v, v - u, z - x, z - y, y - x);
    } else if k < 0.0 {
      var n := -k;
      assert x - z == n * (w - u) && y - z == n * (w - v) && x - y == n * (v - u);
      Ordered(n, w - v, v - u);
      assert ConvexAt(f, z, y, x);
      DivideBy(n, f(y), f(x), f(z), w - u, w - v, v - u, x - z, y - z, x - y);
    } else {
      assert x == y == z == 0.0;
    }
  }

  lemma Ordered(k: real, q: real, r: real)
    requires k > 0.0 && q > 0.0 && r > 0.0
    ensures k * q > 0.0 && k * r > 0.0
  {
  }

  // b*p <= a*q + c*r follows from the same inequality scaled by k.
  lemma DivideBy(k: real, b: real, a: real, c: real, p: real, q: real, r: real, p': real, q': real, r': real)
    requires k > 0.0 && p' == k * p && q' == k * q && r' == k * r && b * p' <= a * q' + c * r'
    ensures b * p <= a * q + c * r
  {
    assert b * p' == (b * p) * k && a * q' == (a * q) * k && c * r' == (c * r) * k;
    CancelRight(b * p, a * q + c * r, k);
  }

  lemma SameValue(f: real -> real, x: real, y: real)
    requires x == y
    ensures f(x) == f(y)
  {
  }

  lemma TermConvex(softplus: real -> real, x: Pair, z: real, u: real, v: real, w: real)
    requires Convex(softplus) && u < v < w
    ensures Term(softplus, x, z, v) * (w - u) <= Term(softplus, x, z, u) * (w - v) + Term(softplus, x, z, w) * (v - u)
  {
    if x.y == 1 {
      var k := -z;
      Scaled(softplus, k, u, v, w);
      SameValue(softplus, -u * z, k * u);
      SameValue(softplus, -v * z, k * v);
      SameValue(softplus, -w * z, k * w);
    } else {
      Scaled(softplus, z, u, v, w);
      SameValue(softplus, u * z, z * u);
      SameValue(softplus, v * z, z * v);
      SameValue(softplus, w * z, z * w);
    }
  }

  lemma {:induction false} NllConvexAt(softplus: real -> real, d: seq<Pair>, z: seq<real>, u: real, v: real, w: real)
    requires |d| == |z| && Convex(softplus) && u < v < w
    ensures Nll(softplus, d, z, v) * (w - u) <= Nll(softplus, d, z, u) * (w - v) + Nll(softplus, d, z, w) * (v - u)
    decreases |d|
  {
    if d != [] {
      var n := |d| - 1;
      NllConvexAt(softplus, d[..n], z[..n], u, v, w);
      TermConvex(softplus, d[n], z[n], u, v, w);
    }
  }

  /** The likelihood is convex in a, for every convex softplus. */
  lemma NllConvex(softplus: real -> real, d: seq<Pair>, z: seq<real>)
    requires |d| == |z| && Convex(softplus)
    ensures Convex(Objective(softplus, d, z))
  {
    forall u, v, w ensures ConvexAt(Objective(softplus, d, z), u, v, w) {
      if u < v < w { NllConvexAt(softplus, d, z, u, v, w); }
    }
  }

  // ---------------------------------------------------------------- one step

  lemma BeyondIsHigher(f: real -> real, x1: real, x2: real, x: real)
    requires Convex(f) && x1 < x2 < x && f(x1) <= f(x2)
    ensures f(x2) <= f(x)
  {
    assert ConvexAt(f, x1, x2, x);
    Chord(f(x1), f(x2), f(x), x2 - x1, x - x2);
  }

  lemma BeforeIsHigher(f: real -> real, x: real, x1: real, x2: real)
    requires Convex(f) && x < x1 < x2 && f(x2) <= f(x1)
    ensures f(x1) <= f(x)
  {
    assert ConvexAt(f, x, x1, x2);
    Chord(f(x2), f(x1), f(x), x2 - x1, x1 - x);
  }

  lemma Chord(a: real, b: real, c: real, p: real, q: real)
    requires p > 0.0 && q > 0.0 && a <= b && b * (p + q) <= a * q + c * p
    ensures b <= c
  {
    assert (b - a) * q >= 0.0;
    assert b * p <= c * p;
    CancelRight(b, c, p);
  }

  lemma KeepLeft(f: real -> real, lo: real, x1: real, x2: real, hi: real)
    requires Convex(f) && lo < x1 < x2 < hi && f(x1) < f(x2) && HoldsMinimum(f, lo, hi)
    ensures HoldsMinimum(f, lo, x2)
  {
    forall x ensures Holds(f, lo, x2, x) {
      assert Holds(f, lo, hi, x);
      if LOW <= x <= HIGH {
        var y :| Better(f, lo, hi, x, y);
        if y > x2 {
          BeyondIsHigher(f, x1, x2, y);
          assert Better(f, lo, x2, x, x1);
        } else {
          assert Better(f, lo, x2, x, y);
        }
      }
    }
  }

  lemma KeepRight(f: real -> real, lo: real, x1: real, x2: real, hi: real)
    requires Convex(f) && lo < x1 < x2 < hi && f(x2) <= f(x1) && HoldsMinimum(f, lo, hi)
    ensures HoldsMinimum(f, x1, hi)
  {
    forall x ensures Holds(f, x1, hi, x) {
      assert Holds(f, lo, hi, x);
      if LOW <= x <= HIGH {
        var y :| Better(f, lo, hi, x, y);
        if y < x1 {
          BeforeIsHigher(f, y, x1, x2);
          assert Better(f, x1, hi, x, x2);
        } else {
          assert Better(f, x1, hi, x, y);
        }
      }
    }
  }

  lemma GoldenRange(g: real)
    requires Golden(g)
    ensures 0.5 < g < 0.619
  {
    assert (g - 0.5) * (g + 1.5) == 0.25;
    assert g - 0.5 == 0.25 / (g + 1.5);
    assert (0.619 - g) * (g + 1.619) == 0.002161;
    assert 0.619 - g == 0.002161 / (g + 1.619);
  }

  // The kept inner point is where the next round needs it.
  lemma GoldenPoints(g: real, lo: real, hi: real, w: real)
    requires Golden(g) && w == hi - lo && w > 0.0
    ensures var x1, x2 := hi - g * w, lo + g * w;
      && lo < x1 < x2 < hi && x2 - lo == g * w && hi - x1 == g * w
      && x1 == lo + g * (g * w) && x2 == hi - g * (g * w)
  {
    GoldenRange(g);
    assert g * (g * w) == w - g * w;
    assert 0.5 * w < g * w < w;
  }

  // ---------------------------------------------------------------- the search

  // The state of a round: the inner points, their cached values, and what the interval holds.
  ghost predicate Bracket(f: real -> real, g: real, lo: real, hi: real, x1: real, x2: real, f1: real, f2: real,
      i: nat)
  {
    && LOW <= lo < hi <= HIGH && hi - lo == (HIGH - LOW) * Pow(g, i)
    && x1 == hi - g * (hi - lo) && x2 == lo + g * (hi - lo)
    && f1 == f(x1) && f2 == f(x2)
    && HoldsMinimum(f, lo, hi)
  }

  lemma NarrowLeft(f: real -> real, g: real, lo: real, hi: real, x1: real, x2: real, f1: real, f2: real, i: nat)
    requires Convex(f) && Golden(g) && Bracket(f, g, lo, hi, x1, x2, f1, f2, i) && f1 < f2
    ensures var x := x2 - g * (x2 - lo); Bracket(f, g, lo, x2, x, x1, f(x), f1, i + 1)
  {
    GoldenPoints(g, lo, hi, hi - lo);
    KeepLeft(f, lo, x1, x2, hi);
    assert g * ((HIGH - LOW) * Pow(g, i)) == (HIGH - LOW) * Pow(g, i + 1);
  }

  lemma NarrowRight(f: real -> real, g: real, lo: real, hi: real, x1: real, x2: real, f1: real, f2: real, i: nat)
    requires Convex(f) && Golden(g) && Bracket(f, g, lo, hi, x1, x2, f1, f2, i) && f1 >= f2
    ensures var x := x1 + g * (hi - x1); Bracket(f, g, x1, hi, x2, x, f2, f(x), i + 1)
  {
    GoldenPoints(g, lo, hi, hi - lo);
    KeepRight(f, lo, x1, x2, hi);
    assert g * ((HIGH - LOW) * Pow(g, i)) == (HIGH - LOW) * Pow(g, i + 1);
  }

  lemma StartHolds(f: real -> real)
    ensures HoldsMinimum(f, LOW, HIGH)
  {
    forall x ensures Holds(f, LOW, HIGH, x) {
      assert LOW <= x <= HIGH ==> Better(f, LOW, HIGH, x, x);
    }
  }

  /** The golden-section loop, with the value at the kept point cached. */
  method GoldenSection(softplus: real -> real, d: seq<Pair>, z: seq<real>, g: real, ghost f: real -> real)
    returns (lo: real, hi: real)
    requires |d| == |z| && f == Objective(softplus, d, z) && Convex(f) && Golden(g)
    ensures LOW <= lo < hi <= HIGH && hi - lo == (HIGH - LOW) * Pow(g, ROUNDS) && HoldsMinimum(f, lo, hi)
  {
    lo, hi := LOW, HIGH;
    var x1, x2 := hi - g * (hi - lo), lo + g * (hi - lo);
    var f1 := FindNll(softplus, d, z, x1);
    var f2 := FindNll(softplus, d, z, x2);
    StartHolds(f);
    for i := 0 to ROUNDS
      invariant Bracket(f, g, lo, hi, x1, x2, f1, f2, i)
    {
      if f1 < f2 {
        NarrowLeft(f, g, lo, hi, x1, x2, f1, f2, i);
        hi, x2, f2 := x2, x1, f1;
        x1 := hi - g * (hi - lo);
        f1 := FindNll(softplus, d, z, x1);
      } else {
        NarrowRight(f, g, lo, hi, x1, x2, f1, f2, i);
        lo, x1, f1 := x1, x2, f2;
        x2 := lo + g * (hi - lo);
        f2 := FindNll(softplus, d, z, x2);
      }
    }
  }

  function Logits(logit: real -> real, d: seq<Pair>): (z: seq<real>)
    ensures |z| == |d| && forall i :: 0 <= i < |d| ==> z[i] == logit(d[i].p)
  {
    seq(|d|, i requires 0 <= i < |d| => logit(d[i].p))
  }

  /** FitTemperature: both outcomes must occur; the inverse temperature is the middle of an interval of
      exactly g^200 times the first width that still holds the minimum. */
  method FitTemperature(d: seq<Pair>, logit: real -> real, softplus: real -> real, g: real)
    returns (r: Result<real, FitError>, ghost lo: real, ghost hi: real)
    requires Convex(softplus) && Golden(g)
    ensures r.Ok? <==> (exists i :: 0 <= i < |d| && d[i].y == 1) && (exists i :: 0 <= i < |d| && d[i].y != 1)
    ensures r.Ok? ==> LOW <= lo < hi <= HIGH && hi - lo == (HIGH - LOW) * Pow(g, ROUNDS)
    ensures r.Ok? ==> HoldsMinimum(Objective(softplus, d, Logits(logit, d)), lo, hi)
    ensures r.Ok? ==> r.value == 1.0 / ((lo + hi) / 2.0)
  {
    var pos, neg := Classes(d);
    if pos == 0 || neg == 0 { return Err(SingleClass), LOW, HIGH; }
    var z: seq<real> := [];
    for i := 0 to |d|
      invariant |z| == i && forall j :: 0 <= j < i ==> z[j] == logit(d[j].p)
    {
      z := z + [logit(d[i].p)];
    }
    assert z == Logits(logit, d);
    NllConvex(softplus, d, z);
    var l, h := GoldenSection(softplus, d, z, g, Objective(softplus, d, z));
    var a := (l + h) / 2.0;
    return Ok(1.0 / a), l, h;
  }

  // ---------------------------------------------------------------- how close the result is

  lemma {:induction false} PowSplit(x: real, m: nat, n: nat)
    ensures Pow(x, m + n) == Pow(x, m) * Pow(x, n)
  {
    if n > 0 { PowSplit(x, m, n - 1); }
  }

  lemma {:induction false} PowBelow(x: real, b: real, k: nat, n: nat)
    requires 0.0 <= Pow(x, k) <= b
    ensures 0.0 <= Pow(x, k * n) <= Pow(b, n)
    decreases n
  {
    if n > 0 {
      PowBelow(x, b, k, n - 1);
      assert k * n == k * (n - 1) + k;
      PowSplit(x, k * (n - 1), k);
      ProductBelow(Pow(x, k * (n - 1)), Pow(b, n - 1), Pow(x, k), b);
    } else {
      assert k * n == 0;
    }
  }

  lemma ProductBelow(p: real, q: real, r: real, s: real)
    requires 0.0 <= p <= q && 0.0 <= r <= s
    ensures 0.0 <= p * r <= q * s
  {
    assert p * r <= q * r <= q * s;
  }

  // g^10 is below one hundredth.
  lemma TenthPower(g: real)
    requires Golden(g)
    ensures 0.0 <= Pow(g, 10) <= 0.01
  {
    GoldenRange(g);
    assert Pow(g, 1) == g;
    PowSplit(g, 1, 1);
    ProductBelow(g, 0.619, g, 0.619);
    PowSplit(g, 2, 2);
    ProductBelow(Pow(g, 2), 0.384, Pow(g, 2), 0.384);
    PowSplit(g, 4, 1);
    ProductBelow(Pow(g, 4), 0.148, g, 0.619);
    PowSplit(g, 5, 5);
    ProductBelow(Pow(g, 5), 0.092, Pow(g, 5), 0.092);
  }

  /** Whenever the likelihood has a minimiser, the fitted inverse temperature is within 1e-38 of one. */
  lemma NearMinimiser(f: real -> real, g: real, lo: real, hi: real, m: real) returns (m': real)
    requires Golden(g) && LOW <= lo < hi <= HIGH && hi - lo == (HIGH - LOW) * Pow(g, ROUNDS)
    requires HoldsMinimum(f, lo, hi) && Minimiser(f, m)
    ensures Minimiser(f, m') && Abs((lo + hi) / 2.0 - m') <= (hi - lo) / 2.0
    ensures hi - lo <= 0.00000000000000000000000000000000000001
  {
    assert Holds(f, lo, hi, m);
    m' :| Better(f, lo, hi, m, m');
    TenthPower(g);
    PowBelow(g, 0.01, 10, 20);
    HundredthPower();
  }

  lemma HundredthPower()
    ensures Pow(0.01, 20) == 0.0000000000000000000000000000000000000001
  {
    PowSplit(0.01, 1, 1);
    PowSplit(0.01, 2, 2);
    PowSplit(0.01, 4, 1);
    PowSplit(0.01, 5, 5);
    PowSplit(0.01, 10, 10);
    assert Pow(0.01, 1) == 0.01;
    assert Pow(0.01, 5) == 0.0000000001;
  }

  /** A fitted temperature is positive, so the recalibrated confidence keeps the order of the raw one. */
  lemma TemperatureKeepsOrder(logit: real -> real, sigmoid: real -> real, lo: real, hi: real, p: real, q: real)
    requires NonDecreasing(logit) && NonDecreasing(sigmoid) && LOW <= lo < hi <= HIGH && p <= q
    ensures var t := 1.0 / ((lo + hi) / 2.0); LOW <= t <= HIGH && sigmoid(logit(p) / t) <= sigmoid(logit(q) / t)
  {
    var a := (lo + hi) / 2.0;
    var t := 1.0 / a;
    Inverse(a, t);
    DivideKeepsOrder(logit(p), logit(q), t);
  }

  lemma Inverse(a: real, t: real)
    requires LOW <= a <= HIGH && t == 1.0 / a
    ensures LOW <= t <= HIGH
  {
    assert t * a == 1.0 && t > 0.0;
    assert t * a <= t * 100.0 && t * 0.01 <= t * a;
  }

  lemma DivideKeepsOrder(x: real, y: real, t: real)
    requires x <= y && t > 0.0
    ensures x / t <= y / t
  {
  }

  // ---------------------------------------------------------------- the objective is the likelihood

  function Product(xs: seq<real>): real { if xs == [] then 1.0 else Product(xs[..|xs| - 1]) * xs[|xs| - 1] }

  // What the recalibrated confidence sigma(a * logit(p)) gives each label.
  function Chances(sigma: real -> real, logit: real -> real, d: seq<Pair>, a: real): (qs: seq<real>)
    ensures |qs| == |d|
    ensures forall i :: 0 <= i < |d| ==> qs[i] == Chance(sigma, d[i], logit(d[i].p), a)
  {
    seq(|d|, i requires 0 <= i < |d| => Chance(sigma, d[i], logit(d[i].p), a))
  }

  function Chance(sigma: real -> real, x: Pair, z: real, a: real): real {
    if x.y == 1 then sigma(a * z) else 1.0 - sigma(a * z)
  }

  // How likely the labels are under it.
  function Likelihood(sigma: real -> real, logit: real -> real, d: seq<Pair>, a: real): real {
    Product(Chances(sigma, logit, d, a))
  }

  ghost predicate ProductAt(e: real -> real, x: real, y: real) { e(x + y) == e(x) * e(y) }

  ghost predicate Exponential(e: real -> real) {
    && e(0.0) == 1.0
    && (forall x: real, y: real :: ProductAt(e, x, y))
    && NonDecreasing(e)
  }

  // softplus(x) = ln(1 + exp(x)) and sigma(x) = 1 / (1 + exp(-x)), each told by the other.
  ghost predicate Logistic(e: real -> real, softplus: real -> real, sigma: real -> real) {
    forall x: real :: LogisticAt(e, softplus, sigma, x)
  }

  ghost predicate LogisticAt(e: real -> real, softplus: real -> real, sigma: real -> real, x: real) {
    e(-softplus(-x)) == sigma(x) && e(-softplus(x)) == 1.0 - sigma(x)
  }

  lemma TermIsLikelihood(e: real -> real, softplus: real -> real, sigma: real -> real, x: Pair, z: real, a: real)
    requires Logistic(e, softplus, sigma)
    ensures e(-Term(softplus, x, z, a)) == Chance(sigma, x, z, a)
  {
    var u := a * z;
    assert LogisticAt(e, softplus, sigma, u);
    assert -a * z == -u;
  }

  ghost predicate LogAt(e: real -> real, softplus: real -> real, x: Pair, z: real, a: real, q: real) {
    e(-Term(softplus, x, z, a)) == q
  }

  lemma {:induction false} NllIsProduct(e: real -> real, softplus: real -> real, d: seq<Pair>, z: seq<real>, a: real,
      qs: seq<real>)
    requires Exponential(e) && |qs| == |d| == |z|
    requires forall i :: 0 <= i < |d| ==> LogAt(e, softplus, d[i], z[i], a, qs[i])
    ensures e(-Nll(softplus, d, z, a)) == Product(qs)
    decreases |d|
  {
    if d != [] {
      var n := |d| - 1;
      NllIsProduct(e, softplus, d[..n], z[..n], a, qs[..n]);
      var p, q := Product(qs[..n]), qs[n];
      var s, t := NllLast(e, softplus, d, z, a, q);
      ProductLast(qs, p, q);
      SumOfLogs(e, s, t, p, q);
    }
  }

  lemma ProductLast(qs: seq<real>, p: real, q: real)
    requires qs != [] && p == Product(qs[..|qs| - 1]) && q == qs[|qs| - 1]
    ensures Product(qs) == p * q
  {
  }

  lemma NllLast(e: real -> real, softplus: real -> real, d: seq<Pair>, z: seq<real>, a: real, q: real)
    returns (s: real, t: real)
    requires |d| == |z| > 0 && LogAt(e, softplus, d[|d| - 1], z[|d| - 1], a, q)
    ensures s == Nll(softplus, d[..|d| - 1], z[..|d| - 1], a) && e(-t) == q && Nll(softplus, d, z, a) == s + t
  {
    var n := |d| - 1;
    s, t := Nll(softplus, d[..n], z[..n], a), Term(softplus, d[n], z[n], a);
  }

  /** The objective is the negative logarithm of the likelihood of the labels. */
  lemma ObjectiveIsLikelihood(e: real -> real, softplus: real -> real, sigma: real -> real, logit: real -> real,
      d: seq<Pair>, a: real)
    requires Exponential(e) && Logistic(e, softplus, sigma)
    ensures e(-Objective(softplus, d, Logits(logit, d))(a)) == Likelihood(sigma, logit, d, a)
  {
    var z, qs := Logits(logit, d), Chances(sigma, logit, d, a);
    forall i | 0 <= i < |d| ensures LogAt(e, softplus, d[i], z[i], a, qs[i]) {
      TermIsLikelihood(e, softplus, sigma, d[i], z[i], a);
    }
    NllIsProduct(e, softplus, d, z, a, qs);
  }

  lemma SumOfLogs(e: real -> real, s: real, t: real, p: real, q: real)
    requires Exponential(e) && e(-s) == p && e(-t) == q
    ensures e(-(s + t)) == p * q
  {
    assert ProductAt(e, -s, -t);
    assert -s + -t == -(s + t);
  }

  /** So the interval the fit ends with holds an inverse temperature under which the labels are at least as likely
      as under any other. */
  lemma MostLikely(e: real -> real, softplus: real -> real, sigma: real -> real, logit: real -> real, d: seq<Pair>,
      lo: real, hi: real, x: real)
    returns (y: real)
    requires Exponential(e) && Logistic(e, softplus, sigma) && LOW <= x <= HIGH
    requires HoldsMinimum(Objective(softplus, d, Logits(logit, d)), lo, hi)
    ensures lo <= y <= hi && Likelihood(sigma, logit, d, x) <= Likelihood(sigma, logit, d, y)
  {
    var f := Objective(softplus, d, Logits(logit, d));
    assert Holds(f, lo, hi, x);
    y :| Better(f, lo, hi, x, y);
    ObjectiveIsLikelihood(e, softplus, sigma, logit, d, x);
    ObjectiveIsLikelihood(e, softplus, sigma, logit, d, y);
    assert -f(x) <= -f(y);
  }

  // Every label is on the side its logit says, or every one on the other.
  ghost predicate Agree(d: seq<Pair>, z: seq<real>) {
    |d| == |z| && forall i :: 0 <= i < |d| ==> if d[i].y == 1 then z[i] >= 0.0 else z[i] <= 0.0
  }

  ghost predicate Oppose(d: seq<Pair>, z: seq<real>) {
    |d| == |z| && forall i :: 0 <= i < |d| ==> if d[i].y == 1 then z[i] <= 0.0 else z[i] >= 0.0
  }

  /** Labels that agree with their logits ask for a larger a, and labels that oppose them for a smaller one. */
  lemma {:induction false} ObjectiveFollowsLabels(softplus: real -> real, d: seq<Pair>, z: seq<real>, a: real, b: real)
    requires NonDecreasing(softplus) && a <= b && |d| == |z|
    ensures Agree(d, z) ==> Objective(softplus, d, z)(b) <= Objective(softplus, d, z)(a)
    ensures Oppose(d, z) ==> Objective(softplus, d, z)(a) <= Objective(softplus, d, z)(b)
    decreases |d|
  {
    if d != [] {
      var n := |d| - 1;
      ObjectiveFollowsLabels(softplus, d[..n], z[..n], a, b);
      TermFollowsLabel(softplus, d[n], z[n], a, b);
      if Agree(d, z) { assert Agree(d[..n], z[..n]); }
      if Oppose(d, z) { assert Oppose(d[..n], z[..n]); }
    }
  }

  lemma TermFollowsLabel(softplus: real -> real, x: Pair, z: real, a: real, b: real)
    requires NonDecreasing(softplus) && a <= b
    ensures (if x.y == 1 then z >= 0.0 else z <= 0.0) ==> Term(softplus, x, z, b) <= Term(softplus, x, z, a)
    ensures (if x.y == 1 then z <= 0.0 else z >= 0.0) ==> Term(softplus, x, z, a) <= Term(softplus, x, z, b)
  {
    if z >= 0.0 { Products(a, b, z); } else { Products(a, b, -z); }
  }

  lemma Products(a: real, b: real, z: real)
    requires a <= b && z >= 0.0
    ensures a * z <= b * z && -b * z <= -a * z && a * -z == -a * z && b * -z == -b * z
    ensures -a * -z == a * z && -b * -z == b * z
  {
    assert (b - a) * z >= 0.0;
  }
}
