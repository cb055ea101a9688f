/**
  Using a fitted calibrator (internal/calibrate/fit.go, internal/calibrate/fromprofile.go): the
  interpolating Apply is monotone into [0,1], and a stored profile is accepted exactly when its
  parameters are valid, which every isotonic fit is.
*/
module Calibrator {
  import opened Wrappers
  import opened Isotonic
  import opened Numeric

  datatype Calibration =
    | Temperature(t: real)
    | Platt(a: real, b: real)
    | Isotonic(knots: Knots)

  // A stored parameter; an element None stands for anything that is not a finite number.
  datatype Param = Number(f: real) | Numbers(l: seq<Option<real>>) | Unusable

  datatype Profile = Profile(method_: string, params: map<string, Param>, nSamples: nat)

  datatype ProfileError = MissingParam | BadParam | OutOfRange | UnknownMethod

  // ---------------------------------------------------------------- applying a fit

  // The first index in [lo, hi] from which xs is at least p (Go's sort.SearchFloat64s).
  function Search(xs: seq<real>, p: real, lo: nat, hi: nat): (i: nat)
    requires lo <= hi <= |xs|
    ensures lo <= i <= hi
    decreases hi - lo
  {
    if lo == hi then lo
    else
      var h := (lo + hi) / 2;
      if xs[h] >= p then Search(xs, p, lo, h) else Search(xs, p, h + 1, hi)
  }

  function Apply(c: Knots, p: real): real
    requires |c.x| == |c.y|
  {
    var n := |c.x|;
    if n == 0 then p
    else if p <= c.x[0] then c.y[0]
    else if p >= c.x[n - 1] then c.y[n - 1]
    else
      var i := Search(c.x, p, 0, n);
      if 0 < i < n then
        if c.x[i] == p then c.y[i] else Between(c.x[i - 1], c.x[i], c.y[i - 1], c.y[i], p)
      else p
  }

  function Between(x0: real, x1: real, y0: real, y1: real, p: real): real {
    if x0 == x1 then y0 else y0 + (y1 - y0) * (p - x0) / (x1 - x0)
  }

  ghost predicate Ascending(xs: seq<real>) {
    forall i, j :: 0 <= i < j < |xs| ==> xs[i] < xs[j]
  }

  ghost predicate ValidKnots(xs: seq<real>, ys: seq<real>) {
    && |xs| == |ys| > 0
    && Ascending(xs)
    && (forall i, j :: 0 <= i < j < |ys| ==> ys[i] <= ys[j])
    && (forall i :: 0 <= i < |ys| ==> 0.0 <= ys[i] <= 1.0)
  }

  lemma {:induction false} SearchFinds(xs: seq<real>, p: real, lo: nat, hi: nat)
    requires Ascending(xs) && lo <= hi <= |xs|
    requires lo > 0 ==> xs[lo - 1] < p
    requires hi < |xs| ==> p <= xs[hi]
    ensures var i := Search(xs, p, lo, hi);
      (forall k :: 0 <= k < i ==> xs[k] < p) && (forall k :: i <= k < |xs| ==> p <= xs[k])
    decreases hi - lo
  {
    if lo < hi {
      var h := (lo + hi) / 2;
      if xs[h] >= p { SearchFinds(xs, p, lo, h); } else { SearchFinds(xs, p, h + 1, hi); }
    }
  }

  lemma BetweenBounds(x0: real, x1: real, y0: real, y1: real, p: real, q: real)
    requires x0 < x1 && y0 <= y1 && x0 <= p <= q <= x1
    ensures y0 <= Between(x0, x1, y0, y1, p) <= Between(x0, x1, y0, y1, q) <= y1
    ensures Between(x0, x1, y0, y1, x0) == y0 && Between(x0, x1, y0, y1, x1) == y1
  {
    var d, w := y1 - y0, x1 - x0;
    Fraction(d, w, p - x0);
    Fraction(d, w, q - x0);
    Scale(d, w, p - x0, q - x0);
    Fraction(d, w, 0.0);
    Fraction(d, w, w);
  }

  lemma Fraction(d: real, w: real, s: real)
    requires d >= 0.0 && w > 0.0 && 0.0 <= s <= w
    ensures 0.0 <= d * s / w <= d
    ensures (s == 0.0 ==> d * s / w == 0.0) && (s == w ==> d * s / w == d)
  {
    var r := s / w;
    assert r * w == s && 0.0 <= r <= 1.0;
    assert d * s / w == d * r;
    assert 0.0 <= d * r <= d;
  }

  lemma Scale(d: real, w: real, s: real, t: real)
    requires d >= 0.0 && w > 0.0 && s <= t
    ensures d * s / w <= d * t / w
  {
    assert d * t - d * s == d * (t - s);
    assert d * t / w - d * s / w == (d * t - d * s) / w;
  }

  // Where p falls: at or below the first knot, at or above the last, or between two neighbours.
  lemma ApplyAt(c: Knots, p: real) returns (i: nat)
    requires ValidKnots(c.x, c.y)
    ensures i < |c.x|
    ensures i == 0 ==> Apply(c, p) == c.y[0] && (p <= c.x[0] || |c.x| == 1)
    ensures i > 0 ==> c.x[i - 1] < p
    ensures i > 0 && i < |c.x| - 1 ==> p <= c.x[i]
    ensures i > 0 && p <= c.x[i] ==> Apply(c, p) == Between(c.x[i - 1], c.x[i], c.y[i - 1], c.y[i], p)
    ensures i > 0 && p >= c.x[i] ==> Apply(c, p) == c.y[i]
    ensures forall k :: 0 <= k < i ==> c.x[k] < p
  {
    var n := |c.x|;
    if p <= c.x[0] {
      i := 0;
    } else if p >= c.x[n - 1] {
      i := n - 1;
      if i > 0 { BetweenBounds(c.x[i - 1], c.x[i], c.y[i - 1], c.y[i], c.x[i], c.x[i]); }
    } else {
      SearchFinds(c.x, p, 0, n);
      i := Search(c.x, p, 0, n);
      BetweenBounds(c.x[i - 1], c.x[i], c.y[i - 1], c.y[i], p, p);
    }
  }

  /** Apply is monotone, stays within the first and last block value, and passes through every knot. */
  lemma ApplyMonotone(c: Knots, p: real, q: real)
    requires ValidKnots(c.x, c.y) && p <= q
    ensures 0.0 <= c.y[0] <= Apply(c, p) <= Apply(c, q) <= c.y[|c.y| - 1] <= 1.0
  {
    var i := ApplyAt(c, p);
    var j := ApplyAt(c, q);
    if i > 0 && p <= c.x[i] { BetweenBounds(c.x[i - 1], c.x[i], c.y[i - 1], c.y[i], p, p); }
    if j > 0 && q <= c.x[j] { BetweenBounds(c.x[j - 1], c.x[j], c.y[j - 1], c.y[j], q, q); }
    if i == j && i > 0 && q <= c.x[i] { BetweenBounds(c.x[i - 1], c.x[i], c.y[i - 1], c.y[i], p, q); }
    if i < j && 0 < i { assert c.y[i] <= c.y[j - 1]; }
  }

  lemma ApplyAtKnot(c: Knots, k: nat)
    requires ValidKnots(c.x, c.y) && k < |c.x|
    ensures Apply(c, c.x[k]) == c.y[k]
  {
    var i := ApplyAt(c, c.x[k]);
    if i > 0 {
      BetweenBounds(c.x[i - 1], c.x[i], c.y[i - 1], c.y[i], c.x[i], c.x[i]);
    }
  }

  // The point (p, v) lies on the line through (x0, y0) and (x1, y1).
  ghost predicate OnChord(x0: real, x1: real, y0: real, y1: real, p: real, v: real) {
    (v - y0) * (x1 - x0) == (y1 - y0) * (p - x0)
  }

  lemma BetweenChord(x0: real, x1: real, y0: real, y1: real, p: real)
    requires x0 < x1
    ensures OnChord(x0, x1, y0, y1, p, Between(x0, x1, y0, y1, p))
    ensures OnChord(x0, x1, y0, y1, x0, y0) && OnChord(x0, x1, y0, y1, x1, y1)
  {
    var n, w := (y1 - y0) * (p - x0), x1 - x0;
    assert n / w * w == n;
  }

  lemma ApplyInside(c: Knots, i: nat, p: real)
    requires ValidKnots(c.x, c.y) && 0 < i < |c.x| && c.x[i - 1] < p < c.x[i]
    ensures Apply(c, p) == Between(c.x[i - 1], c.x[i], c.y[i - 1], c.y[i], p)
  {
    var j := ApplyAt(c, p);
    assert j == i;
  }

  /** Between two neighbouring knots the value lies on the chord through them. */
  lemma ApplyOnChord(c: Knots, i: nat, p: real)
    requires ValidKnots(c.x, c.y) && 0 < i < |c.x| && c.x[i - 1] <= p <= c.x[i]
    ensures OnChord(c.x[i - 1], c.x[i], c.y[i - 1], c.y[i], p, Apply(c, p))
  {
    BetweenChord(c.x[i - 1], c.x[i], c.y[i - 1], c.y[i], p);
    if p == c.x[i - 1] {
      ApplyAtKnot(c, i - 1);
    } else if p == c.x[i] {
      ApplyAtKnot(c, i);
    } else {
      ApplyInside(c, i, p);
    }
  }

  // ---------------------------------------------------------------- every fit has valid knots

  // Labels are outcomes: right or wrong.
  ghost predicate Outcomes(d: seq<Pair>) {
    forall i :: 0 <= i < |d| ==> d[i].y == 0 || d[i].y == 1
  }

  lemma {:induction false} SumsBounded(s: seq<Pair>, a: nat, b: nat, w: real)
    requires Sorted(s) && Outcomes(s) && a < b <= |s| && w == (b - a) as real
    ensures 0.0 <= SumY(s, b) - SumY(s, a) <= w
    ensures s[a].p * w <= SumX(s, b) - SumX(s, a) <= s[b - 1].p * w
    decreases b
  {
    if a < b - 1 {
      SumsBounded(s, a, b - 1, w - 1.0);
      AddOne(s[a].p, s[b - 2].p, s[b - 1].p, w - 1.0, SumX(s, b - 1) - SumX(s, a), w);
    }
  }

  // n values between lo and mid, and one more between lo and hi.
  lemma AddOne(lo: real, mid: real, hi: real, n: real, sum: real, w: real)
    requires n >= 0.0 && lo <= mid <= hi && lo * n <= sum <= mid * n && w == n + 1.0
    ensures lo * w <= sum + hi <= hi * w
  {
    assert (hi - mid) * n >= 0.0;
  }

  lemma BlockCentre(s: seq<Pair>, a: nat, b: nat)
    requires Sorted(s) && Outcomes(s) && a < b <= |s|
    ensures var k := BlockOf(s, a, b); k.w > 0.0 && s[a].p <= k.sumX / k.w <= s[b - 1].p && 0.0 <= k.sumY / k.w <= 1.0
  {
    SumsBounded(s, a, b, (b - a) as real);
    var k := BlockOf(s, a, b);
    QuotientBetween(k.sumX, k.w, s[a].p, s[b - 1].p);
    QuotientBetween(k.sumY, k.w, 0.0, 1.0);
  }

  lemma {:induction false} OutcomesOfInsert(s: seq<Pair>, x: Pair)
    requires Outcomes(s) && (x.y == 0 || x.y == 1)
    ensures Outcomes(Insert(s, x))
    decreases |s|
  {
    if s != [] && s[|s| - 1].p > x.p { OutcomesOfInsert(s[..|s| - 1], x); }
  }

  lemma {:induction false} OutcomesOfSort(d: seq<Pair>)
    requires Outcomes(d)
    ensures Outcomes(SortByP(d))
    decreases |d|
  {
    if d != [] {
      OutcomesOfSort(d[..|d| - 1]);
      OutcomesOfInsert(SortByP(d[..|d| - 1]), d[|d| - 1]);
    }
  }

  lemma {:induction false} LaterBlocks(s: seq<Pair>, cut: seq<nat>, bl: seq<Block>, c: Knots, i: nat, j: nat)
    requires Sorted(s) && Outcomes(s) && Partition(s, cut, bl, |s|) && Rising(bl, |bl|) && Reports(bl, c)
    requires i < j < |bl|
    ensures c.x[i] < c.x[j] && c.y[i] <= c.y[j]
    decreases j
  {
    assert BlockAt(s, cut, bl, j - 1) && BlockAt(s, cut, bl, j);
    BlockCentre(s, cut[j - 1], cut[j]);
    BlockCentre(s, cut[j], cut[j + 1]);
    assert Mean(bl[j - 1]) <= Mean(bl[j]);
    if i < j - 1 { LaterBlocks(s, cut, bl, c, i, j - 1); }
  }

  /** The knots of every fit strictly increase in x and do not fall in y, which stays in [0,1]. */
  lemma FittedKnotsValid(d: seq<Pair>, cut: seq<nat>, c: Knots)
    requires Outcomes(d) && |c.y| > 0 && Pooled(SortByP(d), cut, c)
    ensures ValidKnots(c.x, c.y)
  {
    var s := SortByP(d);
    SortByPSorts(d);
    OutcomesOfSort(d);
    var bl: seq<Block> :| Partition(s, cut, bl, |s|) && Rising(bl, |bl|) && Reports(bl, c);
    forall i, j | 0 <= i < j < |bl| ensures c.x[i] < c.x[j] && c.y[i] <= c.y[j] {
      LaterBlocks(s, cut, bl, c, i, j);
    }
    forall k | 0 <= k < |bl| ensures 0.0 <= c.y[k] <= 1.0 {
      assert BlockAt(s, cut, bl, k);
      BlockCentre(s, cut[k], cut[k + 1]);
    }
  }

  // ---------------------------------------------------------------- profiles

  function MethodOf(c: Calibration): string {
    match c
    case Temperature(_) => "temperature"
    case Platt(_, _) => "platt"
    case Isotonic(_) => "isotonic"
  }

  function ParamsOf(c: Calibration): map<string, Param> {
    match c
    case Temperature(t) => map["temperature" := Number(t)]
    case Platt(a, b) => map["a" := Number(a), "b" := Number(b)]
    case Isotonic(k) => map["knots_x" := Numbers(Finite(k.x)), "knots_y" := Numbers(Finite(k.y)),
        "n_knots" := Number(|k.x| as real)]
  }

  function Finite(xs: seq<real>): (l: seq<Option<real>>)
    ensures |l| == |xs| && forall i :: 0 <= i < |xs| ==> l[i] == Some(xs[i])
  {
    seq(|xs|, i requires 0 <= i < |xs| => Some(xs[i]))
  }

  function ParamFloat(m: map<string, Param>, key: string): Result<real, ProfileError> {
    if key !in m then Err(MissingParam)
    else match m[key]
      case Number(f) => Ok(f)
      case _ => Err(BadParam)
  }

  method ParamFloats(m: map<string, Param>, key: string) returns (r: Result<seq<real>, ProfileError>)
    ensures key !in m ==> r == Err(MissingParam)
    ensures r.Ok? ==> key in m && m[key] == Numbers(Finite(r.value))
    ensures forall xs: seq<real> :: key in m && m[key] == Numbers(Finite(xs)) ==> r == Ok(xs)
  {
    if key !in m { return Err(MissingParam); }
    if !m[key].Numbers? { return Err(BadParam); }
    var l := m[key].l;
    var out: seq<real> := [];
    for i := 0 to |l|
      invariant |out| == i && forall j :: 0 <= j < i ==> l[j] == Some(out[j])
    {
      if l[i].None? { return Err(BadParam); }
      out := out + [l[i].value];
    }
    assert l == Finite(out);
    forall xs: seq<real> | m[key] == Numbers(Finite(xs)) ensures out == xs {
      assert |out| == |xs|;
      assert forall i :: 0 <= i < |xs| ==> Finite(xs)[i] == Some(out[i]);
    }
    r := Ok(out);
  }

  ghost predicate ValidCalibration(c: Calibration) {
    match c
    case Temperature(t) => t > 0.0
    case Platt(_, _) => true
    case Isotonic(k) => ValidKnots(k.x, k.y)
  }

  // What the parameters of a profile spell out, whether or not they are valid.
  ghost predicate Spells(p: Profile, c: Calibration) {
    && p.method_ == MethodOf(c)
    && (forall key :: key in ParamsOf(c) && key != "n_knots" ==> key in p.params && p.params[key] == ParamsOf(c)[key])
    && (c.Isotonic? ==> c.knots.n == p.nSamples)
  }

  lemma SpelledOnce(p: Profile, c: Calibration, d: Calibration)
    requires Spells(p, c) && Spells(p, d)
    ensures c == d
  {
    if c.Isotonic? {
      assert "knots_x" in ParamsOf(c) && "knots_y" in ParamsOf(c) && "knots_x" in ParamsOf(d)
        && "knots_y" in ParamsOf(d);
      FiniteInjective(c.knots.x, d.knots.x);
      FiniteInjective(c.knots.y, d.knots.y);
    } else if c.Platt? {
      assert "a" in ParamsOf(c) && "b" in ParamsOf(c) && "a" in ParamsOf(d) && "b" in ParamsOf(d);
    } else {
      assert "temperature" in ParamsOf(c) && "temperature" in ParamsOf(d);
    }
  }

  lemma FiniteInjective(xs: seq<real>, ys: seq<real>)
    requires Finite(xs) == Finite(ys)
    ensures xs == ys
  {
    assert |xs| == |Finite(xs)| == |ys|;
    forall i | 0 <= i < |xs| ensures xs[i] == ys[i] {
      assert Finite(xs)[i] == Some(xs[i]) && Finite(ys)[i] == Some(ys[i]);
    }
  }

  method CheckKnots(xs: seq<real>, ys: seq<real>) returns (ok: bool)
    ensures ok <==> ValidKnots(xs, ys)
  {
    if |xs| == 0 || |xs| != |ys| { return false; }
    for i := 0 to |xs|
      invariant forall a, b :: 0 <= a < b < i ==> xs[a] < xs[b]
      invariant forall a, b :: 0 <= a < b < i ==> ys[a] <= ys[b]
      invariant forall a :: 0 <= a < i ==> 0.0 <= ys[a] <= 1.0
    {
      if i > 0 && !(xs[i] > xs[i - 1]) { return false; }
      if ys[i] < 0.0 || ys[i] > 1.0 { return false; }
      if i > 0 && ys[i] < ys[i - 1] { return false; }
    }
    ok := true;
  }

  /** A profile is accepted exactly when it spells a valid calibration, and then that one is rebuilt. */
  method FromProfile(p: Profile) returns (r: Result<Calibration, ProfileError>)
    ensures r.Ok? ==> Spells(p, r.value) && ValidCalibration(r.value)
    ensures r.Ok? <==> exists c: Calibration :: Spells(p, c) && ValidCalibration(c)
  {
    if p.method_ == "temperature" {
      var t := ParamFloat(p.params, "temperature");
      forall c: Calibration | Spells(p, c) ensures t.Ok? && c == Temperature(t.value) {
        assert "temperature" in ParamsOf(c);
      }
      if t.Err? { return Err(t.error); }
      if !(t.value > 0.0) { return Err(OutOfRange); }
      r := Ok(Temperature(t.value));
      assert Spells(p, r.value) && ValidCalibration(r.value);
    } else if p.method_ == "platt" {
      var a := ParamFloat(p.params, "a");
      var b := ParamFloat(p.params, "b");
      forall c: Calibration | Spells(p, c) ensures a.Ok? && b.Ok? && c == Platt(a.value, b.value) {
        assert "a" in ParamsOf(c) && "b" in ParamsOf(c);
      }
      if a.Err? { return Err(a.error); }
      if b.Err? { return Err(b.error); }
      r := Ok(Platt(a.value, b.value));
      assert Spells(p, r.value) && ValidCalibration(r.value);
    } else if p.method_ == "isotonic" {
      var x := ParamFloats(p.params, "knots_x");
      var y := ParamFloats(p.params, "knots_y");
      forall c: Calibration | Spells(p, c)
        ensures x.Ok? && y.Ok? && c == Isotonic(Knots(x.value, y.value, p.nSamples)) {
        assert "knots_x" in ParamsOf(c) && "knots_y" in ParamsOf(c);
      }
      if x.Err? { return Err(x.error); }
      if y.Err? { return Err(y.error); }
      var ok := CheckKnots(x.value, y.value);
      if !ok { return Err(OutOfRange); }
      r := Ok(Isotonic(Knots(x.value, y.value, p.nSamples)));
      assert Spells(p, r.value) && ValidCalibration(r.value);
    } else {
      r := Err(UnknownMethod);
      assert forall c: Calibration :: MethodOf(c) != p.method_;
    }
  }

  /** The profile a fit reports spells exactly that fit, which is valid: FromProfile gives back every fit. */
  lemma FitIsAccepted(d: seq<Pair>, cut: seq<nat>, k: Knots, c: Calibration)
    requires Outcomes(d) && |k.y| > 0 && Pooled(SortByP(d), cut, k)
    ensures var p := Profile(MethodOf(Isotonic(k)), ParamsOf(Isotonic(k)), k.n);
      ValidCalibration(Isotonic(k)) && (Spells(p, c) <==> c == Isotonic(k))
  {
    FittedKnotsValid(d, cut, k);
    var p := Profile(MethodOf(Isotonic(k)), ParamsOf(Isotonic(k)), k.n);
    if Spells(p, c) { SpelledOnce(p, c, Isotonic(k)); }
  }
}
