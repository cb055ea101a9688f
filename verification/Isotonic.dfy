module Isotonic
  /**
    Isotonic recalibration (internal/calibrate/fit.go): the pool-adjacent-violators fit is the
    least-squares optimum over every non-decreasing function.

    A block is an index range of the sorted labels; its sums are differences of prefix sums, so a merge
    is exact by construction and the whole argument is about the cut points.
  */
{
  import opened Wrappers

  // One confidence observation: p is the probability given to the prediction, y is 1 when it was right.
  datatype Pair = Pair(p: real, y: int)

  datatype Block = Block(w: real, sumY: real, sumX: real)

  // The fitted knots: block centres, block values, number of labels.
  datatype Knots = Knots(x: seq<real>, y: seq<real>, n: nat)

  datatype FitError = SingleClass

  // ---------------------------------------------------------------- sorting and prefix sums

  ghost predicate Sorted(s: seq<Pair>) {
    forall i, j :: 0 <= i < j < |s| ==> s[i].p <= s[j].p
  }

  // Stable insertion: an equal p goes after the ones already there.
  function Insert(s: seq<Pair>, x: Pair): (r: seq<Pair>)
    ensures |r| == |s| + 1
  {
    if s == [] || s[|s| - 1].p <= x.p then s + [x]
    else Insert(s[..|s| - 1], x) + [s[|s| - 1]]
  }

  function SortByP(d: seq<Pair>): (r: seq<Pair>)
    ensures |r| == |d|
  {
    if d == [] then [] else Insert(SortByP(d[..|d| - 1]), d[|d| - 1])
  }

  function SumY(s: seq<Pair>, i: nat): real
    requires i <= |s|
  {
    if i == 0 then 0.0 else SumY(s, i - 1) + s[i - 1].y as real
  }

  function SumX(s: seq<Pair>, i: nat): real
    requires i <= |s|
  {
    if i == 0 then 0.0 else SumX(s, i - 1) + s[i - 1].p
  }

  function BlockOf(s: seq<Pair>, a: nat, b: nat): Block
    requires a < b <= |s|
  {
    Block((b - a) as real, SumY(s, b) - SumY(s, a), SumX(s, b) - SumX(s, a))
  }

  // Squared error of f on the first i labels, and the squared distance of f and g there.
  ghost function LossTo(s: seq<Pair>, i: nat, f: real -> real): real
    requires i <= |s|
  {
    if i == 0 then 0.0 else LossTo(s, i - 1, f) + Sq(s[i - 1].y as real - f(s[i - 1].p))
  }

  ghost function GapTo(s: seq<Pair>, i: nat, f: real -> real, g: real -> real): real
    requires i <= |s|
  {
    if i == 0 then 0.0 else GapTo(s, i - 1, f, g) + Sq(f(s[i - 1].p) - g(s[i - 1].p))
  }

  function Sq(x: real): real { x * x }

  ghost function Loss(d: seq<Pair>, f: real -> real): real { LossTo(d, |d|, f) }

  ghost function Gap(d: seq<Pair>, f: real -> real, g: real -> real): real { GapTo(d, |d|, f, g) }

  ghost predicate NonDecreasing(f: real -> real) {
    forall p: real, q: real :: p <= q ==> f(p) <= f(q)
  }

  // ---------------------------------------------------------------- what the loop maintains

  // No two equal confidences are separated at i.
  predicate TieBoundary(s: seq<Pair>, i: nat)
    requires i <= |s|
  {
    0 < i < |s| ==> s[i - 1].p < s[i].p
  }

  // The mean y / n is at least the mean z / w.
  ghost predicate MeanOk(y: real, n: real, z: real, w: real) { y * w >= z * n }

  // A prefix that ends at a tie boundary has at least the mean of the whole block.
  ghost predicate PrefixOk(s: seq<Pair>, a: nat, b: nat, i: nat)
    requires a < i < b <= |s|
  {
    TieBoundary(s, i) ==> MeanOk(SumY(s, i) - SumY(s, a), (i - a) as real, SumY(s, b) - SumY(s, a), (b - a) as real)
  }

  ghost predicate HeadHeavy(s: seq<Pair>, a: nat, b: nat)
    requires a < b <= |s|
  {
    forall i :: a < i < b ==> PrefixOk(s, a, b, i)
  }

  ghost predicate BlockAt(s: seq<Pair>, cut: seq<nat>, bl: seq<Block>, k: nat)
    requires k < |bl| < |cut|
  {
    && cut[k] < cut[k + 1] <= |s|
    && TieBoundary(s, cut[k]) && TieBoundary(s, cut[k + 1])
    && bl[k] == BlockOf(s, cut[k], cut[k + 1])
    && HeadHeavy(s, cut[k], cut[k + 1])
  }

  // The blocks are head-heavy index ranges, cut at tie boundaries, that cover the first upto labels.
  ghost predicate Partition(s: seq<Pair>, cut: seq<nat>, bl: seq<Block>, upto: nat) {
    && |cut| == |bl| + 1 && cut[0] == 0 && cut[|bl|] == upto <= |s|
    && forall k :: 0 <= k < |bl| ==> BlockAt(s, cut, bl, k)
  }

  function Mean(b: Block): real {
    if b.w == 0.0 then 0.0 else b.sumY / b.w
  }

  // Block values do not fall over the first m blocks.
  ghost predicate Rising(bl: seq<Block>, m: nat)
    requires m <= |bl|
  {
    forall k :: 0 < k < m ==> Mean(bl[k - 1]) <= Mean(bl[k])
  }

  // The result of the fit on the sorted labels: knots of a rising head-heavy partition.
  ghost predicate Reports(bl: seq<Block>, c: Knots) {
    && |c.x| == |c.y| == |bl|
    && forall k :: 0 <= k < |bl| ==> bl[k].w > 0.0 && c.x[k] == bl[k].sumX / bl[k].w && c.y[k] == bl[k].sumY / bl[k].w
  }

  ghost predicate Pooled(s: seq<Pair>, cut: seq<nat>, c: Knots) {
    && c.n == |s|
    && exists bl: seq<Block> :: Partition(s, cut, bl, |s|) && Rising(bl, |bl|) && Reports(bl, c)
  }

  // ---------------------------------------------------------------- the fit

  method Classes(d: seq<Pair>) returns (pos: nat, neg: nat)
    ensures pos + neg == |d|
    ensures pos > 0 <==> exists i :: 0 <= i < |d| && d[i].y == 1
    ensures neg > 0 <==> exists i :: 0 <= i < |d| && d[i].y != 1
  {
    pos, neg := 0, 0;
    for k := 0 to |d|
      invariant pos + neg == k
      invariant pos > 0 <==> exists i :: 0 <= i < k && d[i].y == 1
      invariant neg > 0 <==> exists i :: 0 <= i < k && d[i].y != 1
    {
      if d[k].y == 1 { pos := pos + 1; } else { neg := neg + 1; }
    }
  }

  // The labels that share the confidence of s[i], pooled into one block.
  method PoolTies(s: seq<Pair>, i: nat) returns (j: nat, b: Block)
    requires Sorted(s) && i < |s|
    ensures i < j <= |s| && b == BlockOf(s, i, j)
    ensures forall m :: i <= m < j ==> s[m].p == s[i].p
    ensures j < |s| ==> s[i].p < s[j].p
  {
    j, b := i, Block(0.0, 0.0, 0.0);
    while j < |s| && s[j].p == s[i].p
      invariant i <= j <= |s|
      invariant forall m :: i <= m < j ==> s[m].p == s[i].p
      invariant b == Block((j - i) as real, SumY(s, j) - SumY(s, i), SumX(s, j) - SumX(s, i))
    {
      b := Block(b.w + 1.0, b.sumY + s[j].y as real, b.sumX + s[j].p);
      j := j + 1;
    }
  }

  // Pools the top pair of blocks for as long as it violates the order.
  method PoolViolators(s: seq<Pair>, bl0: seq<Block>, ghost cut0: seq<nat>, ghost i: nat)
    returns (bl: seq<Block>, ghost cut: seq<nat>)
    requires |bl0| > 0 && Partition(s, cut0, bl0, i) && Rising(bl0, |bl0| - 1)
    ensures |bl| > 0 && Partition(s, cut, bl, i) && Rising(bl, |bl|)
  {
    bl, cut := bl0, cut0;
    while |bl| > 1
      invariant |bl| >= 1
      invariant Partition(s, cut, bl, i)
      invariant Rising(bl, |bl| - 1)
      decreases |bl|
    {
      var a, c := bl[|bl| - 2], bl[|bl| - 1];
      TopPair(s, cut, bl, i);
      if a.sumY / a.w <= c.sumY / c.w {
        break;
      }
      MergeKeeps(s, cut, bl, i);
      ghost var k := |bl| - 2;
      cut := cut[..k + 1] + [cut[k + 2]];
      bl := bl[..|bl| - 2] + [Block(a.w + c.w, a.sumY + c.sumY, a.sumX + c.sumX)];
    }
  }

  method FitIsotonicUnchecked(d: seq<Pair>) returns (r: Result<Knots, FitError>, ghost cut: seq<nat>)
    ensures r.Ok? <==> (exists i :: 0 <= i < |d| && d[i].y == 1) && (exists i :: 0 <= i < |d| && d[i].y != 1)
    ensures r.Ok? ==> |r.value.y| > 0 && Pooled(SortByP(d), cut, r.value)
  {
    cut := [0];
    var pos, neg := Classes(d);
    if pos == 0 || neg == 0 {
      return Err(SingleClass), cut;
    }
    var s := SortByP(d);
    SortByPSorts(d);
    var bl: seq<Block> := [];
    var i := 0;
    while i < |s|
      invariant 0 <= i <= |s|
      invariant Partition(s, cut, bl, i)
      invariant Rising(bl, |bl|)
      invariant i > 0 ==> |bl| > 0
    {
      var j, b := PoolTies(s, i);
      PushKeeps(s, cut, bl, i, j);
      bl, cut := PoolViolators(s, bl + [b], cut + [j], j);
      i := j;
    }
    var xs: seq<real>, ys: seq<real> := [], [];
    for k := 0 to |bl|
      invariant |xs| == |ys| == k
      invariant forall m :: 0 <= m < k ==>
        bl[m].w > 0.0 && xs[m] == bl[m].sumX / bl[m].w && ys[m] == bl[m].sumY / bl[m].w
    {
      assert BlockAt(s, cut, bl, k);
      xs := xs + [bl[k].sumX / bl[k].w];
      ys := ys + [bl[k].sumY / bl[k].w];
    }
    r := Ok(Knots(xs, ys, |d|));
    assert Reports(bl, r.value);
  }

  lemma TopPair(s: seq<Pair>, cut: seq<nat>, bl: seq<Block>, i: nat)
    requires Partition(s, cut, bl, i) && |bl| > 1
    ensures var k := |bl| - 2;
      && BlockAt(s, cut, bl, k) && BlockAt(s, cut, bl, k + 1)
      && bl[k].w > 0.0 && bl[k + 1].w > 0.0
      && BlockOf(s, cut[k], cut[k + 2]) ==
         Block(bl[k].w + bl[k + 1].w, bl[k].sumY + bl[k + 1].sumY, bl[k].sumX + bl[k + 1].sumX)
  {
    var k := |bl| - 2;
    assert BlockAt(s, cut, bl, k) && BlockAt(s, cut, bl, k + 1);
  }

  lemma SortByPSorts(d: seq<Pair>)
    ensures Sorted(SortByP(d))
  {
    if d != [] {
      SortByPSorts(d[..|d| - 1]);
      InsertSorts(SortByP(d[..|d| - 1]), d[|d| - 1]);
    }
  }

  lemma {:induction false} InsertSorts(s: seq<Pair>, x: Pair)
    requires Sorted(s)
    ensures Sorted(Insert(s, x))
    ensures forall i :: 0 <= i < |s| + 1 ==> Insert(s, x)[i] == x || Insert(s, x)[i] in s
  {
    if s == [] || s[|s| - 1].p <= x.p {
    } else {
      InsertSorts(s[..|s| - 1], x);
    }
  }

  lemma PushKeeps(s: seq<Pair>, cut: seq<nat>, bl: seq<Block>, i: nat, j: nat)
    requires Sorted(s) && Partition(s, cut, bl, i) && i < j <= |s|
    requires forall m :: i <= m < j ==> s[m].p == s[i].p
    requires j < |s| ==> s[j].p != s[i].p
    ensures Partition(s, cut + [j], bl + [BlockOf(s, i, j)], j)
  {
    var cut', bl' := cut + [j], bl + [BlockOf(s, i, j)];
    forall k | 0 <= k < |bl'| ensures BlockAt(s, cut', bl', k) {
      if k < |bl| {
        assert BlockAt(s, cut, bl, k);
      } else if k > 0 {
        assert BlockAt(s, cut, bl, k - 1);
      }
    }
  }

  // Pooling a violating pair keeps every property of the partition.
  lemma MergeKeeps(s: seq<Pair>, cut: seq<nat>, bl: seq<Block>, i: nat)
    requires Partition(s, cut, bl, i) && |bl| > 1
    requires Mean(bl[|bl| - 2]) > Mean(bl[|bl| - 1])
    ensures var k := |bl| - 2;
      BlockAt(s, cut, bl, k) && BlockAt(s, cut, bl, k + 1) &&
      Partition(s, cut[..k + 1] + [cut[k + 2]], bl[..k] + [BlockOf(s, cut[k], cut[k + 2])], i)
  {
    var k := |bl| - 2;
    assert BlockAt(s, cut, bl, k) && BlockAt(s, cut, bl, k + 1);
    HeadHeavyMerge(s, cut[k], cut[k + 1], cut[k + 2]);
    var cut', bl' := cut[..k + 1] + [cut[k + 2]], bl[..k] + [BlockOf(s, cut[k], cut[k + 2])];
    forall j | 0 <= j < |bl'| ensures BlockAt(s, cut', bl', j) {
      if j < k { assert BlockAt(s, cut, bl, j); }
    }
  }

  lemma HeadHeavyMerge(s: seq<Pair>, a: nat, m: nat, b: nat)
    requires a < m < b <= |s|
    requires HeadHeavy(s, a, m) && HeadHeavy(s, m, b)
    requires Mean(BlockOf(s, a, m)) > Mean(BlockOf(s, m, b))
    ensures HeadHeavy(s, a, b)
  {
    var ya, yc := SumY(s, m) - SumY(s, a), SumY(s, b) - SumY(s, m);
    var wa, wc := (m - a) as real, (b - m) as real;
    CrossMultiply(ya, wa, yc, wc);
    forall i | a < i < b ensures PrefixOk(s, a, b, i) {
      assert i < m ==> PrefixOk(s, a, m, i);
      assert i > m ==> PrefixOk(s, m, b, i);
      PrefixMerge(s, a, m, b, i, ya, wa, yc, wc);
    }
  }

  lemma PrefixMerge(s: seq<Pair>, a: nat, m: nat, b: nat, i: nat, ya: real, wa: real, yc: real, wc: real)
    requires a < m < b <= |s| && a < i < b && ya == SumY(s, m) - SumY(s, a) && yc == SumY(s, b) - SumY(s, m)
    requires wa == (m - a) as real && wc == (b - m) as real && ya * wc > yc * wa
    requires (i < m ==> PrefixOk(s, a, m, i)) && (i > m ==> PrefixOk(s, m, b, i))
    ensures PrefixOk(s, a, b, i)
  {
    if TieBoundary(s, i) {
      var y, n := SumY(s, i) - SumY(s, a), (i - a) as real;
      if i < m {
        MergeLeft(ya, wa, yc, wc, y, n);
      } else if i == m {
        MergeLeft(ya, wa, yc, wc, ya, wa);
      } else {
        MergeRight(ya, wa, yc, wc, y - ya, n - wa);
      }
      assert ya + yc == SumY(s, b) - SumY(s, a) && wa + wc == (b - a) as real;
    }
  }

  lemma CrossMultiply(ya: real, wa: real, yc: real, wc: real)
    requires wa > 0.0 && wc > 0.0 && ya / wa > yc / wc
    ensures ya * wc > yc * wa
  {
    var p, q := ya / wa, yc / wc;
    assert ya == p * wa && yc == q * wc;
    assert (p - q) * (wa * wc) > 0.0;
  }

  lemma MergeLeft(ya: real, wa: real, yc: real, wc: real, y: real, w: real)
    requires wa > 0.0 && wc > 0.0 && 0.0 < w <= wa && ya * wc > yc * wa
    requires MeanOk(y, w, ya, wa)
    ensures MeanOk(y, w, ya + yc, wa + wc)
  {
    var t := y * wc - yc * w;
    // wa * t == (y*wa)*wc - (yc*wa)*w >= ya*w*wc - ya*wc*w == 0
    assert wa * t == (y * wa) * wc - (yc * wa) * w;
    assert (y * wa) * wc >= (ya * w) * wc;
    assert (yc * wa) * w <= (ya * wc) * w;
    assert (ya * w) * wc == (ya * wc) * w;
    assert wa * t >= 0.0;
    assert t == (wa * t) / wa;
    assert y * (wa + wc) - (ya + yc) * w == (y * wa - ya * w) + t;
  }

  lemma MergeRight(ya: real, wa: real, yc: real, wc: real, y: real, w: real)
    requires wa > 0.0 && wc > 0.0 && 0.0 < w <= wc && ya * wc > yc * wa
    requires MeanOk(y, w, yc, wc)
    ensures MeanOk(ya + y, wa + w, ya + yc, wa + wc)
  {
    var t := (ya + y) * (wa + wc) - (ya + yc) * (wa + w);
    assert t == ya * wc - yc * wa + y * wa - ya * w + (y * wc - yc * w);
    var u := ya * wc - yc * wa + y * wa - ya * w;
    // wc * u == (ya*wc - yc*wa)*wc + (y*wc)*wa - ya*wc*w >= (ya*wc - yc*wa)*(wc - w)
    assert wc * u == (ya * wc - yc * wa) * wc + (y * wc) * wa - (ya * wc) * w;
    assert (y * wc) * wa >= (yc * w) * wa;
    assert (yc * w) * wa == (yc * wa) * w;
    assert (ya * wc - yc * wa) * (wc - w) >= 0.0;
    assert wc * u >= 0.0;
    assert u == (wc * u) / wc;
  }

  // ---------------------------------------------------------------- optimality

  // The step function of the fit: the value of the last block that starts at or below p.
  ghost function Step(s: seq<Pair>, cut: seq<nat>, y: seq<real>, k: nat, p: real): real
    requires 0 < k <= |y| && |cut| == |y| + 1
  {
    if k == 1 || cut[k - 1] >= |s| || s[cut[k - 1]].p <= p then y[k - 1] else Step(s, cut, y, k - 1, p)
  }

  ghost function Residual(s: seq<Pair>, a: nat, i: nat, m: real, f: real -> real): real
    requires a <= i <= |s|
  {
    if i == a then 0.0 else Residual(s, a, i - 1, m, f) + (s[i - 1].y as real - m) * (f(s[i - 1].p) - m)
  }

  lemma AbelStep(p0: real, e: real, u: real, v: real, d: real)
    requires d <= p0 * u
    requires u == v || (p0 >= 0.0 && u <= v)
    ensures d + e * v <= (p0 + e) * v
  {
    assert p0 * v - p0 * u == p0 * (v - u);
  }

  // How far the labels of a prefix lie above m in total.
  ghost function Surplus(s: seq<Pair>, a: nat, i: nat, m: real): real
    requires a <= i <= |s|
  {
    if i == a then 0.0 else Surplus(s, a, i - 1, m) + (s[i - 1].y as real - m)
  }

  lemma {:induction false} SurplusIs(s: seq<Pair>, a: nat, i: nat, m: real)
    requires a <= i <= |s|
    ensures Surplus(s, a, i, m) == SumY(s, i) - SumY(s, a) - m * (i - a) as real
    decreases i
  {
    if i > a { SurplusIs(s, a, i - 1, m); }
  }

  lemma SurplusOfMean(s: seq<Pair>, a: nat, b: nat)
    requires a < b <= |s|
    ensures Surplus(s, a, b, Mean(BlockOf(s, a, b))) == 0.0
  {
    SurplusIs(s, a, b, Mean(BlockOf(s, a, b)));
  }

  lemma SurplusOfPrefix(s: seq<Pair>, a: nat, b: nat, i: nat)
    requires a < i < b <= |s| && PrefixOk(s, a, b, i) && TieBoundary(s, i)
    ensures Surplus(s, a, i, Mean(BlockOf(s, a, b))) >= 0.0
  {
    var m, y, n, w := Mean(BlockOf(s, a, b)), SumY(s, i) - SumY(s, a), (i - a) as real, (b - a) as real;
    SurplusIs(s, a, i, m);
    assert SumY(s, b) - SumY(s, a) == m * w;
    assert y - m * n == (y * w - (m * w) * n) / w;
  }

  ghost predicate SurplusOk(s: seq<Pair>, a: nat, b: nat, m: real)
    requires a < b <= |s|
  {
    forall i :: a < i < b && TieBoundary(s, i) ==> Surplus(s, a, i, m) >= 0.0
  }

  // Abel summation over one block: a head-heavy block is negatively correlated with any rising function.
  lemma {:induction false} ResidualBound(s: seq<Pair>, a: nat, b: nat, i: nat, m: real, f: real -> real)
    requires Sorted(s) && a < i <= b <= |s| && SurplusOk(s, a, b, m) && NonDecreasing(f)
    ensures Residual(s, a, i, m, f) <= Surplus(s, a, i, m) * (f(s[i - 1].p) - m)
    decreases i
  {
    var e, v := s[i - 1].y as real - m, f(s[i - 1].p) - m;
    if i - 1 == a {
      AbelStep(0.0, e, v, v, 0.0);
    } else {
      ResidualBound(s, a, b, i - 1, m, f);
      var u, p0 := f(s[i - 2].p) - m, Surplus(s, a, i - 1, m);
      assert s[i - 2].p == s[i - 1].p || TieBoundary(s, i - 1);
      assert u == v || (p0 >= 0.0 && u <= v);
      AbelStep(p0, e, u, v, Residual(s, a, i - 1, m, f));
    }
  }

  lemma SquareSplit(y: real, v: real, m: real)
    ensures Sq(y - v) == Sq(y - m) + Sq(v - m) - 2.0 * ((y - m) * (v - m))
  {
  }

  lemma LossStep(s: seq<Pair>, i: nat, f: real -> real, v: real)
    requires 0 < i <= |s| && f(s[i - 1].p) == v
    ensures LossTo(s, i, f) == LossTo(s, i - 1, f) + Sq(s[i - 1].y as real - v)
  {
  }

  lemma GapStep(s: seq<Pair>, i: nat, f: real -> real, g: real -> real, m: real)
    requires 0 < i <= |s| && g(s[i - 1].p) == m
    ensures GapTo(s, i, f, g) == GapTo(s, i - 1, f, g) + Sq(f(s[i - 1].p) - m)
  {
  }

  lemma ResidualStep(s: seq<Pair>, a: nat, i: nat, m: real, f: real -> real)
    requires a < i <= |s|
    ensures Residual(s, a, i, m, f) == Residual(s, a, i - 1, m, f) + (s[i - 1].y as real - m) * (f(s[i - 1].p) - m)
  {
  }

  lemma ExpandStep(l: real, l': real, k: real, k': real, gap: real, gap': real, r: real, r': real, y: real, v: real,
      m: real)
    requires l' == l + Sq(y - v) && k' == k + Sq(y - m) && gap' == gap + Sq(v - m) && r' == r + (y - m) * (v - m)
    requires l == k + gap - 2.0 * r
    ensures l' == k' + gap' - 2.0 * r'
  {
    SquareSplit(y, v, m);
  }

  // Expanding the square turns the loss into the loss of the mean, the distance and the residual.
  lemma {:induction false} LossExpands(s: seq<Pair>, a: nat, i: nat, m: real, f: real -> real, g: real -> real)
    requires a <= i <= |s|
    requires forall j :: a <= j < i ==> g(s[j].p) == m
    ensures LossTo(s, i, f) - LossTo(s, a, f)
         == LossTo(s, i, g) - LossTo(s, a, g) + (GapTo(s, i, f, g) - GapTo(s, a, f, g)) - 2.0 * Residual(s, a, i, m, f)
    decreases i
  {
    if i > a {
      LossExpands(s, a, i - 1, m, f, g);
      LossStep(s, i, f, f(s[i - 1].p));
      LossStep(s, i, g, m);
      GapStep(s, i, f, g, m);
      ResidualStep(s, a, i, m, f);
      ExpandStep(LossTo(s, i - 1, f) - LossTo(s, a, f), LossTo(s, i, f) - LossTo(s, a, f),
                 LossTo(s, i - 1, g) - LossTo(s, a, g), LossTo(s, i, g) - LossTo(s, a, g),
                 GapTo(s, i - 1, f, g) - GapTo(s, a, f, g), GapTo(s, i, f, g) - GapTo(s, a, f, g),
                 Residual(s, a, i - 1, m, f), Residual(s, a, i, m, f), s[i - 1].y as real, f(s[i - 1].p), m);
    }
  }

  // In one block nothing rising beats the block mean.
  lemma BlockOptimal(s: seq<Pair>, a: nat, b: nat, m: real, f: real -> real, g: real -> real)
    requires Sorted(s) && a < b <= |s| && HeadHeavy(s, a, b) && NonDecreasing(f)
    requires m == Mean(BlockOf(s, a, b))
    requires forall j :: a <= j < b ==> g(s[j].p) == m
    ensures LossTo(s, b, f) - LossTo(s, a, f)
         >= LossTo(s, b, g) - LossTo(s, a, g) + (GapTo(s, b, f, g) - GapTo(s, a, f, g))
  {
    forall i | a < i < b && TieBoundary(s, i) ensures Surplus(s, a, i, m) >= 0.0 {
      assert PrefixOk(s, a, b, i);
      SurplusOfPrefix(s, a, b, i);
    }
    ResidualBound(s, a, b, b, m, f);
    SurplusOfMean(s, a, b);
    LossExpands(s, a, b, m, f, g);
  }

  lemma {:induction false} PrefixOptimal(s: seq<Pair>, cut: seq<nat>, bl: seq<Block>, k: nat, f: real -> real,
      g: real -> real)
    requires Sorted(s) && Partition(s, cut, bl, |s|) && NonDecreasing(f) && k <= |bl|
    requires forall b: nat, j: nat :: b < |bl| && cut[b] <= j < |s| && j < cut[b + 1] ==> g(s[j].p) == Mean(bl[b])
    requires cut[k] <= |s|
    ensures LossTo(s, cut[k], f) >= LossTo(s, cut[k], g) + GapTo(s, cut[k], f, g)
    decreases k
  {
    if k > 0 {
      assert BlockAt(s, cut, bl, k - 1);
      PrefixOptimal(s, cut, bl, k - 1, f, g);
      BlockOptimal(s, cut[k - 1], cut[k], Mean(bl[k - 1]), f, g);
    }
  }

  lemma {:induction false} CutsIncrease(s: seq<Pair>, cut: seq<nat>, bl: seq<Block>, j: nat, k: nat)
    requires Partition(s, cut, bl, |s|) && j <= k <= |bl|
    ensures cut[j] <= cut[k] && (j < k ==> cut[j] < cut[k])
    decreases k
  {
    if j < k {
      assert BlockAt(s, cut, bl, k - 1);
      CutsIncrease(s, cut, bl, j, k - 1);
    }
  }

  // Inside block b the step function has the value of block b.
  lemma {:induction false} StepAtData(s: seq<Pair>, cut: seq<nat>, bl: seq<Block>, y: seq<real>, k: nat, b: nat, j: nat)
    requires Sorted(s) && Partition(s, cut, bl, |s|) && |y| == |bl|
    requires b < k <= |bl| && cut[b] <= j < cut[b + 1] && j < |s|
    ensures Step(s, cut, y, k, s[j].p) == y[b]
    decreases k
  {
    if b == k - 1 {
      assert s[cut[b]].p <= s[j].p;
    } else {
      CutsIncrease(s, cut, bl, b + 1, k - 1);
      var c := cut[k - 1];
      assert BlockAt(s, cut, bl, k - 1);
      assert s[j].p <= s[c - 1].p < s[c].p;
      StepAtData(s, cut, bl, y, k - 1, b, j);
    }
  }

  lemma {:induction false} StepRises(s: seq<Pair>, cut: seq<nat>, y: seq<real>, k: nat, p: real, q: real)
    requires 0 < k <= |y| && |cut| == |y| + 1 && p <= q
    requires forall j :: 0 < j < |y| ==> y[j - 1] <= y[j]
    ensures Step(s, cut, y, k, p) <= Step(s, cut, y, k, q) <= y[k - 1]
    decreases k
  {
    if k > 1 { StepRises(s, cut, y, k - 1, p, q); }
  }

  lemma {:induction false} LossOfInsert(s: seq<Pair>, x: Pair, f: real -> real, g: real -> real)
    ensures Loss(Insert(s, x), f) == Loss(s, f) + Sq(x.y as real - f(x.p))
    ensures Gap(Insert(s, x), f, g) == Gap(s, f, g) + Sq(f(x.p) - g(x.p))
    decreases |s|
  {
    if s == [] || s[|s| - 1].p <= x.p {
      LossOfAppend(s, x, f, g);
    } else {
      var s0, z := s[..|s| - 1], s[|s| - 1];
      assert s == s0 + [z];
      LossOfInsert(s0, x, f, g);
      LossOfAppend(s0, z, f, g);
      LossOfAppend(Insert(s0, x), z, f, g);
    }
  }

  lemma LossOfAppend(s: seq<Pair>, x: Pair, f: real -> real, g: real -> real)
    ensures Loss(s + [x], f) == Loss(s, f) + Sq(x.y as real - f(x.p))
    ensures Gap(s + [x], f, g) == Gap(s, f, g) + Sq(f(x.p) - g(x.p))
  {
    LossPrefix(s, [x], |s|, f, g);
  }

  lemma {:induction false} LossPrefix(s: seq<Pair>, t: seq<Pair>, i: nat, f: real -> real, g: real -> real)
    requires i <= |s|
    ensures LossTo(s + t, i, f) == LossTo(s, i, f) && GapTo(s + t, i, f, g) == GapTo(s, i, f, g)
    decreases i
  {
    if i > 0 { LossPrefix(s, t, i - 1, f, g); }
  }

  // Sorting changes neither the loss nor the distance.
  lemma {:induction false} LossOfSort(d: seq<Pair>, f: real -> real, g: real -> real)
    ensures Loss(SortByP(d), f) == Loss(d, f) && Gap(SortByP(d), f, g) == Gap(d, f, g)
    decreases |d|
  {
    if d != [] {
      var d0, x := d[..|d| - 1], d[|d| - 1];
      assert d == d0 + [x];
      LossOfSort(d0, f, g);
      LossOfInsert(SortByP(d0), x, f, g);
      LossOfAppend(d0, x, f, g);
    }
  }

  ghost function StepOf(d: seq<Pair>, cut: seq<nat>, c: Knots): real -> real
    requires |c.y| > 0 && Pooled(SortByP(d), cut, c)
  {
    p => if |c.y| > 0 && Pooled(SortByP(d), cut, c) then Step(SortByP(d), cut, c.y, |c.y|, p) else 0.0
  }

  /** The fit is optimal and the only optimum: every other non-decreasing function loses to it by at
      least its squared distance from it on the labelled data. */
  lemma PavIsOptimal(d: seq<Pair>, cut: seq<nat>, c: Knots, f: real -> real)
    requires |c.y| > 0 && Pooled(SortByP(d), cut, c) && NonDecreasing(f)
    ensures NonDecreasing(StepOf(d, cut, c))
    ensures Loss(d, f) >= Loss(d, StepOf(d, cut, c)) + Gap(d, f, StepOf(d, cut, c))
  {
    var s := SortByP(d);
    var g := StepOf(d, cut, c);
    SortByPSorts(d);
    var bl: seq<Block> :| Partition(s, cut, bl, |s|) && Rising(bl, |bl|)
      && Reports(bl, c);
    forall p: real, q: real | p <= q ensures g(p) <= g(q) {
      StepRises(s, cut, c.y, |c.y|, p, q);
    }
    forall b: nat, j: nat | b < |bl| && cut[b] <= j < |s| && j < cut[b + 1] ensures g(s[j].p) == Mean(bl[b]) {
      StepAtData(s, cut, bl, c.y, |bl|, b, j);
    }
    PrefixOptimal(s, cut, bl, |bl|, f, g);
    LossOfSort(d, f, g);
    LossOfSort(d, g, g);
  }

  // ---------------------------------------------------------------- the fit keeps the sums

  // Each block's value times its number of labels, over the first k blocks.
  function Weighted(cut: seq<nat>, v: seq<real>, k: nat): real
    requires k <= |v| && |cut| == |v| + 1
  {
    if k == 0 then 0.0 else Weighted(cut, v, k - 1) + (cut[k] as real - cut[k - 1] as real) * v[k - 1]
  }

  lemma MeanTimes(w: real, s: real)
    requires w > 0.0
    ensures w * (s / w) == s
  {
  }

  lemma {:induction false} WeightedIs(s: seq<Pair>, cut: seq<nat>, bl: seq<Block>, c: Knots, k: nat)
    requires Partition(s, cut, bl, |s|) && Reports(bl, c) && k <= |bl|
    ensures cut[k] <= |s| && Weighted(cut, c.x, k) == SumX(s, cut[k]) && Weighted(cut, c.y, k) == SumY(s, cut[k])
  {
    if k > 0 {
      WeightedIs(s, cut, bl, c, k - 1);
      assert BlockAt(s, cut, bl, k - 1);
      MeanTimes(bl[k - 1].w, bl[k - 1].sumX);
      MeanTimes(bl[k - 1].w, bl[k - 1].sumY);
    }
  }

  lemma {:induction false} SumsOfInsert(s: seq<Pair>, x: Pair)
    ensures SumX(Insert(s, x), |s| + 1) == SumX(s, |s|) + x.p
    ensures SumY(Insert(s, x), |s| + 1) == SumY(s, |s|) + x.y as real
    decreases |s|
  {
    if s == [] || s[|s| - 1].p <= x.p {
      SumsOfPrefix(s, [x], |s|);
    } else {
      var n := |s| - 1;
      SumsOfInsert(s[..n], x);
      SumsOfPrefix(Insert(s[..n], x), [s[n]], |s|);
      SumsOfPrefix(s[..n], [s[n]], n);
      assert s == s[..n] + [s[n]];
    }
  }

  lemma {:induction false} SumsOfPrefix(s: seq<Pair>, t: seq<Pair>, i: nat)
    requires i <= |s|
    ensures SumX(s + t, i) == SumX(s, i) && SumY(s + t, i) == SumY(s, i)
  {
    if i > 0 { SumsOfPrefix(s, t, i - 1); }
  }

  lemma SumsOfTake(d: seq<Pair>, n: nat)
    requires n <= |d|
    ensures SumX(d[..n], n) == SumX(d, n) && SumY(d[..n], n) == SumY(d, n)
  {
    SumsOfPrefix(d[..n], d[n..], n);
    assert d == d[..n] + d[n..];
  }

  lemma {:induction false} SumsOfSort(d: seq<Pair>)
    ensures SumX(SortByP(d), |d|) == SumX(d, |d|) && SumY(SortByP(d), |d|) == SumY(d, |d|)
    decreases |d|
  {
    if d != [] {
      var n := |d| - 1;
      SumsOfSort(d[..n]);
      SumsOfInsert(SortByP(d[..n]), d[n]);
      SumsOfTake(d, n);
    }
  }

  /** Weighted by the size of their blocks, the centres add up to the confidences and the values to the labels. */
  lemma FitKeepsSums(d: seq<Pair>, cut: seq<nat>, c: Knots)
    requires Pooled(SortByP(d), cut, c)
    ensures |c.x| == |c.y| && |cut| == |c.x| + 1
    ensures Weighted(cut, c.x, |c.x|) == SumX(d, |d|) && Weighted(cut, c.y, |c.y|) == SumY(d, |d|)
  {
    var s := SortByP(d);
    var bl: seq<Block> :| Partition(s, cut, bl, |s|) && Rising(bl, |bl|) && Reports(bl, c);
    WeightedIs(s, cut, bl, c, |bl|);
    SumsOfSort(d);
  }
}
