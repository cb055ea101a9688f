/**
  The calibration numbers (internal/calibrate/stats.go): binned calibration errors, the Brier score and
  the Wilson interval. The square root is any function whose square is its argument.
*/
module Stats {
  import opened Isotonic
  import opened Numeric
  import opened Sums
  import opened Wrappers

  const BINS: nat := 10
  const MIN_LABELS: nat := 200
  const Z95: real := 1.959963984540054

  // ---------------------------------------------------------------- bins

  // Go truncates toward zero, and the ends are clamped.
  function Truncate(x: real): int { if x >= 0.0 then x.Floor else -((-x).Floor) }

  function BinOf(p: real): (b: nat)
    ensures b < BINS
  {
    var b := Truncate(p * 10.0);
    if b > BINS - 1 then BINS - 1 else if b < 0 then 0 else b
  }

  datatype Acc = Acc(cnt: nat, sumP: real, sumY: real)

  datatype Bin = Bin(lo: real, hi: real, n: nat, conf: real, accuracy: real)

  datatype Measurement =
    | Measured(n: nat, ece: real, mce: real, brier: real, bins: seq<Bin>)
    | Insufficient(n: nat)

  datatype What = One | P | Y | Error

  // What is added up over the pairs: their number, confidences, outcomes or squared errors.
  function Value(what: What, x: Pair): real {
    match what
    case One => 1.0
    case P => x.p
    case Y => x.y as real
    case Error => (x.p - x.y as real) * (x.p - x.y as real)
  }

  function InBin(pairs: seq<Pair>, b: int, what: What): int -> real {
    i => if 0 <= i < |pairs| && BinOf(pairs[i].p) == b then Value(what, pairs[i]) else 0.0
  }

  function Values(pairs: seq<Pair>, what: What): int -> real {
    i => if 0 <= i < |pairs| then Value(what, pairs[i]) else 0.0
  }

  function BinSum(pairs: seq<Pair>, b: int, what: What): real { SumTo(|pairs|, InBin(pairs, b, what)) }

  function Total(pairs: seq<Pair>, what: What): real { SumTo(|pairs|, Values(pairs, what)) }

  ghost predicate AccOf(acc: Acc, pairs: seq<Pair>, b: int, k: nat) {
    && acc.cnt as real == SumTo(k, InBin(pairs, b, One))
    && acc.sumP == SumTo(k, InBin(pairs, b, P))
    && acc.sumY == SumTo(k, InBin(pairs, b, Y))
  }

  ghost predicate AccsOf(accs: seq<Acc>, pairs: seq<Pair>, k: nat) {
    |accs| == BINS && forall b :: 0 <= b < BINS ==> AccOf(accs[b], pairs, b, k)
  }

  lemma AccsStep(accs: seq<Acc>, pairs: seq<Pair>, i: nat, b: nat)
    requires i < |pairs| && AccsOf(accs, pairs, i) && b == BinOf(pairs[i].p)
    ensures AccsOf(accs[b := Acc(accs[b].cnt + 1, accs[b].sumP + pairs[i].p, accs[b].sumY + pairs[i].y as real)],
      pairs, i + 1)
  {
    var a := Acc(accs[b].cnt + 1, accs[b].sumP + pairs[i].p, accs[b].sumY + pairs[i].y as real);
    var next := accs[b := a];
    forall c | 0 <= c < BINS ensures AccOf(next[c], pairs, c, i + 1) { assert AccOf(accs[c], pairs, c, i); }
  }

  method AddTo(bins: array<Acc>, pr: Pair, ghost pairs: seq<Pair>, ghost i: nat)
    requires bins.Length == BINS && i < |pairs| && pairs[i] == pr && AccsOf(bins[..], pairs, i)
    modifies bins
    ensures AccsOf(bins[..], pairs, i + 1)
  {
    var b := Truncate(pr.p * 10.0);
    if b > BINS - 1 { b := BINS - 1; }
    if b < 0 { b := 0; }
    AccsStep(bins[..], pairs, i, b);
    ghost var before := bins[..];
    bins[b] := Acc(bins[b].cnt + 1, bins[b].sumP + pr.p, bins[b].sumY + pr.y as real);
    assert bins[..] == before[b := bins[b]];
  }

  method Collect(pairs: seq<Pair>) returns (accs: seq<Acc>, squares: real)
    ensures AccsOf(accs, pairs, |pairs|) && squares == Total(pairs, Error)
  {
    var bins := new Acc[BINS](_ => Acc(0, 0.0, 0.0));
    squares := 0.0;
    for i := 0 to |pairs|
      invariant fresh(bins) && AccsOf(bins[..], pairs, i)
      invariant squares == SumTo(i, Values(pairs, Error))
    {
      var pr := pairs[i];
      AddTo(bins, pr, pairs, i);
      var d := pr.p - pr.y as real;
      squares := squares + d * d;
    }
    accs := bins[..];
  }

  // ---------------------------------------------------------------- the measurement

  function Gap(a: Acc): real { if a.cnt > 0 then Abs(a.sumY / a.cnt as real - a.sumP / a.cnt as real) else 0.0 }

  function Share(a: Acc, n: nat): real
    requires n > 0
  {
    a.cnt as real / n as real * Gap(a)
  }

  function Shares(accs: seq<Acc>, n: nat): int -> real
    requires n > 0
  {
    b => if 0 <= b < |accs| then Share(accs[b], n) else 0.0
  }

  ghost predicate RowOf(row: Bin, a: Acc, b: int) {
    && row.lo == b as real / 10.0 && row.hi == (b + 1) as real / 10.0 && row.n == a.cnt
    && (a.cnt > 0 ==> row.conf == a.sumP / a.cnt as real && row.accuracy == a.sumY / a.cnt as real)
    && (a.cnt == 0 ==> row.conf == 0.0 && row.accuracy == 0.0)
  }

  // ece is the weighted mean of the gaps, mce the largest.
  ghost predicate Summary(accs: seq<Acc>, n: nat, k: nat, ece: real, mce: real, rows: seq<Bin>)
    requires k <= |accs|
  {
    && (n > 0 ==> ece == SumTo(k, Shares(accs, n)))
    && 0.0 <= mce && (forall b :: 0 <= b < k ==> Gap(accs[b]) <= mce)
    && (mce == 0.0 || exists b :: 0 <= b < k && Gap(accs[b]) == mce)
    && |rows| == k && forall b :: 0 <= b < k ==> RowOf(rows[b], accs[b], b)
  }

  method RowFor(a: Acc, i: nat) returns (row: Bin)
    ensures RowOf(row, a, i)
    ensures a.cnt > 0 ==> Abs(row.accuracy - row.conf) == Gap(a)
  {
    row := Bin(i as real / 10.0, (i + 1) as real / 10.0, a.cnt, 0.0, 0.0);
    if a.cnt > 0 { row := row.(conf := a.sumP / a.cnt as real, accuracy := a.sumY / a.cnt as real); }
  }

  function EceTo(accs: seq<Acc>, n: nat, k: nat): real
    requires k <= |accs| && (n == 0 ==> forall b :: 0 <= b < |accs| ==> accs[b].cnt == 0)
  {
    if k == 0 then 0.0
    else EceTo(accs, n, k - 1) + if accs[k - 1].cnt > 0 then Share(accs[k - 1], n) else 0.0
  }

  function MceTo(accs: seq<Acc>, k: nat): real
    requires k <= |accs|
  {
    if k == 0 then 0.0
    else if accs[k - 1].cnt > 0 then Max(MceTo(accs, k - 1), Gap(accs[k - 1]))
    else MceTo(accs, k - 1)
  }

  lemma {:induction false} EceIsSum(accs: seq<Acc>, n: nat, k: nat)
    requires k <= |accs| && n > 0
    ensures EceTo(accs, n, k) == SumTo(k, Shares(accs, n))
  {
    if k > 0 {
      EceIsSum(accs, n, k - 1);
      assert accs[k - 1].cnt == 0 ==> Share(accs[k - 1], n) == 0.0;
    }
  }

  lemma {:induction false} MceIsLargest(accs: seq<Acc>, k: nat)
    requires k <= |accs|
    ensures 0.0 <= MceTo(accs, k) && forall b :: 0 <= b < k ==> Gap(accs[b]) <= MceTo(accs, k)
    ensures MceTo(accs, k) == 0.0 || exists b :: 0 <= b < k && Gap(accs[b]) == MceTo(accs, k)
  {
    if k > 0 { MceIsLargest(accs, k - 1); }
  }

  method Summarise(accs: seq<Acc>, n: nat) returns (ece: real, mce: real, rows: seq<Bin>)
    requires n == 0 ==> forall b :: 0 <= b < |accs| ==> accs[b].cnt == 0
    ensures Summary(accs, n, |accs|, ece, mce, rows)
  {
    ece, mce, rows := 0.0, 0.0, [];
    for i := 0 to |accs|
      invariant ece == EceTo(accs, n, i) && mce == MceTo(accs, i)
      invariant |rows| == i && forall b :: 0 <= b < i ==> RowOf(rows[b], accs[b], b)
    {
      var row := RowFor(accs[i], i);
      if accs[i].cnt > 0 {
        var gap := Abs(row.accuracy - row.conf);
        ece := ece + accs[i].cnt as real / n as real * gap;
        mce := Max(mce, gap);
      }
      rows := rows + [row];
    }
    if n > 0 { EceIsSum(accs, n, |accs|); }
    MceIsLargest(accs, |accs|);
  }

  method MetricsOf(pairs: seq<Pair>) returns (m: Measurement, ghost accs: seq<Acc>)
    ensures m.Measured? && m.n == |pairs| && AccsOf(accs, pairs, |pairs|)
    ensures Summary(accs, |pairs|, |accs|, m.ece, m.mce, m.bins)
    ensures m.brier == if |pairs| > 0 then Total(pairs, Error) / |pairs| as real else 0.0
  {
    var squares;
    var bins;
    bins, squares := Collect(pairs);
    accs := bins;
    if |pairs| == 0 {
      forall b | 0 <= b < BINS ensures bins[b].cnt == 0 { assert AccOf(bins[b], pairs, b, 0); }
    }
    var ece, mce, rows := Summarise(bins, |pairs|);
    m := Measured(|pairs|, ece, mce, if |pairs| > 0 then squares / |pairs| as real else 0.0, rows);
  }

  method Metrics(pairs: seq<Pair>) returns (m: Measurement, ghost accs: seq<Acc>)
    ensures |pairs| < MIN_LABELS ==> m == Insufficient(|pairs|)
    ensures |pairs| >= MIN_LABELS ==> m.Measured? && m.n == |pairs| && AccsOf(accs, pairs, |pairs|)
    ensures |pairs| >= MIN_LABELS ==> Summary(accs, |pairs|, |accs|, m.ece, m.mce, m.bins)
    ensures |pairs| >= MIN_LABELS ==> m.brier == Total(pairs, Error) / |pairs| as real
  {
    accs := [];
    if |pairs| < MIN_LABELS { return Insufficient(|pairs|), accs; }
    m, accs := MetricsOf(pairs);
  }

  // ---------------------------------------------------------------- the bins partition the pairs

  // Confidences in [0,1] and outcomes 0 or 1.
  ghost predicate Observed(pairs: seq<Pair>) {
    forall i :: 0 <= i < |pairs| ==> 0.0 <= pairs[i].p <= 1.0 && (pairs[i].y == 0 || pairs[i].y == 1)
  }

  function Cells(pairs: seq<Pair>, what: What): (int, int) -> real { (i, b) => InBin(pairs, b, what)(i) }

  lemma RowIsValue(pairs: seq<Pair>, what: What, i: nat)
    requires i < |pairs|
    ensures RowSums(Cells(pairs, what), BINS)(i) == Value(what, pairs[i])
  {
    var row := b => Cells(pairs, what)(i, b);
    RowIs(pairs, what, i, BINS, row);
    SumSame(0, BINS, row, b => Cells(pairs, what)(i, b));
  }

  lemma RowIs(pairs: seq<Pair>, what: What, i: nat, bins: nat, row: int -> real)
    requires i < |pairs| && bins == BINS && forall b :: 0 <= b < bins ==> row(b) == Cells(pairs, what)(i, b)
    ensures SumTo(bins, row) == Value(what, pairs[i])
  {
    var c := BinOf(pairs[i].p);
    forall b | 0 <= b < bins ensures row(b) == if b == c then Value(what, pairs[i]) else 0.0 {
      assert row(b) == InBin(pairs, b, what)(i);
    }
    SumSingle(bins, c, row);
  }

  function BinSums(pairs: seq<Pair>, what: What): int -> real { b => BinSum(pairs, b, what) }

  /** Every pair is in exactly one bin: the bins' counts, confidences and outcomes add up to the whole. */
  lemma BinsPartition(pairs: seq<Pair>, what: What)
    ensures SumTo(BINS, BinSums(pairs, what)) == Total(pairs, what)
  {
    var k := |pairs|;
    SumSwap(k, BINS, Cells(pairs, what));
    forall i | 0 <= i < k
      ensures RowSums(Cells(pairs, what), BINS)(i) == Values(pairs, what)(i) { RowIsValue(pairs, what, i); }
    SumSame(0, k, RowSums(Cells(pairs, what), BINS), Values(pairs, what));
    forall b | 0 <= b < BINS
      ensures BinSums(pairs, what)(b) == ColumnSums(Cells(pairs, what), k)(b) { ColumnIsBin(pairs, what, b); }
    SumSame(0, BINS, BinSums(pairs, what), ColumnSums(Cells(pairs, what), k));
  }

  lemma ColumnIsBin(pairs: seq<Pair>, what: What, b: int)
    ensures ColumnSums(Cells(pairs, what), |pairs|)(b) == BinSum(pairs, b, what)
  {
    var column := i => Cells(pairs, what)(i, b);
    forall i | 0 <= i < |pairs|
      ensures column(i) == InBin(pairs, b, what)(i) { assert column(i) == Cells(pairs, what)(i, b); }
    SumSame(0, |pairs|, column, InBin(pairs, b, what));
    SumSame(0, |pairs|, column, i => Cells(pairs, what)(i, b));
  }

  // ---------------------------------------------------------------- the order of the numbers

  lemma {:induction false} SumDistance(k: nat, f: int -> real, g: int -> real, h: int -> real)
    requires forall i :: 0 <= i < k ==> Abs(f(i) - g(i)) <= h(i)
    ensures Abs(SumTo(k, f) - SumTo(k, g)) <= SumTo(k, h)
  {
    if k > 0 { SumDistance(k - 1, f, g, h); }
  }

  // A bin's share is the distance of its sums over n.
  lemma ShareIs(a: Acc, n: nat)
    requires n > 0 && (a.cnt == 0 ==> a.sumP == 0.0 && a.sumY == 0.0)
    ensures Share(a, n) == Abs(a.sumY - a.sumP) / n as real
  {
    if a.cnt > 0 { ShareArithmetic(a.cnt as real, a.sumY, a.sumP, n as real); }
  }

  lemma ShareArithmetic(c: real, y: real, p: real, n: real)
    requires c > 0.0 && n > 0.0
    ensures c / n * Abs(y / c - p / c) == Abs(y - p) / n
  {
    assert y / c - p / c == (y - p) / c;
    var q := (y - p) / c;
    assert q * c == y - p;
    assert Abs(q) * c == Abs(y - p);
    assert c / n * Abs(q) == (Abs(q) * c) / n;
  }

  // An empty bin has no sums, and a full one has sums between 0 and its count.
  lemma AccRange(pairs: seq<Pair>, b: int, k: nat, a: Acc)
    requires k <= |pairs| && Observed(pairs) && AccOf(a, pairs, b, k)
    ensures 0.0 <= a.sumP <= a.cnt as real && 0.0 <= a.sumY <= a.cnt as real
  {
    SumConstant(k, 0.0, i => 0.0);
    SumAtMost(k, i => 0.0, InBin(pairs, b, P));
    SumAtMost(k, i => 0.0, InBin(pairs, b, Y));
    SumAtMost(k, InBin(pairs, b, P), InBin(pairs, b, One));
    SumAtMost(k, InBin(pairs, b, Y), InBin(pairs, b, One));
  }

  lemma GapRange(a: Acc)
    requires 0.0 <= a.sumP <= a.cnt as real && 0.0 <= a.sumY <= a.cnt as real
    ensures 0.0 <= Gap(a) <= 1.0
  {
    if a.cnt > 0 {
      UnitQuotient(a.sumY, a.cnt as real);
      UnitQuotient(a.sumP, a.cnt as real);
    }
  }

  function CountOf(accs: seq<Acc>): int -> real { b => if 0 <= b < |accs| then accs[b].cnt as real else 0.0 }

  function POf(accs: seq<Acc>): int -> real { b => if 0 <= b < |accs| then accs[b].sumP else 0.0 }

  function YOf(accs: seq<Acc>): int -> real { b => if 0 <= b < |accs| then accs[b].sumY else 0.0 }

  lemma TotalsOf(pairs: seq<Pair>, accs: seq<Acc>)
    requires AccsOf(accs, pairs, |pairs|)
    ensures SumTo(|accs|, CountOf(accs)) == |pairs| as real
    ensures SumTo(|accs|, POf(accs)) == Total(pairs, P)
    ensures SumTo(|accs|, YOf(accs)) == Total(pairs, Y)
  {
    forall b | 0 <= b < BINS
      ensures CountOf(accs)(b) == BinSums(pairs, One)(b) { assert AccOf(accs[b], pairs, b, |pairs|); }
    SumIsTotal(|accs|, pairs, One, CountOf(accs));
    forall b | 0 <= b < BINS ensures POf(accs)(b) == BinSums(pairs, P)(b) { assert AccOf(accs[b], pairs, b, |pairs|); }
    SumIsTotal(|accs|, pairs, P, POf(accs));
    forall b | 0 <= b < BINS ensures YOf(accs)(b) == BinSums(pairs, Y)(b) { assert AccOf(accs[b], pairs, b, |pairs|); }
    SumIsTotal(|accs|, pairs, Y, YOf(accs));
    SumConstant(|pairs|, 1.0, Values(pairs, One));
  }

  lemma SumIsTotal(bins: nat, pairs: seq<Pair>, what: What, f: int -> real)
    requires bins == BINS && forall b :: 0 <= b < bins ==> f(b) == BinSums(pairs, what)(b)
    ensures SumTo(bins, f) == Total(pairs, what)
  {
    SumSame(0, bins, f, BinSums(pairs, what));
    BinsPartition(pairs, what);
  }

  /** The overall distance of accuracy from confidence is at most the ECE, that at most the MCE, and that
      at most one. */
  lemma ErrorsOrdered(pairs: seq<Pair>, accs: seq<Acc>, ece: real, mce: real, rows: seq<Bin>)
    requires Observed(pairs) && |pairs| > 0 && AccsOf(accs, pairs, |pairs|)
    requires Summary(accs, |pairs|, |accs|, ece, mce, rows)
    ensures Abs(Total(pairs, Y) / |pairs| as real - Total(pairs, P) / |pairs| as real) <= ece <= mce <= 1.0
  {
    OverallAtMostEce(pairs, accs);
    EceAtMostMce(pairs, accs, ece, mce, rows);
  }

  lemma OverallAtMostEce(pairs: seq<Pair>, accs: seq<Acc>)
    requires Observed(pairs) && |pairs| > 0 && AccsOf(accs, pairs, |pairs|)
    ensures Abs(Total(pairs, Y) / |pairs| as real - Total(pairs, P) / |pairs| as real) <=
      SumTo(|accs|, Shares(accs, |pairs|))
  {
    TotalsOf(pairs, accs);
    AllRanged(pairs, accs);
    DistanceAtMostEce(accs, |pairs|, Total(pairs, Y), Total(pairs, P));
  }

  lemma DistanceAtMostEce(accs: seq<Acc>, n: nat, y: real, p: real)
    requires n > 0 && forall b :: 0 <= b < |accs| ==> Ranged(accs[b])
    requires y == SumTo(|accs|, YOf(accs)) && p == SumTo(|accs|, POf(accs))
    ensures Abs(y / n as real - p / n as real) <= SumTo(|accs|, Shares(accs, n))
  {
    AtMostEce(accs, n);
    OverN(y, p, SumTo(|accs|, Distance(accs)), n as real);
  }

  lemma EceAtMostMce(pairs: seq<Pair>, accs: seq<Acc>, ece: real, mce: real, rows: seq<Bin>)
    requires Observed(pairs) && |pairs| > 0 && AccsOf(accs, pairs, |pairs|)
    requires Summary(accs, |pairs|, |accs|, ece, mce, rows)
    ensures SumTo(|accs|, Shares(accs, |pairs|)) <= mce <= 1.0
  {
    TotalsOf(pairs, accs);
    AllRanged(pairs, accs);
    MceAtMostOne(accs, |pairs|, ece, mce, rows);
    AtMostMce(accs, |pairs|, mce);
  }

  lemma AllRanged(pairs: seq<Pair>, accs: seq<Acc>)
    requires Observed(pairs) && AccsOf(accs, pairs, |pairs|)
    ensures forall b :: 0 <= b < |accs| ==> Ranged(accs[b])
  {
    forall b | 0 <= b < |accs| ensures Ranged(accs[b]) {
      AccRange(pairs, b, |pairs|, accs[b]);
      GapRange(accs[b]);
    }
  }

  lemma MceAtMostOne(accs: seq<Acc>, n: nat, ece: real, mce: real, rows: seq<Bin>)
    requires Summary(accs, n, |accs|, ece, mce, rows) && forall b :: 0 <= b < |accs| ==> Ranged(accs[b])
    ensures 0.0 <= mce <= 1.0 && forall b :: 0 <= b < |accs| ==> Gap(accs[b]) <= mce
  {
    if mce != 0.0 {
      var b :| 0 <= b < |accs| && Gap(accs[b]) == mce;
      assert Ranged(accs[b]);
    }
  }

  ghost predicate Ranged(a: Acc) { (a.cnt == 0 ==> a.sumP == 0.0 && a.sumY == 0.0) && 0.0 <= Gap(a) <= 1.0 }

  lemma AtMostEce(accs: seq<Acc>, n: nat)
    requires n > 0 && forall b :: 0 <= b < |accs| ==> Ranged(accs[b])
    ensures Abs(SumTo(|accs|, YOf(accs)) - SumTo(|accs|, POf(accs))) <= SumTo(|accs|, Distance(accs))
    ensures SumTo(|accs|, Shares(accs, n)) == SumTo(|accs|, Distance(accs)) / n as real
  {
    SumDistance(|accs|, YOf(accs), POf(accs), Distance(accs));
    forall b | 0 <= b < |accs| ensures Shares(accs, n)(b) == Distance(accs)(b) / n as real {
      assert Ranged(accs[b]);
      ShareIs(accs[b], n);
    }
    SumOver(|accs|, n as real, Distance(accs), Shares(accs, n));
  }

  lemma AtMostMce(accs: seq<Acc>, n: nat, mce: real)
    requires n > 0 && forall b :: 0 <= b < |accs| ==> Gap(accs[b]) <= mce
    requires SumTo(|accs|, CountOf(accs)) == n as real
    ensures SumTo(|accs|, Shares(accs, n)) <= mce
  {
    var w := mce / n as real;
    forall b | 0 <= b < |accs| ensures Shares(accs, n)(b) <= Weighted(accs, w)(b) {
      ShareBelow(accs[b].cnt as real, n as real, Gap(accs[b]), mce, w);
    }
    AtMostWeighted(accs, n, mce, w);
  }

  lemma AtMostWeighted(accs: seq<Acc>, n: nat, mce: real, w: real)
    requires n > 0 && w * n as real == mce
    requires forall b :: 0 <= b < |accs| ==> Shares(accs, n)(b) <= Weighted(accs, w)(b)
    requires SumTo(|accs|, CountOf(accs)) == n as real
    ensures SumTo(|accs|, Shares(accs, n)) <= mce
  {
    SumAtMost(|accs|, Shares(accs, n), Weighted(accs, w));
    SumTimes(|accs|, w, CountOf(accs), Weighted(accs, w));
    SameProduct(w, SumTo(|accs|, CountOf(accs)), n as real);
  }

  lemma SameProduct(w: real, x: real, y: real)
    requires x == y
    ensures w * x == w * y
  {
  }

  function Distance(accs: seq<Acc>): int -> real {
    b => if 0 <= b < |accs| then Abs(accs[b].sumY - accs[b].sumP) else 0.0
  }

  function Weighted(accs: seq<Acc>, c: real): int -> real { b => c * CountOf(accs)(b) }

  lemma ShareBelow(c: real, n: real, gap: real, mce: real, w: real)
    requires c >= 0.0 && n > 0.0 && gap <= mce && w == mce / n
    ensures c / n * gap <= w * c
  {
    NonNegativeQuotient(c, n);
    Product(c / n, mce - gap);
    assert c / n * gap <= c / n * mce;
    assert c / n * mce == w * c;
  }

  lemma OverN(y: real, p: real, d: real, n: real)
    requires n > 0.0 && Abs(y - p) <= d
    ensures Abs(y / n - p / n) <= d / n
  {
    var q, e := (y - p) / n, d / n;
    assert q * n == y - p && e * n == d;
    assert y / n - p / n == q;
    CancelRight(q, e, n);
    CancelRight(-q, e, n);
  }

  /** The Brier score lies in [0,1]. */
  lemma BrierRange(pairs: seq<Pair>)
    requires Observed(pairs) && |pairs| > 0
    ensures 0.0 <= Total(pairs, Error) / |pairs| as real <= 1.0
  {
    var n := |pairs|;
    forall i | 0 <= i < n
      ensures 0.0 <= Values(pairs, Error)(i) <= 1.0 { SquareInUnit(pairs[i].p - pairs[i].y as real); }
    SumConstant(n, 0.0, i => 0.0);
    SumConstant(n, 1.0, i => 1.0);
    SumAtMost(n, i => 0.0, Values(pairs, Error));
    SumAtMost(n, Values(pairs, Error), i => 1.0);
    UnitQuotient(Total(pairs, Error), n as real);
  }

  // The confidence as it is.
  function Confidence(p: real): real { p }

  lemma {:induction false} ErrorIsLoss(pairs: seq<Pair>, k: nat)
    requires k <= |pairs|
    ensures SumTo(k, Values(pairs, Error)) == LossTo(pairs, k, Confidence)
  {
    if k > 0 {
      ErrorIsLoss(pairs, k - 1);
      SwappedSquare(pairs[k - 1].p, pairs[k - 1].y as real);
    }
  }

  lemma SwappedSquare(p: real, y: real)
    ensures (p - y) * (p - y) == Sq(y - p)
  {
  }

  /** The Brier score averages the squared loss that the isotonic fit minimises, for the confidences as they are. */
  lemma BrierIsLoss(pairs: seq<Pair>)
    ensures Total(pairs, Error) == Loss(pairs, Confidence)
  {
    ErrorIsLoss(pairs, |pairs|);
  }

  lemma SquareInUnit(x: real)
    requires -1.0 <= x <= 1.0
    ensures 0.0 <= x * x <= 1.0
  {
    SquareNonNegative(x);
    Product(1.0 - x, 1.0 + x);
    assert (1.0 - x) * (1.0 + x) == 1.0 - x * x;
  }

  /** A confidence in [0,1] falls in the bin whose edges enclose it. */
  lemma BinEncloses(p: real)
    requires 0.0 <= p <= 1.0
    ensures BinOf(p) as real / 10.0 <= p <= (BinOf(p) + 1) as real / 10.0
    ensures p < (BinOf(p) + 1) as real / 10.0 || BinOf(p) == BINS - 1
  {
  }

  /** So a non-empty row's mean confidence lies between its edges. */
  lemma RowBetweenEdges(pairs: seq<Pair>, b: nat, a: Acc, row: Bin)
    requires Observed(pairs) && b < BINS && AccOf(a, pairs, b, |pairs|) && a.cnt > 0 && RowOf(row, a, b)
    ensures row.lo <= row.conf <= row.hi
  {
    AllBetweenEdges(pairs, b, row.lo, row.hi);
    EdgesTimesCount(row.lo, row.hi, |pairs|, InBin(pairs, b, One), InBin(pairs, b, P));
    QuotientBetween(a.sumP, a.cnt as real, row.lo, row.hi);
  }

  // ps(i) lies between the edges, ones(i) times.
  ghost predicate Enclosed(lo: real, hi: real, ones: int -> real, ps: int -> real, i: int) {
    lo * ones(i) <= ps(i) <= hi * ones(i)
  }

  lemma {:induction false} EdgesTimesCount(lo: real, hi: real, k: nat, ones: int -> real, ps: int -> real)
    requires forall i :: 0 <= i < k ==> Enclosed(lo, hi, ones, ps, i)
    ensures lo * SumTo(k, ones) <= SumTo(k, ps) <= hi * SumTo(k, ones)
  {
    if k > 0 {
      EdgesTimesCount(lo, hi, k - 1, ones, ps);
      assert Enclosed(lo, hi, ones, ps, k - 1);
      AddEdges(lo, hi, SumTo(k - 1, ones), ones(k - 1), SumTo(k - 1, ps), ps(k - 1), SumTo(k, ones), SumTo(k, ps));
    }
  }

  lemma AddEdges(lo: real, hi: real, s: real, x: real, t: real, y: real, s': real, t': real)
    requires lo * s <= t <= hi * s && lo * x <= y <= hi * x && s' == s + x && t' == t + y
    ensures lo * s' <= t' <= hi * s'
  {
  }

  lemma AllBetweenEdges(pairs: seq<Pair>, b: nat, lo: real, hi: real)
    requires Observed(pairs) && lo == b as real / 10.0 && hi == (b + 1) as real / 10.0
    ensures forall i :: 0 <= i < |pairs| ==> Enclosed(lo, hi, InBin(pairs, b, One), InBin(pairs, b, P), i)
  {
    forall i | 0 <= i < |pairs| ensures Enclosed(lo, hi, InBin(pairs, b, One), InBin(pairs, b, P), i) {
      BinEncloses(pairs[i].p);
      var one := InBin(pairs, b, One)(i);
      assert one == if BinOf(pairs[i].p) == b then 1.0 else 0.0;
      assert lo * one == if BinOf(pairs[i].p) == b then lo else 0.0;
      assert hi * one == if BinOf(pairs[i].p) == b then hi else 0.0;
    }
  }

  // ---------------------------------------------------------------- the Wilson interval

  ghost predicate Root(sqrt: real -> real, x: real) { x >= 0.0 ==> sqrt(x) >= 0.0 && sqrt(x) * sqrt(x) == x }

  ghost predicate SquareRoot(sqrt: real -> real) { forall x :: Root(sqrt, x) }

  // Within z standard errors of the observed share: the score test does not reject q.
  predicate Plausible(p: real, q: real, z: real, n: real)
    requires n > 0.0
  {
    (p - q) * (p - q) <= z * z * (q * (1.0 - q)) / n
  }

  function Denominator(z: real, n: real): real
    requires n > 0.0
  {
    1.0 + z * z / n
  }

  lemma DenominatorPositive(z: real, n: real)
    requires n > 0.0
    ensures Denominator(z, n) >= 1.0
  {
    assert z * z >= 0.0;
  }

  // The source's centre and half width before the clamps.
  function Centre(p: real, z: real, n: real): real
    requires n > 0.0 && Denominator(z, n) > 0.0
  {
    (p + z * z / (2.0 * n)) / Denominator(z, n)
  }

  function Radicand(p: real, z: real, n: real): real
    requires n > 0.0
  {
    p * (1.0 - p) / n + z * z / (4.0 * n * n)
  }

  function Half(sqrt: real -> real, p: real, z: real, n: real): real
    requires n > 0.0 && Denominator(z, n) > 0.0
  {
    z * sqrt(Radicand(p, z, n)) / Denominator(z, n)
  }

  method Interval(p: real, z: real, nf: real, sqrt: real -> real) returns (lo: real, hi: real)
    requires nf > 0.0
    ensures Denominator(z, nf) >= 1.0
    ensures lo == Max(0.0, Centre(p, z, nf) - Half(sqrt, p, z, nf))
      && hi == Min(1.0, Centre(p, z, nf) + Half(sqrt, p, z, nf))
  {
    DenominatorPositive(z, nf);
    var denom := 1.0 + z * z / nf;
    var centre := (p + z * z / (2.0 * nf)) / denom;
    var half := z * sqrt(p * (1.0 - p) / nf + z * z / (4.0 * nf * nf)) / denom;
    assert centre == Centre(p, z, nf) && half == Half(sqrt, p, z, nf);
    return Max(0.0, centre - half), Min(1.0, centre + half);
  }

  method Wilson(k: nat, n: int, sqrt: real -> real) returns (lo: real, hi: real)
    ensures n <= 0 ==> lo == 0.0 && hi == 1.0
    ensures n > 0 ==> Denominator(Z95, n as real) >= 1.0
    ensures n > 0 ==>
      lo == Max(0.0, Centre(k as real / n as real, Z95, n as real) - Half(sqrt, k as real / n as real, Z95, n as real))
    ensures n > 0 ==>
      hi == Min(1.0, Centre(k as real / n as real, Z95, n as real) + Half(sqrt, k as real / n as real, Z95, n as real))
  {
    if n <= 0 { return 0.0, 1.0; }
    lo, hi := Interval(k as real / n as real, Z95, n as real, sqrt);
  }

  // With d*c == p + u and (d*h)^2 == (p + u)^2 - p^2*d, completing the square.
  lemma CompleteSquare(p: real, q: real, d: real, c: real, h: real, u: real)
    requires d == 1.0 + 2.0 * u && d >= 1.0 && d * c == p + u
    requires (d * h) * (d * h) == (p + u) * (p + u) - p * p * d
    ensures d * ((q - c) * (q - c) - h * h) == (p - q) * (p - q) - 2.0 * u * (q * (1.0 - q))
  {
    assert d * (d * ((q - c) * (q - c) - h * h)) == (d * q - d * c) * (d * q - d * c) - (d * h) * (d * h);
    assert (d * q - (p + u)) * (d * q - (p + u)) == d * q * (d * q) - 2.0 * (d * q) * (p + u) + (p + u) * (p + u);
    var l, r := d * ((q - c) * (q - c) - h * h), d * q * q - 2.0 * q * (p + u) + p * p;
    assert l * d == r * d;
    CancelRight(l, r, d);
    CancelRight(r, l, d);
    assert r == (p - q) * (p - q) - 2.0 * u * (q * (1.0 - q));
  }

  lemma HalfSquared(sqrt: real -> real, p: real, z: real, n: real, d: real, h: real, u: real)
    requires n > 0.0 && SquareRoot(sqrt) && 0.0 <= p <= 1.0 && z >= 0.0
    requires d == Denominator(z, n) && d >= 1.0 && h == Half(sqrt, p, z, n) && u == z * z / (2.0 * n)
    ensures d == 1.0 + 2.0 * u && h >= 0.0
    ensures (d * h) * (d * h) == (p + u) * (p + u) - p * p * d
  {
    var r := Radicand(p, z, n);
    RadicandParts(p, z, n, u);
    assert Root(sqrt, r);
    var s := sqrt(r);
    assert d * h == z * s;
    assert (z * s) * (z * s) == z * z * r;
    ExpandRadicand(p, z, n, u, r);
  }

  lemma RadicandParts(p: real, z: real, n: real, u: real)
    requires n > 0.0 && 0.0 <= p <= 1.0 && u == z * z / (2.0 * n)
    ensures Radicand(p, z, n) >= 0.0 && z * z == 2.0 * n * u && z * z / n == 2.0 * u && u >= 0.0
    ensures Radicand(p, z, n) == p * (1.0 - p) / n + u / (2.0 * n)
  {
    var zz := z * z;
    SquareNonNegative(z);
    Product(p, 1.0 - p);
    QuarterIs(zz, n, u);
    assert 4.0 * n * n == 4.0 * (n * n);
  }

  lemma QuarterIs(zz: real, n: real, u: real)
    requires n > 0.0 && u == zz / (2.0 * n) && zz >= 0.0
    ensures zz == 2.0 * n * u && zz / n == 2.0 * u && u >= 0.0 && zz / (4.0 * n * n) == u / (2.0 * n)
  {
    assert u * (2.0 * n) == zz;
    Quotient(zz, 2.0 * u, n);
    var q := u / (2.0 * n);
    assert q * (2.0 * n) == u;
    var d := 4.0 * n * n;
    Regroup(q, n, u, zz, d);
    Quotient(zz, q, d);
  }

  lemma DoubleSquared(n: real, m: real)
    requires m == 2.0 * n
    ensures m * m == 4.0 * n * n
  {
    assert m * m == 2.0 * n * m;
  }

  lemma Associate(q: real, m: real, u: real, zz: real, d: real)
    requires q * m == u && u * m == zz && d == m * m
    ensures q * d == zz
  {
    assert q * (m * m) == q * m * m;
  }

  lemma Regroup(q: real, n: real, u: real, zz: real, d: real)
    requires n > 0.0 && q * (2.0 * n) == u && u * (2.0 * n) == zz && d == 4.0 * n * n
    ensures d > 0.0 && q * d == zz
  {
    var m := 2.0 * n;
    DoubleSquared(n, m);
    PositiveIs(m, d);
    Associate(q, m, u, zz, d);
  }

  lemma Quotient(x: real, q: real, d: real)
    requires d > 0.0 && q * d == x
    ensures x / d == q
  {
  }

  lemma ExpandRadicand(p: real, z: real, n: real, u: real, r: real)
    requires n > 0.0 && z * z == 2.0 * n * u && r == p * (1.0 - p) / n + u / (2.0 * n)
    ensures z * z * r == (p + u) * (p + u) - p * p * (1.0 + 2.0 * u)
  {
    assert n * r == p * (1.0 - p) + u / 2.0;
    assert z * z * r == 2.0 * u * (n * r);
  }

  lemma WithinHalf(x: real, h: real)
    requires h >= 0.0
    ensures x * x <= h * h <==> -h <= x <= h
  {
    assert (h - x) * (h + x) == h * h - x * x;
    if -h <= x <= h {
      Product(h - x, h + x);
    } else if x > h {
      Beyond(x, h);
    } else {
      Beyond(-x, h);
      assert -x * -x == x * x;
    }
  }

  lemma Beyond(x: real, h: real)
    requires x > h >= 0.0
    ensures x * x > h * h
  {
    Positive(x - h, x + h);
    assert (x - h) * (x + h) == x * x - h * h;
  }

  /** The interval is exactly the set of shares the score test does not reject. */
  lemma WilsonExact(sqrt: real -> real, p: real, q: real, z: real, n: real)
    requires n > 0.0 && SquareRoot(sqrt) && 0.0 <= p <= 1.0 && z >= 0.0
    ensures Denominator(z, n) >= 1.0
    ensures var c, h := Centre(p, z, n), Half(sqrt, p, z, n);
      (c - h <= q <= c + h <==> Plausible(p, q, z, n)) && h >= 0.0
  {
    DenominatorPositive(z, n);
    var d, c, h, u := Denominator(z, n), Centre(p, z, n), Half(sqrt, p, z, n), z * z / (2.0 * n);
    HalfSquared(sqrt, p, z, n, d, h, u);
    RadicandParts(p, z, n, u);
    assert d * c == p + u;
    CompleteSquare(p, q, d, c, h, u);
    assert z * z * (q * (1.0 - q)) / n == 2.0 * u * (q * (1.0 - q));
    WithinHalf(q - c, h);
    Sign(d, (q - c) * (q - c) - h * h);
  }

  lemma Sign(d: real, x: real)
    requires d > 0.0
    ensures d * x <= 0.0 <==> x <= 0.0
  {
  }

  /** So for every observed share, before any clamp, it contains that share and lies within [0,1]. */
  lemma WilsonContains(sqrt: real -> real, p: real, z: real, n: real)
    requires n > 0.0 && SquareRoot(sqrt) && 0.0 <= p <= 1.0 && z > 0.0
    ensures Denominator(z, n) >= 1.0
    ensures 0.0 <= Centre(p, z, n) - Half(sqrt, p, z, n) <= p <= Centre(p, z, n) + Half(sqrt, p, z, n) <= 1.0
  {
    DenominatorPositive(z, n);
    var c, h := Centre(p, z, n), Half(sqrt, p, z, n);
    SharePlausible(p, z, n);
    WilsonExact(sqrt, p, p, z, n);
    WilsonExact(sqrt, p, c - h, z, n);
    WilsonExact(sqrt, p, c + h, z, n);
    PlausibleInUnit(p, c - h, z, n);
    PlausibleInUnit(p, c + h, z, n);
  }

  lemma SharePlausible(p: real, z: real, n: real)
    requires n > 0.0 && 0.0 <= p <= 1.0
    ensures Plausible(p, p, z, n)
  {
    Product(p, 1.0 - p);
    SquareNonNegative(z);
    Product(z * z, p * (1.0 - p));
  }

  lemma PlausibleInUnit(p: real, q: real, z: real, n: real)
    requires n > 0.0 && z > 0.0 && Plausible(p, q, z, n)
    ensures 0.0 <= q <= 1.0
  {
    var zz, v := z * z, q * (1.0 - q);
    var w, distance := zz * v, (p - q) * (p - q);
    SquareNonNegative(p - q);
    PositiveIs(z, zz);
    UnitFrom(zz, q, n, v, w, distance);
  }

  lemma UnitFrom(zz: real, q: real, n: real, v: real, w: real, distance: real)
    requires n > 0.0 && zz > 0.0 && v == q * (1.0 - q) && w == zz * v && 0.0 <= distance <= w / n
    ensures 0.0 <= q <= 1.0
  {
    assert (w / n) * n == w;
    Product(w / n, n);
    Sign(zz, -v);
    assert zz * -v == -w;
    assert v >= 0.0;
    assert q < 0.0 ==> (-q) * (1.0 - q) > 0.0;
    assert q > 1.0 ==> q * (q - 1.0) > 0.0;
  }
}
