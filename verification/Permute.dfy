module Permute
  /**
    Order-permuted asking (internal/client/permute.go, probe.go): the answers of the rotated calls are
    averaged per option, and the probe separates content from listing position. The calls' JSON is parsed
    already; option keys are distinct and not empty, as the request rules require.
  */
{
  import opened Answer
  import opened Numeric
  import opened Rotations
  import opened Sums
  import opened Wrappers

  type Key = string

  const FLIP_TOLERANCE: real := 0.000000002

  // What one call answered for a question: upper bounds for the options it did not list.
  datatype RunAnswer = RunAnswer(choice: Key, probabilities: map<Key, real>, bounds: map<Key, real>)

  datatype Merged = Merged(averages: map<Key, real>, best: Key, flips: nat, confidence: real)

  ghost predicate Distinct(order: seq<Key>) { forall i, j :: 0 <= i < j < |order| ==> order[i] != order[j] }

  ghost predicate Options(order: seq<Key>) { |order| >= 2 && Distinct(order) && "" !in order }

  ghost predicate WellFormed(order: seq<Key>, a: RunAnswer) {
    |a.probabilities| == |order| && forall j :: 0 <= j < |order| ==> order[j] in a.probabilities
  }

  ghost predicate AllWellFormed(order: seq<Key>, rs: seq<RunAnswer>) {
    forall i :: 0 <= i < |rs| ==> WellFormed(order, rs[i])
  }

  // Go's zero value for a missing key.
  function Get(m: map<Key, real>, k: Key): real { if k in m then m[k] else 0.0 }

  function Prob(rs: seq<RunAnswer>, k: Key): int -> real {
    i => if 0 <= i < |rs| then Get(rs[i].probabilities, k) else 0.0
  }

  function Average(rs: seq<RunAnswer>, k: Key): real
    requires |rs| > 0
  {
    SumTo(|rs|, Prob(rs, k)) / |rs| as real
  }

  function Bounded(rs: seq<RunAnswer>, k: Key): int -> bool { i => 0 <= i < |rs| && k in rs[i].bounds }

  // Some averaged call listed the option.
  ghost predicate Measured(rs: seq<RunAnswer>, k: Key) { exists i :: 0 <= i < |rs| && k !in rs[i].bounds }

  // How many of the calls are averaged: whole cycles, or the part of one there is.
  function Used(runs: nat, n: nat): nat
    requires n > 0
  {
    if runs >= n then runs / n * n else runs
  }

  // ---------------------------------------------------------------- the averaged answer

  lemma AverageStep(total: real, p: real, used: nat)
    requires used > 0
    ensures total / used as real + p / used as real == (total + p) / used as real
  {
  }

  method AverageRuns(order: seq<Key>, rs: seq<RunAnswer>) returns (r: Option<map<Key, real>>)
    requires Options(order) && |rs| > 0
    ensures r.Some? <==> AllWellFormed(order, rs)
    ensures r.Some? ==> forall j :: 0 <= j < |order| ==> Get(r.value, order[j]) == Average(rs, order[j])
  {
    var avg: map<Key, real> := map[];
    var used := |rs|;
    for i := 0 to used
      invariant AllWellFormed(order, rs[..i])
      invariant forall t :: 0 <= t < |order| ==> Get(avg, order[t]) == SumTo(i, Prob(rs, order[t])) / used as real
    {
      if |rs[i].probabilities| != |order| { return None; }
      for j := 0 to |order|
        invariant forall t :: 0 <= t < j ==> order[t] in rs[i].probabilities
        invariant forall t :: 0 <= t < |order| ==>
          Get(avg, order[t]) == SumTo(if t < j then i + 1 else i, Prob(rs, order[t])) / used as real
      {
        if order[j] !in rs[i].probabilities { return None; }
        var p := rs[i].probabilities[order[j]];
        AverageStep(SumTo(i, Prob(rs, order[j])), p, used);
        avg := avg[order[j] := Get(avg, order[j]) + p / used as real];
      }
    }
    assert rs[..used] == rs;
    r := Some(avg);
  }

  method AlwaysBounded(rs: seq<RunAnswer>, k: Key) returns (b: bool)
    ensures b <==> !Measured(rs, k)
  {
    var boundedRuns := 0;
    for i := 0 to |rs|
      invariant boundedRuns <= i
      invariant boundedRuns == i <==> forall t :: 0 <= t < i ==> k in rs[t].bounds
    {
      if k in rs[i].bounds { boundedRuns := boundedRuns + 1; }
    }
    b := boundedRuns == |rs|;
  }

  // The first of the best-averaged options some call measured; the first option when there is none.
  ghost predicate BestOption(order: seq<Key>, rs: seq<RunAnswer>, avg: Key -> real, best: Key)
    requires |order| > 0
  {
    if exists j :: 0 <= j < |order| && Measured(rs, order[j]) then
      exists w :: 0 <= w < |order| && order[w] == best && Measured(rs, best)
        && (forall j :: 0 <= j < |order| && Measured(rs, order[j]) ==> avg(order[j]) <= avg(best))
        && (forall j :: 0 <= j < w && Measured(rs, order[j]) ==> avg(order[j]) < avg(best))
    else best == order[0]
  }

  function Averages(rs: seq<RunAnswer>): Key -> real
    requires |rs| > 0
  {
    k => Average(rs, k)
  }

  method PickBest(order: seq<Key>, rs: seq<RunAnswer>, avg: map<Key, real>) returns (best: Key)
    requires Options(order) && |rs| > 0
    requires forall j :: 0 <= j < |order| ==> Get(avg, order[j]) == Average(rs, order[j])
    ensures BestOption(order, rs, Averages(rs), best) && best in order
  {
    best := "";
    var w := -1;
    for j := 0 to |order|
      invariant best == "" <==> w == -1
      invariant w == -1 ==> forall t :: 0 <= t < j ==> !Measured(rs, order[t])
      invariant w != -1 ==> 0 <= w < j && order[w] == best && Measured(rs, best)
      invariant w != -1 ==> forall t :: 0 <= t < j && Measured(rs, order[t]) ==>
        Average(rs, order[t]) <= Average(rs, best) && (t < w ==> Average(rs, order[t]) < Average(rs, best))
    {
      var never := AlwaysBounded(rs, order[j]);
      if !never && (best == "" || Get(avg, order[j]) > Get(avg, best)) {
        assert order[j] in order;
        best, w := order[j], j;
      }
    }
    if best == "" { best := order[0]; }
  }

  // The call clearly preferred another option than best.
  ghost predicate Flipped(order: seq<Key>, a: RunAnswer, best: Key) {
    || Get(a.probabilities, best) < -FLIP_TOLERANCE
    || exists j :: 0 <= j < |order| && Get(a.probabilities, best) < Get(a.probabilities, order[j]) - FLIP_TOLERANCE
  }

  ghost function Flips(order: seq<Key>, rs: seq<RunAnswer>, best: Key): int -> bool {
    i => 0 <= i < |rs| && Flipped(order, rs[i], best)
  }

  method Clearly(order: seq<Key>, a: RunAnswer, best: Key) returns (b: bool)
    ensures b <==> Flipped(order, a, best)
  {
    var top := 0.0;
    for j := 0 to |order|
      invariant top >= 0.0 && forall t :: 0 <= t < j ==> Get(a.probabilities, order[t]) <= top
      invariant top == 0.0 || exists t :: 0 <= t < j && Get(a.probabilities, order[t]) == top
    {
      top := Max(top, Get(a.probabilities, order[j]));
    }
    b := Get(a.probabilities, best) < top - FLIP_TOLERANCE;
  }

  method CountFlips(order: seq<Key>, rs: seq<RunAnswer>, best: Key) returns (flips: nat)
    ensures flips == CountTo(|rs|, Flips(order, rs, best))
  {
    flips := 0;
    for i := 0 to |rs|
      invariant flips == CountTo(i, Flips(order, rs, best))
    {
      var f := Clearly(order, rs[i], best);
      if f { flips := flips + 1; }
    }
  }

  /** mergePermuted for one choice question. */
  method MergeQuestion(order: seq<Key>, results: seq<RunAnswer>) returns (r: Option<Merged>)
    requires Options(order) && |results| > 0
    ensures var rs := results[..Used(|results|, |order|)];
      && |rs| > 0
      && (r.Some? <==> AllWellFormed(order, rs))
      && (r.Some? ==>
           && (forall j :: 0 <= j < |order| ==> Get(r.value.averages, order[j]) == Average(rs, order[j]))
           && BestOption(order, rs, Averages(rs), r.value.best)
           && r.value.flips == CountTo(|rs|, Flips(order, rs, r.value.best))
           && r.value.confidence == Round9(Shape(Average(rs, r.value.best), |order|)))
  {
    var n := |order|;
    var used := |results|;
    UsedIsWhole(used, n);
    if used >= n { used := used / n * n; }
    var rs := results[..used];
    var avg := AverageRuns(order, rs);
    if avg.None? { return None; }
    var best := PickBest(order, rs, avg.value);
    var flips := CountFlips(order, rs, best);
    var conf := (Get(avg.value, best) - 1.0 / n as real) / (1.0 - 1.0 / n as real);
    r := Some(Merged(avg.value, best, flips, Round9(Max(0.0, Min(1.0, conf)))));
  }

  // ---------------------------------------------------------------- whole cycles

  /** The averaged calls are the most whole cycles there are, or all of them when there is none. */
  lemma UsedIsWhole(runs: nat, n: nat)
    requires n > 0
    ensures Used(runs, n) <= runs && (runs > 0 ==> Used(runs, n) > 0)
    ensures runs >= n ==> Used(runs, n) == runs / n * n && runs - Used(runs, n) < n
    ensures runs < n ==> Used(runs, n) == runs
  {
    assert runs == runs / n * n + runs % n;
  }

  /** If every call answers with a distribution, the average is one. */
  lemma AverageIsDistribution(order: seq<Key>, rs: seq<RunAnswer>)
    requires |rs| > 0
    requires forall i, j :: 0 <= i < |rs| && 0 <= j < |order| ==> 0.0 <= Prob(rs, order[j])(i) <= 1.0
    requires forall i :: 0 <= i < |rs| ==> RowSums(Table(order, rs), |order|)(i) == 1.0
    ensures forall j :: 0 <= j < |order| ==> 0.0 <= Average(rs, order[j]) <= 1.0
    ensures SumTo(|order|, j => if 0 <= j < |order| then Average(rs, order[j]) else 0.0) == 1.0
  {
    var k, n := |rs|, |order|;
    forall j | 0 <= j < n ensures 0.0 <= Average(rs, order[j]) <= 1.0 {
      SumConstant(k, 0.0, i => 0.0);
      SumConstant(k, 1.0, i => 1.0);
      SumAtMost(k, i => 0.0, Prob(rs, order[j]));
      SumAtMost(k, Prob(rs, order[j]), i => 1.0);
      UnitQuotient(SumTo(k, Prob(rs, order[j])), k as real);
    }
    SumConstant(k, 1.0, RowSums(Table(order, rs), n));
    SumSwap(k, n, Table(order, rs));
    var f := j => if 0 <= j < n then Average(rs, order[j]) else 0.0;
    forall j | 0 <= j < n ensures f(j) == 1.0 / k as real * ColumnSums(Table(order, rs), k)(j) {
      SumSame(0, k, Prob(rs, order[j]), i => Table(order, rs)(i, j));
    }
    SumTimes(n, 1.0 / k as real, ColumnSums(Table(order, rs), k), f);
    SumSame(0, n, f, j => if 0 <= j < |order| then Average(rs, order[j]) else 0.0);
  }

  function Table(order: seq<Key>, rs: seq<RunAnswer>): (int, int) -> real {
    (i, j) => if 0 <= j < |order| then Prob(rs, order[j])(i) else 0.0
  }

  // Each call's probability is what the content earns plus what the listing position adds.
  ghost predicate Additive(order: seq<Key>, rs: seq<RunAnswer>, content: int -> real, bias: int -> real) {
    forall i, j :: 0 <= i < |rs| && 0 <= j < |order| ==>
      Prob(rs, order[j])(i) == content(j) + bias(Position(j, i, |order|))
  }

  /** Over whole cycles every option gets the same share of the position bias: its mean. */
  lemma BiasCancels(order: seq<Key>, rs: seq<RunAnswer>, content: int -> real, bias: int -> real, m: nat, j: nat)
    requires j < |order| && m > 0 && |rs| == m * |order| > 0 && Additive(order, rs, content, bias)
    ensures Average(rs, order[j]) == content(j) + SumTo(|order|, bias) / |order| as real
  {
    forall i | 0 <= i < |rs|
      ensures Prob(rs, order[j])(i) == content(j) + Placed(bias, j, |order|)(i) { PositionIs(j, i, |order|); }
    MeanShift(Prob(rs, order[j]), content(j), bias, j, |order|, m, |rs|);
  }

  lemma MeanShift(p: int -> real, c: real, bias: int -> real, j: nat, n: nat, m: nat, k: nat)
    requires j < n && k == m * n > 0 && forall i :: 0 <= i < k ==> p(i) == c + Placed(bias, j, n)(i)
    ensures SumTo(k, p) / k as real == c + SumTo(n, bias) / n as real
  {
    PlacedSum(bias, j, n, m, k);
    SumConstant(k, c, (i: int) => c);
    SumPlus(k, (i: int) => c, Placed(bias, j, n), p);
    MeanOf(k, m, n, c, SumTo(n, bias));
  }

  lemma MeanOf(k: nat, m: nat, n: nat, c: real, b: real)
    requires k == m * n > 0
    ensures (k as real * c + m as real * b) / k as real == c + b / n as real
  {
    assert k as real == m as real * n as real;
    assert (k as real * c + m as real * b) == k as real * (c + b / n as real);
  }

  /** So the averaged order of two options is the order of their content, whatever the bias. */
  lemma ContentOrderKept(order: seq<Key>, rs: seq<RunAnswer>, content: int -> real, bias: int -> real, m: nat, j: nat,
      j': nat)
    requires j < |order| && j' < |order| && m > 0 && |rs| == m * |order| > 0 && Additive(order, rs, content, bias)
    ensures Average(rs, order[j]) <= Average(rs, order[j']) <==> content(j) <= content(j')
  {
    BiasCancels(order, rs, content, bias, m, j);
    BiasCancels(order, rs, content, bias, m, j');
  }

  /** The averaged winner has the best content, when some call measured every option. */
  lemma WinnerHasBestContent(order: seq<Key>, rs: seq<RunAnswer>, content: int -> real, bias: int -> real, m: nat,
      best: Key)
    returns (w: nat)
    requires m > 0 && |rs| == m * |order| > 0 && Additive(order, rs, content, bias)
    requires forall j :: 0 <= j < |order| ==> Measured(rs, order[j])
    requires BestOption(order, rs, Averages(rs), best)
    ensures w < |order| && order[w] == best && forall j :: 0 <= j < |order| ==> content(j) <= content(w)
  {
    assert Measured(rs, order[0]);
    w :| 0 <= w < |order| && order[w] == best;
    forall j | 0 <= j < |order| ensures content(j) <= content(w) {
      assert Averages(rs)(order[j]) <= Averages(rs)(best);
      ContentOrderKept(order, rs, content, bias, m, j, w);
    }
  }

  // Every bias adds the same to every option over the first k calls.
  ghost predicate CancelsEveryBias(n: nat, k: nat)
    requires n > 0
  {
    forall bias: int -> real, j, j' :: 0 <= j < n && 0 <= j' < n ==>
      SumTo(k, Placed(bias, j, n)) == SumTo(k, Placed(bias, j', n))
  }

  // Position 0 is taken by options 0 to s-1 over s < n calls.
  lemma {:induction false} FirstPosition(n: nat, s: nat, j: nat)
    requires s <= n && j < n
    ensures SumTo(s, Placed(Only(0), j, n)) == if j < s then 1.0 else 0.0
  {
    if s > 0 {
      FirstPosition(n, s - 1, j);
      ModIs(s - 1, 0, s - 1, n);
      assert Back(j, s - 1, n) == 0 <==> s - 1 == j;
      assert Placed(Only(0), j, n)(s - 1) == if s - 1 == j then 1.0 else 0.0;
      Split(0, s - 1, s, Placed(Only(0), j, n));
    }
  }

  /** Bias cancels in general exactly over whole cycles: a partial cycle favours some option. */
  lemma CancelsIffWhole(n: nat, k: nat)
    requires n > 0
    ensures CancelsEveryBias(n, k) <==> k % n == 0
  {
    var m, s := k / n, k % n;
    assert k == m * n + s;
    if s == 0 {
      forall bias: int -> real, j, j' | 0 <= j < n && 0 <= j' < n
        ensures SumTo(k, Placed(bias, j, n)) == SumTo(k, Placed(bias, j', n))
      {
        PlacedSum(bias, j, n, m, k);
        PlacedSum(bias, j', n, m, k);
      }
    } else {
      PartialSum(n, m, s, k, 0);
      PartialSum(n, m, s, k, n - 1);
      FirstPosition(n, s, 0);
      FirstPosition(n, s, n - 1);
    }
  }

  lemma PartialSum(n: nat, m: nat, s: nat, k: nat, j: nat)
    requires j < n && s < n && k == m * n + s
    ensures SumTo(k, Placed(Only(0), j, n)) == m as real + SumTo(s, Placed(Only(0), j, n))
  {
    NonNegativeProduct(m, n);
    PlacedSum(Only(0), j, n, m, k - s);
    SumOnly(n, 0);
    PlacedPeriodic(Only(0), j, n);
    AfterCycles(Placed(Only(0), j, n), n, m, k - s, s);
  }

  lemma NonNegativeProduct(m: nat, n: nat)
    ensures m * n >= 0
  {
  }

  // The answers an engine gives when the caller lists the options as order.
  function Asked(engine: seq<Key> -> RunAnswer, order: seq<Key>, runs: nat): (rs: seq<RunAnswer>)
    requires |order| > 0
    ensures |rs| == runs
  {
    seq(runs, i requires 0 <= i < runs => engine(Rotate(order, i)))
  }

  function Measure(rs: seq<RunAnswer>, h: RunAnswer -> real): int -> real {
    i => if 0 <= i < |rs| then h(rs[i]) else 0.0
  }

  lemma RotateMod(order: seq<Key>, x: nat)
    requires |order| > 0
    ensures Rotate(order, x) == Rotate(order, x % |order|)
  {
    ModIs(x % |order|, 0, x % |order|, |order|);
  }

  function Calls(engine: seq<Key> -> RunAnswer, order: seq<Key>, r: nat, h: RunAnswer -> real): int -> real
    requires |order| > 0
  {
    i => if 0 <= i then h(engine(Rotate(order, r + i))) else 0.0
  }

  lemma MeasureIs(engine: seq<Key> -> RunAnswer, order: seq<Key>, r: nat, k: nat, h: RunAnswer -> real)
    requires r < |order|
    ensures |Rotate(order, r)| == |order|
    ensures SumTo(k, Measure(Asked(engine, Rotate(order, r), k), h)) == SumTo(k, Calls(engine, order, r, h))
  {
    RotateTwice(order, r, 0);
    var rs := Asked(engine, Rotate(order, r), k);
    forall i | 0 <= i < k ensures Measure(rs, h)(i) == Calls(engine, order, r, h)(i) { RotateTwice(order, r, i); }
    SumSame(0, k, Measure(rs, h), Calls(engine, order, r, h));
  }

  /** Over whole cycles no measure of the answers depends on which rotation of the options the caller listed. */
  lemma CallerRotationIrrelevant(engine: seq<Key> -> RunAnswer, order: seq<Key>, r: nat, m: nat, k: nat,
      h: RunAnswer -> real)
    requires r < |order| && k == m * |order|
    ensures |Rotate(order, r)| == |order|
    ensures SumTo(k, Measure(Asked(engine, Rotate(order, r), k), h)) == SumTo(k, Measure(Asked(engine, order, k), h))
  {
    var n := |order|;
    MeasureIs(engine, order, r, k, h);
    MeasureIs(engine, order, 0, k, h);
    ModIs(0, 0, 0, n);
    assert Rotate(order, 0) == order;
    var g := Calls(engine, order, 0, h);
    forall i | 0 <= i ensures g(i) == g(i % n) { RotateMod(order, i); }
    ShiftedCycles(r, n, m, k, g, Calls(engine, order, r, h));
  }

  /** In particular the averages do not. */
  lemma AveragesIgnoreCallerRotation(engine: seq<Key> -> RunAnswer, order: seq<Key>, r: nat, m: nat, k: nat, key: Key)
    requires r < |order| && k == m * |order| > 0
    ensures |Rotate(order, r)| == |order|
    ensures Average(Asked(engine, Rotate(order, r), k), key) == Average(Asked(engine, order, k), key)
  {
    var h := (a: RunAnswer) => Get(a.probabilities, key);
    CallerRotationIrrelevant(engine, order, r, m, k, h);
    SumSame(0, k, Prob(Asked(engine, Rotate(order, r), k), key), Measure(Asked(engine, Rotate(order, r), k), h));
    SumSame(0, k, Prob(Asked(engine, order, k), key), Measure(Asked(engine, order, k), h));
  }
}
