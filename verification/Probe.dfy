/**
  The order probe (internal/client/probe.go, ProbeOrder): where in the listing the answers sit, and how
  far that is from no position bias.
*/
module Probe {
  import opened Numeric
  import opened Permute
  import opened Rotations
  import opened Sums
  import opened Wrappers

  datatype Measured = Measured(orders: nat, partial: bool, best: Key, flips: nat, counts: seq<nat>, deviation: real)

  // The answered option, or the first of the most probable ones when the choice is not an option.
  ghost predicate Own(order: seq<Key>, a: RunAnswer, w: nat) {
    && w < |order|
    && if a.choice in order then order[w] == a.choice
       else forall j :: 0 <= j < |order| ==>
         && Get(a.probabilities, order[j]) <= Get(a.probabilities, order[w])
         && (j < w ==> Get(a.probabilities, order[j]) < Get(a.probabilities, order[w]))
  }

  ghost predicate AllOwn(order: seq<Key>, rs: seq<RunAnswer>, own: seq<nat>) {
    |own| == |rs| && forall i :: 0 <= i < |rs| ==> Own(order, rs[i], own[i])
  }

  // The listing positions of the calls' own answers.
  function Positions(own: seq<nat>, n: nat): (pos: seq<int>)
    requires n > 0
    ensures |pos| == |own| && forall i :: 0 <= i < |own| ==> pos[i] == Position(own[i], i, n)
  {
    seq(|own|, i requires 0 <= i < |own| => Position(own[i], i, n))
  }

  ghost predicate InRange(pos: seq<int>, n: nat) { forall i :: 0 <= i < |pos| ==> 0 <= pos[i] < n }

  function SitsAt(pos: seq<int>, q: int): int -> bool { i => 0 <= i < |pos| && pos[i] == q }

  ghost predicate Counts(pos: seq<int>, n: nat, counts: seq<nat>) {
    |counts| == n && forall q :: 0 <= q < n ==> counts[q] == CountTo(|pos|, SitsAt(pos, q))
  }

  // The largest distance of a position's share from 1/n.
  ghost predicate Deviation(counts: seq<nat>, used: nat, dev: real)
    requires used > 0 && |counts| > 0
  {
    && (forall q :: 0 <= q < |counts| ==> Off(counts, used, q) <= dev)
    && exists q :: 0 <= q < |counts| && Off(counts, used, q) == dev
  }

  function Off(counts: seq<nat>, used: nat, q: nat): real
    requires used > 0 && q < |counts|
  {
    Abs(counts[q] as real / used as real - 1.0 / |counts| as real)
  }

  method FindOwn(order: seq<Key>, a: RunAnswer) returns (w: nat)
    requires Options(order)
    ensures Own(order, a, w)
  {
    for j := 0 to |order|
      invariant a.choice !in order[..j]
    {
      if order[j] == a.choice { return j; }
    }
    assert order[..|order|] == order;
    w := 0;
    for j := 1 to |order|
      invariant w < j
      invariant forall t :: 0 <= t < j ==>
        && Get(a.probabilities, order[t]) <= Get(a.probabilities, order[w])
        && (t < w ==> Get(a.probabilities, order[t]) < Get(a.probabilities, order[w]))
    {
      if Get(a.probabilities, order[j]) > Get(a.probabilities, order[w]) { w := j; }
    }
  }

  method CountPositions(order: seq<Key>, rs: seq<RunAnswer>) returns (counts: seq<nat>, ghost own: seq<nat>)
    requires Options(order)
    ensures AllOwn(order, rs, own) && Counts(Positions(own, |order|), |order|, counts)
  {
    var n := |order|;
    var tally := new nat[n](_ => 0);
    own := [];
    for i := 0 to |rs|
      invariant AllOwn(order, rs[..i], own)
      invariant fresh(tally) && Counts(Positions(own, n), n, tally[..])
    {
      var w := FindOwn(order, rs[i]);
      var p := Position(w, i, n);
      ListedAt(order, i, w);
      ghost var before := tally[..];
      tally[p] := tally[p] + 1;
      CountsSnoc(Positions(own, n), p, n, before, tally[..]);
      OwnSnoc(order, rs, i, own, w);
      own := own + [w];
    }
    assert rs[..|rs|] == rs;
    counts := tally[..];
  }

  lemma OwnSnoc(order: seq<Key>, rs: seq<RunAnswer>, i: nat, own: seq<nat>, w: nat)
    requires i < |rs| && |order| > 0 && AllOwn(order, rs[..i], own) && Own(order, rs[i], w)
    ensures AllOwn(order, rs[..i + 1], own + [w])
    ensures Positions(own + [w], |order|) == Positions(own, |order|) + [Position(w, i, |order|)]
  {
  }

  lemma CountsSnoc(pos: seq<int>, p: int, n: nat, before: seq<nat>, after: seq<nat>)
    requires 0 <= p < n && Counts(pos, n, before) && after == before[p := before[p] + 1]
    ensures Counts(pos + [p], n, after)
  {
    forall q | 0 <= q < n ensures after[q] == CountTo(|pos| + 1, SitsAt(pos + [p], q)) {
      CountSame(|pos|, SitsAt(pos, q), SitsAt(pos + [p], q));
    }
  }

  lemma {:induction false} CountSame(k: nat, p: int -> bool, q: int -> bool)
    requires forall i :: 0 <= i < k ==> p(i) == q(i)
    ensures CountTo(k, p) == CountTo(k, q)
  {
    if k > 0 { CountSame(k - 1, p, q); }
  }

  method MaxDeviation(counts: seq<nat>, used: nat) returns (dev: real)
    requires used > 0 && |counts| > 0
    ensures Deviation(counts, used, dev)
  {
    dev := 0.0;
    for q := 0 to |counts|
      invariant dev >= 0.0 && forall t :: 0 <= t < q ==> Off(counts, used, t) <= dev
      invariant (dev == 0.0 && q == 0) || exists t :: 0 <= t < q && Off(counts, used, t) == dev
    {
      var share := counts[q] as real / used as real;
      assert Abs(share - 1.0 / |counts| as real) == Off(counts, used, q) >= 0.0;
      dev := Max(dev, Abs(share - 1.0 / |counts| as real));
    }
  }

  /** ProbeOrder for one question. */
  method ProbeQuestion(order: seq<Key>, answers: seq<RunAnswer>) returns (r: Option<Measured>, ghost own: seq<nat>)
    requires Options(order) && |answers| > 0
    ensures var rs := answers[..Used(|answers|, |order|)];
      && |rs| > 0
      && (r.Some? <==> AllWellFormed(order, rs))
      && (r.Some? ==>
           && r.value.orders == |rs| && (r.value.partial <==> |answers| < |order|)
           && BestOption(order, rs, Averages(rs), r.value.best)
           && r.value.flips == CountTo(|rs|, Flips(order, rs, r.value.best))
           && AllOwn(order, rs, own) && Counts(Positions(own, |order|), |order|, r.value.counts)
           && Deviation(r.value.counts, |rs|, r.value.deviation))
  {
    var n := |order|;
    var used, partial := |answers|, false;
    UsedIsWhole(used, n);
    if used >= n { used := used / n * n; } else { partial := true; }
    var rs := answers[..used];
    own := [];
    var avg := AverageRuns(order, rs);
    if avg.None? { return None, own; }
    var best := PickBest(order, rs, avg.value);
    var flips := CountFlips(order, rs, best);
    var counts;
    counts, own := CountPositions(order, rs);
    var dev := MaxDeviation(counts, used);
    r := Some(Measured(used, partial, best, flips, counts, dev));
  }

  // ---------------------------------------------------------------- what the counts mean

  function CountOf(counts: seq<nat>): int -> real { q => if 0 <= q < |counts| then counts[q] as real else 0.0 }

  function Cell(pos: seq<int>): (int, int) -> real {
    (i, q) => if 0 <= i < |pos| && pos[i] == q then 1.0 else 0.0
  }

  lemma CellRow(pos: seq<int>, n: nat, i: nat)
    requires InRange(pos, n) && i < |pos|
    ensures RowSums(Cell(pos), n)(i) == 1.0
  {
    var row := q => Cell(pos)(i, q);
    SumOnly(n, pos[i]);
    forall q | 0 <= q < n ensures row(q) == Only(pos[i])(q) { assert row(q) == Cell(pos)(i, q); }
    SumSame(0, n, row, Only(pos[i]));
    SumSame(0, n, row, q => Cell(pos)(i, q));
  }

  lemma CellColumn(pos: seq<int>, q: int)
    ensures ColumnSums(Cell(pos), |pos|)(q) == CountTo(|pos|, SitsAt(pos, q)) as real
  {
    var column := i => Cell(pos)(i, q);
    forall i | 0 <= i < |pos| ensures column(i) == if SitsAt(pos, q)(i) then 1.0 else 0.0 {
      assert column(i) == Cell(pos)(i, q);
    }
    CountAsSum(|pos|, SitsAt(pos, q), column);
    SumSame(0, |pos|, column, i => Cell(pos)(i, q));
  }

  /** The position counts sum to the number of averaged calls. */
  lemma CountsSum(pos: seq<int>, n: nat, counts: seq<nat>)
    requires InRange(pos, n) && Counts(pos, n, counts)
    ensures SumTo(n, CountOf(counts)) == |pos| as real
  {
    var k := |pos|;
    forall i | 0 <= i < k ensures RowSums(Cell(pos), n)(i) == 1.0 { CellRow(pos, n, i); }
    SumConstant(k, 1.0, RowSums(Cell(pos), n));
    SumSwap(k, n, Cell(pos));
    forall q | 0 <= q < n ensures CountOf(counts)(q) == ColumnSums(Cell(pos), k)(q) { CellColumn(pos, q); }
    SumSame(0, n, CountOf(counts), ColumnSums(Cell(pos), k));
  }

  /** An engine that answers by content, always option j, shows no deviation over whole cycles. */
  lemma ContentEngine(own: seq<nat>, n: nat, m: nat, j: nat, counts: seq<nat>, dev: real)
    requires j < n && n >= 2 && |own| == m * n > 0 && forall i :: 0 <= i < |own| ==> own[i] == j
    requires Counts(Positions(own, n), n, counts) && Deviation(counts, |own|, dev)
    ensures (forall q :: 0 <= q < n ==> counts[q] == m) && dev == 0.0
  {
    var pos := Positions(own, n);
    forall i | 0 <= i < |pos| ensures 0 <= pos[i] < n { PositionIs(j, i, n); }
    forall q | 0 <= q < n ensures counts[q] == m {
      EveryPairEqually(n, m, |own|, j, q);
      CountSame(|own|, SitsAt(pos, q), i => Position(j, i, n) == q);
    }
    DeviationRange(pos, n, counts, dev);
  }

  /** An engine that always answers the option listed at position q0 shows the deviation 1 - 1/n. */
  lemma PositionEngine(own: seq<nat>, n: nat, q0: nat, counts: seq<nat>, dev: real)
    requires q0 < n && n >= 2 && |own| > 0
    requires forall i :: 0 <= i < |own| ==> Position(own[i], i, n) == q0
    requires Counts(Positions(own, n), n, counts) && Deviation(counts, |own|, dev)
    ensures counts[q0] == |own| && dev == 1.0 - 1.0 / n as real
  {
    var pos := Positions(own, n);
    assert forall i :: 0 <= i < |pos| ==> pos[i] == q0;
    AllThere(|pos|, SitsAt(pos, q0));
    DeviationRange(pos, n, counts, dev);
  }

  lemma {:induction false} AllThere(k: nat, p: int -> bool)
    ensures CountTo(k, p) == k <==> forall i :: 0 <= i < k ==> p(i)
  {
    if k > 0 { AllThere(k - 1, p); }
  }

  lemma ShareRange(c: nat, k: nat)
    requires c <= k && k > 0
    ensures 0.0 <= c as real / k as real <= 1.0
    ensures c as real / k as real == 1.0 <==> c == k
    ensures c as real / k as real == 0.0 <==> c == 0
  {
    assert (c as real / k as real) * k as real == c as real;
  }

  lemma UnitRange(n: nat)
    requires n >= 2
    ensures 0.0 < 1.0 / n as real <= 0.5
    ensures 1.0 / n as real == 0.5 <==> n == 2
  {
    assert (1.0 / n as real) * n as real == 1.0;
  }

  lemma SameShare(s: real, u: real, c: nat, k: nat, n: nat)
    requires k > 0 && n > 0 && s * k as real == c as real && u * n as real == 1.0
    ensures s == u <==> c * n == k
  {
    assert (c * n) as real == s * k as real * n as real;
    assert s == u ==> (c * n) as real == k as real * (u * n as real);
    assert k as real == u * n as real * k as real;
    assert c * n == k ==> (s - u) * (k as real * n as real) == 0.0;
    assert k as real * n as real > 0.0;
  }

  lemma Extremes(c: nat, k: nat, n: nat)
    requires c <= k && k > 0 && n >= 2
    ensures var off := Abs(c as real / k as real - 1.0 / n as real);
      && 0.0 <= off <= 1.0 - 1.0 / n as real
      && (c == k ==> off == 1.0 - 1.0 / n as real)
      && (off == 1.0 - 1.0 / n as real && c < k ==> n == 2 && c == 0)
      && (off == 0.0 <==> c * n == k)
  {
    ShareRange(c, k);
    UnitRange(n);
    SameShare(c as real / k as real, 1.0 / n as real, c, k, n);
  }

  /** In general the deviation lies between 0 and 1 - 1/n: it is 0 exactly when every position is answered
      equally often, and 1 - 1/n exactly when one position is always answered. */
  lemma DeviationRange(pos: seq<int>, n: nat, counts: seq<nat>, dev: real)
    requires InRange(pos, n) && n >= 2 && |pos| > 0 && Counts(pos, n, counts) && Deviation(counts, |pos|, dev)
    ensures 0.0 <= dev <= 1.0 - 1.0 / n as real
    ensures dev == 0.0 <==> forall q :: 0 <= q < n ==> counts[q] * n == |pos|
    ensures dev == 1.0 - 1.0 / n as real <==> exists q :: 0 <= q < n && counts[q] == |pos|
  {
    var k := |pos|;
    forall q | 0 <= q < n ensures OffFacts(counts, k, q) { Extremes(counts[q], k, n); }
    var w :| 0 <= w < n && Off(counts, k, w) == dev;
    assert OffFacts(counts, k, w);
    if dev == 0.0 {
      forall q | 0 <= q < n ensures counts[q] * n == k { assert OffFacts(counts, k, q); }
    }
    if dev == 1.0 - 1.0 / n as real && counts[w] < k {
      CountsSum(pos, n, counts);
      assert SumTo(2, CountOf(counts)) == SumTo(1, CountOf(counts)) + counts[1] as real;
      assert SumTo(1, CountOf(counts)) == counts[0] as real;
      assert counts[1 - w] == k;
    }
    if q :| 0 <= q < n && counts[q] == k { assert OffFacts(counts, k, q); }
  }

  ghost predicate OffFacts(counts: seq<nat>, k: nat, q: nat)
    requires q < |counts| && k > 0
  {
    && 0.0 <= Off(counts, k, q) <= 1.0 - 1.0 / |counts| as real
    && (counts[q] == k ==> Off(counts, k, q) == 1.0 - 1.0 / |counts| as real)
    && (Off(counts, k, q) == 1.0 - 1.0 / |counts| as real && counts[q] < k ==> |counts| == 2 && counts[q] == 0)
    && (Off(counts, k, q) == 0.0 <==> counts[q] * |counts| == k)
    && counts[q] <= k
  }

  /** An engine whose answers do not depend on the order never flips. */
  lemma ContentNeverFlips(order: seq<Key>, rs: seq<RunAnswer>, best: Key)
    requires |rs| > 0 && Options(order) && AllWellFormed(order, rs)
    requires forall i, j :: 0 <= i < |rs| && 0 <= j < |order| ==>
      Get(rs[i].probabilities, order[j]) == Get(rs[0].probabilities, order[j]) >= 0.0
    requires forall j :: 0 <= j < |order| ==> Permute.Measured(rs, order[j])
    requires BestOption(order, rs, Averages(rs), best)
    ensures CountTo(|rs|, Flips(order, rs, best)) == 0
  {
    var k := |rs|;
    forall j | 0 <= j < |order| ensures Averages(rs)(order[j]) == Get(rs[0].probabilities, order[j]) {
      var c := Get(rs[0].probabilities, order[j]);
      SumConstant(k, c, Prob(rs, order[j]));
      MeanOfSame(k, c);
    }
    assert Permute.Measured(rs, order[0]);
    var w :| 0 <= w < |order| && order[w] == best;
    forall i | 0 <= i < k ensures !Flips(order, rs, best)(i) {
      forall j | 0 <= j < |order| ensures Get(rs[i].probabilities, order[j]) <= Get(rs[i].probabilities, best) {
        assert Averages(rs)(order[j]) <= Averages(rs)(best);
      }
    }
    NoneThere(k, Flips(order, rs, best));
  }

  lemma MeanOfSame(k: nat, c: real)
    requires k > 0
    ensures k as real * c / k as real == c
  {
  }

  lemma {:induction false} NoneThere(k: nat, p: int -> bool)
    requires forall i :: 0 <= i < k ==> !p(i)
    ensures CountTo(k, p) == 0
  {
    if k > 0 { NoneThere(k - 1, p); }
  }

  lemma {:induction false} CountOthers(k: nat, p: int -> bool, q: int -> bool)
    requires forall i :: 0 <= i < k ==> (p(i) <==> !q(i))
    ensures CountTo(k, p) + CountTo(k, q) == k
  {
    if k > 0 { CountOthers(k - 1, p, q); }
  }

  // In every call the option listed at position q0 is clearly preferred, and the others are alike.
  ghost predicate ByPosition(order: seq<Key>, rs: seq<RunAnswer>, q0: nat, lo: real, hi: real) {
    && |order| > 0 && 0.0 <= lo && hi > lo + FLIP_TOLERANCE
    && forall i, t :: 0 <= i < |rs| && 0 <= t < |order| ==>
         Get(rs[i].probabilities, order[t]) == if Position(t, i, |order|) == q0 then hi else lo
  }

  lemma PreferredFlips(order: seq<Key>, rs: seq<RunAnswer>, q0: nat, lo: real, hi: real, j: nat, i: nat)
    requires ByPosition(order, rs, q0, lo, hi) && q0 < |order| && j < |order| && i < |rs|
    ensures Flipped(order, rs[i], order[j]) <==> Position(j, i, |order|) != q0
  {
    var n := |order|;
    var t := Ahead(q0, i % n, n);
    PositionIs(t, i, n);
    assert Position(t, i, n) == q0;
    assert Get(rs[i].probabilities, order[t]) == hi;
    assert Get(rs[i].probabilities, order[j]) == if Position(j, i, n) == q0 then hi else lo;
  }

  /** An engine that prefers a position, whatever is listed there, flips in every call but one of each cycle. */
  lemma PositionFlips(order: seq<Key>, rs: seq<RunAnswer>, q0: nat, lo: real, hi: real, m: nat, j: nat)
    requires ByPosition(order, rs, q0, lo, hi) && q0 < |order| && j < |order| && |rs| == m * |order|
    ensures CountTo(|rs|, Flips(order, rs, order[j])) == m * (|order| - 1)
  {
    var n, k := |order|, |rs|;
    var there := i => Position(j, i, n) == q0;
    forall i | 0 <= i < k ensures Flips(order, rs, order[j])(i) <==> !there(i) {
      PreferredFlips(order, rs, q0, lo, hi, j, i);
    }
    TimesThere(n, m, k, j, q0, there);
    CountOthers(k, Flips(order, rs, order[j]), there);
  }

  lemma TimesThere(n: nat, m: nat, k: nat, j: nat, q0: nat, there: int -> bool)
    requires j < n && q0 < n && k == m * n && forall i :: there(i) <==> Position(j, i, n) == q0
    ensures CountTo(k, there) == m && k - m == m * (n - 1)
  {
    EveryPairEqually(n, m, k, j, q0);
    CountSame(k, there, i => Position(j, i, n) == q0);
  }
}
