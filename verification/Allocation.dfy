module Allocation
  /**
    The worst-case allocation of hidden mass (internal/readout/readout.go, WorstAllocation): among all
    x with 0 <= x_i <= caps_i and sum x_i <= total it maximises sum f(x_i), where f stands for x^a.
    For a <= 1 (f concave) by water-filling, for a > 1 (f convex) by filling the largest caps first.
  */
{
  import opened Numeric

  ghost predicate ConcaveAt(f: real -> real, x: real, y: real, z: real) {
    0.0 <= x < y < z ==> (f(y) - f(x)) * (z - y) >= (f(z) - f(y)) * (y - x)
  }

  ghost predicate ConvexAt(f: real -> real, x: real, y: real, z: real) {
    0.0 <= x < y < z ==> (f(y) - f(x)) * (z - y) <= (f(z) - f(y)) * (y - x)
  }

  ghost predicate Concave(f: real -> real) { forall x: real, y: real, z: real :: ConcaveAt(f, x, y, z) }

  ghost predicate Convex(f: real -> real) { forall x: real, y: real, z: real :: ConvexAt(f, x, y, z) }

  ghost predicate GrowingAt(f: real -> real, x: real, y: real) { 0.0 <= x <= y ==> f(x) <= f(y) }

  ghost predicate Growing(f: real -> real) { forall x: real, y: real :: GrowingAt(f, x, y) }

  ghost predicate Feasible(caps: seq<real>, total: real, x: seq<real>) {
    && |x| == |caps|
    && (forall i :: 0 <= i < |x| ==> 0.0 <= x[i] <= caps[i])
    && Sum(x) <= total
  }

  ghost predicate NonNegative(xs: seq<real>) { forall i :: 0 <= i < |xs| ==> 0.0 <= xs[i] }

  // ---------------------------------------------------------------- index order

  // Stable ascending order of the caps: an equal cap keeps its place.
  function InsertIndex(caps: seq<real>, idx: seq<nat>, i: nat): (r: seq<nat>)
    requires i < |caps| && forall m :: 0 <= m < |idx| ==> idx[m] < |caps|
    ensures |r| == |idx| + 1 && forall m :: 0 <= m < |r| ==> r[m] < |caps|
  {
    if idx == [] || caps[idx[|idx| - 1]] <= caps[i] then idx + [i]
    else InsertIndex(caps, idx[..|idx| - 1], i) + [idx[|idx| - 1]]
  }

  function Order(caps: seq<real>, n: nat): (r: seq<nat>)
    requires n <= |caps|
    ensures |r| == n && forall m :: 0 <= m < n ==> r[m] < |caps|
  {
    if n == 0 then [] else InsertIndex(caps, Order(caps, n - 1), n - 1)
  }

  // The values of x at the listed indexes.
  function At(x: seq<real>, idx: seq<nat>): (r: seq<real>)
    requires forall m :: 0 <= m < |idx| ==> idx[m] < |x|
    ensures |r| == |idx| && forall m :: 0 <= m < |r| ==> r[m] == x[idx[m]]
  {
    seq(|idx|, m requires 0 <= m < |idx| => x[idx[m]])
  }

  ghost predicate Ascending(cs: seq<real>) { forall i, j :: 0 <= i < j < |cs| ==> cs[i] <= cs[j] }

  // Different indexes, in ascending order of their caps.
  ghost predicate Ordered(caps: seq<real>, idx: seq<nat>) {
    && (forall m :: 0 <= m < |idx| ==> idx[m] < |caps|)
    && (forall a, b :: 0 <= a < b < |idx| ==> idx[a] != idx[b] && caps[idx[a]] <= caps[idx[b]])
  }

  ghost predicate Lists(idx: seq<nat>, n: nat) {
    forall i :: 0 <= i < n <==> i in idx
  }

  lemma {:induction false} InsertIndexMembers(caps: seq<real>, idx: seq<nat>, i: nat, j: nat)
    requires i < |caps| && forall m :: 0 <= m < |idx| ==> idx[m] < |caps|
    ensures j in InsertIndex(caps, idx, i) <==> j == i || j in idx
    decreases |idx|
  {
    if idx == [] || caps[idx[|idx| - 1]] <= caps[i] {
    } else {
      var idx0, z := idx[..|idx| - 1], idx[|idx| - 1];
      InsertIndexMembers(caps, idx0, i, j);
      assert idx == idx0 + [z];
    }
  }

  lemma {:induction false} InsertIndexSorts(caps: seq<real>, idx: seq<nat>, i: nat)
    requires i < |caps| && i !in idx && Ordered(caps, idx)
    ensures Ordered(caps, InsertIndex(caps, idx, i))
    decreases |idx|
  {
    if idx == [] || caps[idx[|idx| - 1]] <= caps[i] {
    } else {
      var idx0, z := idx[..|idx| - 1], idx[|idx| - 1];
      InsertIndexSorts(caps, idx0, i);
      var r0 := InsertIndex(caps, idx0, i);
      forall m | 0 <= m < |r0| ensures caps[r0[m]] <= caps[z] && r0[m] != z {
        InsertIndexMembers(caps, idx0, i, r0[m]);
      }
    }
  }

  lemma {:induction false} OrderSorts(caps: seq<real>, n: nat)
    requires n <= |caps|
    ensures Ordered(caps, Order(caps, n)) && Lists(Order(caps, n), n)
    decreases n
  {
    if n > 0 {
      var idx := Order(caps, n - 1);
      OrderSorts(caps, n - 1);
      InsertIndexLists(caps, idx, n - 1);
      InsertIndexSorts(caps, idx, n - 1);
    }
  }

  lemma InsertIndexLists(caps: seq<real>, idx: seq<nat>, n: nat)
    requires n < |caps| && Lists(idx, n) && forall m :: 0 <= m < |idx| ==> idx[m] < |caps|
    ensures Lists(InsertIndex(caps, idx, n), n + 1)
  {
    forall j: nat ensures j in InsertIndex(caps, idx, n) <==> j < n + 1 { InsertIndexMembers(caps, idx, n, j); }
  }

  lemma InsertUnfolds(caps: seq<real>, idx: seq<nat>, i: nat) returns (a: seq<nat>, b: seq<nat>)
    requires i < |caps| && forall m :: 0 <= m < |idx| ==> idx[m] < |caps|
    ensures idx == a + b && InsertIndex(caps, idx, i) == a + [i] + b
    ensures (forall m :: 0 <= m < |a| ==> a[m] < |caps|) && forall m :: 0 <= m < |b| ==> b[m] < |caps|
    decreases |idx|
  {
    if idx == [] || caps[idx[|idx| - 1]] <= caps[i] {
      return idx, [];
    }
    a, b := InsertUnfolds(caps, idx[..|idx| - 1], i);
    b := b + [idx[|idx| - 1]];
  }

  lemma {:induction false} SumAppend(f: real -> real, u: seq<real>, v: seq<real>)
    ensures SumOf(f, u + v) == SumOf(f, u) + SumOf(f, v) && Sum(u + v) == Sum(u) + Sum(v)
    decreases |v|
  {
    if v == [] {
      assert u + v == u;
    } else {
      var v0, z := v[..|v| - 1], v[|v| - 1];
      SumAppend(f, u, v0);
      SumSnoc(f, u + v0, z);
      assert u + v == u + v0 + [z];
    }
  }

  lemma InsertedSum(f: real -> real, u: seq<real>, y: real, v: seq<real>)
    ensures SumOf(f, u + [y] + v) == SumOf(f, u + v) + f(y) && Sum(u + [y] + v) == Sum(u + v) + y
  {
    SumAppend(f, u + [y], v);
    SumAppend(f, u, v);
    SumSnoc(f, u, y);
  }

  lemma AtInserted(x: seq<real>, a: seq<nat>, i: nat, b: seq<nat>)
    requires i < |x| && (forall m :: 0 <= m < |a| ==> a[m] < |x|) && forall m :: 0 <= m < |b| ==> b[m] < |x|
    ensures At(x, a + [i] + b) == At(x, a) + [x[i]] + At(x, b) && At(x, a + b) == At(x, a) + At(x, b)
  {
  }

  lemma SumOfInsert(f: real -> real, caps: seq<real>, x: seq<real>, idx: seq<nat>, i: nat)
    requires |x| == |caps| && i < |caps| && forall m :: 0 <= m < |idx| ==> idx[m] < |caps|
    ensures SumOf(f, At(x, InsertIndex(caps, idx, i))) == SumOf(f, At(x, idx)) + f(x[i])
    ensures Sum(At(x, InsertIndex(caps, idx, i))) == Sum(At(x, idx)) + x[i]
  {
    var a, b := InsertUnfolds(caps, idx, i);
    AtInserted(x, a, i, b);
    InsertedSum(f, At(x, a), x[i], At(x, b));
  }

  lemma PrefixSnoc(f: real -> real, x: seq<real>, n: nat)
    requires 0 < n <= |x|
    ensures Sum(x[..n]) == Sum(x[..n - 1]) + x[n - 1] && SumOf(f, x[..n]) == SumOf(f, x[..n - 1]) + f(x[n - 1])
  {
    assert x[..n][..n - 1] == x[..n - 1];
  }

  lemma SumOfOrderStep(f: real -> real, caps: seq<real>, x: seq<real>, idx: seq<nat>, n: nat)
    requires |x| == |caps| && 0 < n <= |caps| && forall m :: 0 <= m < |idx| ==> idx[m] < |caps|
    requires SumOf(f, At(x, idx)) == SumOf(f, x[..n - 1]) && Sum(At(x, idx)) == Sum(x[..n - 1])
    ensures SumOf(f, At(x, InsertIndex(caps, idx, n - 1))) == SumOf(f, x[..n])
    ensures Sum(At(x, InsertIndex(caps, idx, n - 1))) == Sum(x[..n])
  {
    SumOfInsert(f, caps, x, idx, n - 1);
    PrefixSnoc(f, x, n);
  }

  // Reordering does not change a sum.
  lemma {:induction false} SumOfOrder(f: real -> real, caps: seq<real>, x: seq<real>, n: nat)
    requires |x| == |caps| && n <= |caps|
    ensures SumOf(f, At(x, Order(caps, n))) == SumOf(f, x[..n]) && Sum(At(x, Order(caps, n))) == Sum(x[..n])
    decreases n
  {
    if n > 0 {
      SumOfOrder(f, caps, x, n - 1);
      SumOfOrderStep(f, caps, x, Order(caps, n - 1), n);
    }
  }

  // ---------------------------------------------------------------- the algorithm

  // Everything at the common level, or at its cap when that is lower.
  ghost predicate WaterFilled(caps: seq<real>, level: real, x: seq<real>) {
    |x| == |caps| && forall i :: 0 <= i < |x| ==> x[i] == Min(caps[i], level)
  }

  // Largest (last) cap first, until rem runs out.
  function GreedyFill(cs: seq<real>, rem: real): (r: seq<real>)
    ensures |r| == |cs|
    decreases |cs|
  {
    if cs == [] then []
    else
      var n := |cs| - 1;
      var g := Min(cs[n], rem);
      GreedyFill(cs[..n], rem - g) + [g]
  }

  ghost predicate FilledFromTop(caps: seq<real>, idx: seq<nat>, total: real, x: seq<real>)
    requires |x| == |caps| && Ordered(caps, idx)
  {
    At(x, idx) == GreedyFill(At(caps, idx), total)
  }

  method WorstAllocation(caps: seq<real>, total: real, a: real) returns (out: seq<real>, ghost level: real)
    requires NonNegative(caps)
    ensures Feasible(caps, Max(0.0, total), out) && Sum(out) == Min(Max(0.0, total), Sum(caps))
    ensures a <= 1.0 ==> level >= 0.0 && WaterFilled(caps, level, out)
    ensures a > 1.0 ==>
      Ordered(caps, Order(caps, |caps|)) && FilledFromTop(caps, Order(caps, |caps|), Max(0.0, total), out)
  {
    var k := |caps|;
    var idx := Order(caps, k);
    OrderSorts(caps, k);
    var remaining := Max(0.0, total);
    if a <= 1.0 {
      out, level := SpreadEvenly(caps, idx, remaining);
    } else {
      out := LargestFirst(caps, idx, remaining);
      level := 0.0;
    }
  }

  // The first n indexes hold the level or their cap, the others nothing.
  ghost predicate Served(caps: seq<real>, idx: seq<nat>, out: seq<real>, n: nat, level: real)
    requires Ordered(caps, idx) && |out| == |caps|
  {
    && (forall m :: 0 <= m < n <= |idx| ==> out[idx[m]] == Min(caps[idx[m]], level))
    && (forall m :: n <= m < |idx| ==> out[idx[m]] == 0.0)
  }

  // The state of the even spread after n indexes; full: no cap has exceeded its share so far.
  ghost predicate Spread(caps: seq<real>, idx: seq<nat>, out: seq<real>, n: nat, level: real, remaining: real,
      full: bool)
    requires |idx| == |caps| && Ordered(caps, idx)
  {
    && |out| == |caps| && Served(caps, idx, out, n, level)
    && remaining >= 0.0 && level >= 0.0
    && (full ==> (forall m :: 0 <= m < n <= |idx| ==> caps[idx[m]] <= level)
                 && (n < |idx| ==> level * (|idx| - n) as real <= remaining))
    && (!full ==> (forall m :: n <= m < |idx| ==> caps[idx[m]] >= level)
                  && level * (|idx| - n) as real == remaining)
  }

  // The a <= 1 loop: each index takes an even share of what is left, up to its cap.
  method SpreadEvenly(caps: seq<real>, idx: seq<nat>, total: real) returns (out: seq<real>, ghost level: real)
    requires NonNegative(caps) && total >= 0.0 && |idx| == |caps|
    requires Ordered(caps, idx) && Lists(idx, |caps|)
    ensures level >= 0.0 && WaterFilled(caps, level, out)
    ensures Feasible(caps, total, out) && Sum(out) == Min(total, Sum(caps))
  {
    var k := |caps|;
    var remaining := total;
    out := seq(k, _ => 0.0);
    level := 0.0;
    SumOfZeros(out);
    ghost var full := true;
    for n := 0 to k
      invariant Spread(caps, idx, out, n, level, remaining, full)
      invariant Sum(out) == total - remaining
    {
      var i, left := idx[n], (k - n) as real;
      var share := remaining / left;
      SpreadStep(caps, idx, out, n, level, remaining, full);
      SumUpdate(out, i, Min(caps[i], share));
      out := out[i := Min(caps[i], share)];
      remaining := remaining - out[i];
      full := full && caps[i] <= share;
      level := share;
    }
    SpreadDone(caps, idx, out, level, remaining, full);
  }

  lemma SpreadStep(caps: seq<real>, idx: seq<nat>, out: seq<real>, n: nat, level: real, remaining: real, full: bool)
    requires NonNegative(caps) && |idx| == |caps| && Ordered(caps, idx) && n < |idx|
    requires Spread(caps, idx, out, n, level, remaining, full)
    ensures var share := remaining / (|idx| - n) as real;
      var got := Min(caps[idx[n]], share);
      out[idx[n]] == 0.0 &&
      Spread(caps, idx, out[idx[n] := got], n + 1, share, remaining - got, full && caps[idx[n]] <= share)
  {
    var left := (|idx| - n) as real;
    var share, c := remaining / left, caps[idx[n]];
    ShareGrows(level, remaining, left);
    ServedStep(caps, idx, out, n, level, share, full);
    ShareLeft(share, left, c);
    assert (|idx| - (n + 1)) as real == left - 1.0;
    assert share >= 0.0;
    assert 0.0 <= c && Min(c, share) <= share;
    assert share <= remaining by { ShareAtMost(remaining, left); }
  }

  lemma ShareAtMost(remaining: real, left: real)
    requires remaining >= 0.0 && left >= 1.0
    ensures 0.0 <= remaining / left <= remaining
  {
    assert remaining / left * (left - 1.0) == remaining - remaining / left;
  }

  lemma SpreadDone(caps: seq<real>, idx: seq<nat>, out: seq<real>, level: real, remaining: real, full: bool)
    requires NonNegative(caps) && |idx| == |caps| && Ordered(caps, idx) && Lists(idx, |caps|)
    requires Spread(caps, idx, out, |idx|, level, remaining, full)
    ensures WaterFilled(caps, level, out) && (remaining == 0.0 || out == caps) && Sum(out) <= Sum(caps)
  {
    AllServed(caps, idx, out, level);
    SumBounds(out, caps);
    if full {
      forall i | 0 <= i < |caps| ensures out[i] == caps[i] {
        assert i in idx;
      }
    }
  }

  lemma ShareGrows(level: real, remaining: real, left: real)
    requires left > 0.0
    ensures remaining / left * left == remaining
    ensures level * left <= remaining ==> level <= remaining / left
    ensures level * left == remaining ==> level == remaining / left
  {
    assert remaining / left - level == (remaining - level * left) / left;
  }

  lemma ShareLeft(share: real, left: real, c: real)
    ensures c > share ==> share * (left - 1.0) == share * left - Min(c, share)
    ensures c <= share ==> share * (left - 1.0) <= share * left - Min(c, share)
  {
    assert share * (left - 1.0) == share * left - share;
  }

  lemma ServedStep(caps: seq<real>, idx: seq<nat>, out: seq<real>, n: nat, level: real, share: real, full: bool)
    requires |idx| == |caps| == |out| && Ordered(caps, idx) && n < |idx|
    requires Served(caps, idx, out, n, level)
    requires if full then level <= share && forall m :: 0 <= m < n ==> caps[idx[m]] <= level else level == share
    ensures Served(caps, idx, out[idx[n] := Min(caps[idx[n]], share)], n + 1, share)
    ensures caps[idx[n]] > share ==> forall m :: n <= m < |idx| ==> caps[idx[m]] >= share
  {
  }

  lemma AllServed(caps: seq<real>, idx: seq<nat>, out: seq<real>, level: real)
    requires |idx| == |caps| == |out| && Ordered(caps, idx) && Lists(idx, |caps|)
      && Served(caps, idx, out, |idx|, level)
    ensures WaterFilled(caps, level, out)
  {
    forall i | 0 <= i < |caps| ensures out[i] == Min(caps[i], level) {
      assert i in idx;
    }
  }

  lemma {:induction false} SumOfZeros(xs: seq<real>)
    requires forall i :: 0 <= i < |xs| ==> xs[i] == 0.0
    ensures Sum(xs) == 0.0
    decreases |xs|
  {
    if xs != [] { SumOfZeros(xs[..|xs| - 1]); }
  }

  // The amounts from position n up are final, the others still 0; nothing is left unless all so far are full.
  ghost predicate Filled(caps: seq<real>, idx: seq<nat>, out: seq<real>, goal: seq<real>, n: nat, remaining: real)
    requires Ordered(caps, idx) && |out| == |caps| && |goal| == |idx|
  {
    && (forall m :: 0 <= m < n <= |idx| ==> out[idx[m]] == 0.0)
    && (forall m :: n <= m < |idx| ==> out[idx[m]] == goal[m] && 0.0 <= goal[m] <= caps[idx[m]])
    && (remaining > 0.0 ==> forall m :: n <= m < |idx| ==> goal[m] == caps[idx[m]])
  }

  // The a > 1 loop: the largest cap takes all it can, then the next.
  method TakeFromTop(caps: seq<real>, idx: seq<nat>, total: real, ghost goal: seq<real>)
    returns (out: seq<real>, remaining: real)
    requires NonNegative(caps) && total >= 0.0 && |idx| == |caps| && Ordered(caps, idx)
    requires goal == GreedyFill(At(caps, idx), total)
    ensures |out| == |caps| && remaining >= 0.0 && Sum(out) == total - remaining
    ensures Filled(caps, idx, out, goal, 0, remaining)
  {
    var k := |caps|;
    remaining := total;
    out := seq(k, _ => 0.0);
    SumOfZeros(out);
    ghost var cs := At(caps, idx);
    assert cs[..k] == cs && goal[..k] == goal;
    for n := k downto 0
      invariant |out| == k && remaining >= 0.0 && Sum(out) == total - remaining
      invariant goal[..n] == GreedyFill(cs[..n], remaining)
      invariant Filled(caps, idx, out, goal, n, remaining)
    {
      var i := idx[n];
      GreedyStep(caps, idx, cs, out, goal, n, remaining);
      var taken := Min(caps[i], remaining);
      out := out[i := taken];
      remaining := remaining - taken;
    }
  }

  method LargestFirst(caps: seq<real>, idx: seq<nat>, total: real) returns (out: seq<real>)
    requires NonNegative(caps) && total >= 0.0 && |idx| == |caps|
    requires Ordered(caps, idx) && Lists(idx, |caps|)
    ensures Feasible(caps, total, out) && FilledFromTop(caps, idx, total, out)
    ensures Sum(out) == Min(total, Sum(caps))
  {
    ghost var goal := GreedyFill(At(caps, idx), total);
    var remaining;
    out, remaining := TakeFromTop(caps, idx, total, goal);
    FilledDone(caps, idx, out, goal, remaining);
  }

  lemma GreedyStep(caps: seq<real>, idx: seq<nat>, cs: seq<real>, out: seq<real>, goal: seq<real>, n: nat,
      remaining: real)
    requires Ordered(caps, idx) && |out| == |caps| && |goal| == |idx| == |cs| && n < |idx| && NonNegative(caps)
    requires cs == At(caps, idx) && goal[..n + 1] == GreedyFill(cs[..n + 1], remaining)
    requires Filled(caps, idx, out, goal, n + 1, remaining) && remaining >= 0.0
    ensures var m := Min(caps[idx[n]], remaining); var next := out[idx[n] := m];
      && goal[..n] == GreedyFill(cs[..n], remaining - m)
      && Filled(caps, idx, next, goal, n, remaining - m) && Sum(next) == Sum(out) + m
  {
    GreedyUnfolds(cs, goal, n + 1, remaining);
    FilledStep(caps, idx, out, goal, n, remaining);
    SumUpdate(out, idx[n], Min(caps[idx[n]], remaining));
  }

  lemma FilledStep(caps: seq<real>, idx: seq<nat>, out: seq<real>, goal: seq<real>, n: nat, remaining: real)
    requires Ordered(caps, idx) && |out| == |caps| && |goal| == |idx| && n < |idx| && NonNegative(caps)
    requires Filled(caps, idx, out, goal, n + 1, remaining) && remaining >= 0.0
    requires goal[n] == Min(caps[idx[n]], remaining)
    ensures out[idx[n]] == 0.0
    ensures Filled(caps, idx, out[idx[n] := goal[n]], goal, n, remaining - goal[n])
  {
  }

  lemma FilledDone(caps: seq<real>, idx: seq<nat>, out: seq<real>, goal: seq<real>, remaining: real)
    requires |idx| == |caps| && Ordered(caps, idx) && Lists(idx, |caps|) && |out| == |caps| && |goal| == |idx|
    requires Filled(caps, idx, out, goal, 0, remaining)
    ensures At(out, idx) == goal && (remaining > 0.0 ==> out == caps)
    ensures Sum(out) <= Sum(caps) && forall i :: 0 <= i < |out| ==> 0.0 <= out[i] <= caps[i]
  {
    assert At(out, idx) == goal;
    forall i | 0 <= i < |caps| ensures 0.0 <= out[i] <= caps[i] && (remaining > 0.0 ==> out[i] == caps[i]) {
      assert i in idx;
    }
    SumBounds(out, caps);
  }

  lemma GreedyUnfolds(cs: seq<real>, goal: seq<real>, n: nat, rem: real)
    requires 0 < n <= |cs| == |goal| && goal[..n] == GreedyFill(cs[..n], rem)
    ensures goal[n - 1] == Min(cs[n - 1], rem)
    ensures goal[..n - 1] == GreedyFill(cs[..n - 1], rem - Min(cs[n - 1], rem))
  {
    assert cs[..n][..n - 1] == cs[..n - 1] && goal[..n][..n - 1] == goal[..n - 1];
    assert goal[..n][n - 1] == goal[n - 1];
  }

  // ---------------------------------------------------------------- optimality, concave

  // A slope s >= 0 that lies above f from the point l, at every listed point.
  lemma {:induction false} Supergradient(f: real -> real, l: real, zs: seq<real>) returns (s: real)
    requires Concave(f) && Growing(f) && l >= 0.0 && NonNegative(zs)
    ensures s >= 0.0 && forall i :: 0 <= i < |zs| ==> f(zs[i]) <= f(l) + s * (zs[i] - l)
    decreases |zs|
  {
    if zs == [] { return 0.0; }
    var n := |zs| - 1;
    var t := Supergradient(f, l, zs[..n]);
    var z := zs[n];
    if f(z) <= f(l) + t * (z - l) { return t; }
    s := (f(z) - f(l)) / (z - l);
    assert s * (z - l) == f(z) - f(l);
    Steeper(f, l, z, s, t);
    forall i | 0 <= i < n ensures f(zs[i]) <= f(l) + s * (zs[i] - l) {
      assert f(zs[..n][i]) <= f(l) + t * (zs[..n][i] - l);
      SlopeMoves(f, l, z, s, t, zs[i]);
    }
  }

  lemma Steeper(f: real -> real, l: real, z: real, s: real, t: real)
    requires Growing(f) && l >= 0.0 && z >= 0.0 && z != l
    requires s * (z - l) == f(z) - f(l) > t * (z - l)
    ensures s >= 0.0 && (z > l ==> s > t) && (z < l ==> s < t)
  {
    assert GrowingAt(f, z, l) && GrowingAt(f, l, z);
    SteeperBy(z - l, f(z) - f(l), s, t);
  }

  lemma SteeperBy(d: real, gain: real, s: real, t: real)
    requires d != 0.0 && s * d == gain > t * d && (d > 0.0 ==> gain >= 0.0) && (d < 0.0 ==> gain <= 0.0)
    ensures s >= 0.0 && (d > 0.0 ==> s > t) && (d < 0.0 ==> s < t)
  {
    assert s == gain / d;
    if d > 0.0 {
      if s <= t { Scaled(s, t, d); }
    } else {
      if t <= s { Scaled(t, s, -d); }
    }
  }

  lemma SameSign(a: real, b: real)
    requires (a >= 0.0 && b >= 0.0) || (a <= 0.0 && b <= 0.0)
    ensures a * b >= 0.0
  {
  }

  lemma SlopeMoves(f: real -> real, l: real, z: real, s: real, t: real, x: real)
    requires Concave(f) && l >= 0.0 && z >= 0.0 && x >= 0.0 && z != l
    requires s * (z - l) == f(z) - f(l) && (z > l ==> s > t) && (z < l ==> s < t)
    requires f(x) <= f(l) + t * (x - l)
    ensures f(x) <= f(l) + s * (x - l)
  {
    if (z > l && x >= l) || (z < l && x <= l) {
      SameSign(s - t, x - l);
      assert s * (x - l) - t * (x - l) == (s - t) * (x - l);
    } else if x < l {
      assert ConcaveAt(f, x, l, z);
      ChordBelow(f(l) - f(x), f(z) - f(l), s, z - l, l - x);
      assert s * (x - l) == -(s * (l - x));
    } else {
      assert ConcaveAt(f, z, l, x);
      assert s * (l - z) == f(l) - f(z);
      ChordBelow(f(x) - f(l), f(l) - f(z), s, l - z, x - l);
    }
  }

  // s is the slope of a chord of width a and rise v; u is the rise over the neighbouring width b.
  lemma ChordBelow(u: real, v: real, s: real, a: real, b: real)
    requires a > 0.0 && b > 0.0 && s * a == v
    ensures u * a >= v * b ==> u >= s * b
    ensures u * a <= v * b ==> u <= s * b
  {
    assert v * b == (s * b) * a;
    assert u - s * b == (u * a - (s * b) * a) / a;
  }

  // Below its cap the slope of f is at least that at the level.
  lemma BelowCap(f: real -> real, l: real, s: real, c: real, y: real)
    requires Concave(f) && 0.0 <= y <= c && l >= 0.0
    requires f(c) <= f(l) + s * (c - l) && f(y) <= f(l) + s * (y - l)
    ensures f(y) <= f(Min(c, l)) + s * (y - Min(c, l))
  {
    if y < c < l {
      assert ConcaveAt(f, y, c, l);
      assert (s * (l - c)) * (c - y) <= (f(l) - f(c)) * (c - y);
      assert (s * (c - y)) * (l - c) == (s * (l - c)) * (c - y);
      CancelRight(s * (c - y), f(c) - f(y), l - c);
    }
  }

  lemma {:induction false} SumTangent(f: real -> real, s: real, x: seq<real>, y: seq<real>)
    requires |x| == |y| && forall i :: 0 <= i < |x| ==> f(y[i]) <= f(x[i]) + s * (y[i] - x[i])
    ensures SumOf(f, y) <= SumOf(f, x) + s * (Sum(y) - Sum(x))
    decreases |x|
  {
    if x != [] {
      var n := |x| - 1;
      SumTangent(f, s, x[..n], y[..n]);
      assert s * (Sum(y) - Sum(x)) == s * (Sum(y[..n]) - Sum(x[..n])) + s * (y[n] - x[n]);
    }
  }

  // One tangent slope at the level serves every index.
  lemma TangentAt(f: real -> real, caps: seq<real>, level: real, x: seq<real>, y: seq<real>) returns (s: real)
    requires Concave(f) && Growing(f) && level >= 0.0 && WaterFilled(caps, level, x)
    requires |y| == |caps| && forall i :: 0 <= i < |y| ==> 0.0 <= y[i] <= caps[i]
    ensures s >= 0.0 && SumOf(f, y) <= SumOf(f, x) + s * (Sum(y) - Sum(x))
  {
    var zs := y + caps;
    s := Supergradient(f, level, zs);
    forall i | 0 <= i < |x| ensures f(y[i]) <= f(x[i]) + s * (y[i] - x[i]) {
      assert zs[i] == y[i] && zs[|y| + i] == caps[i];
      BelowCap(f, level, s, caps[i], y[i]);
    }
    SumTangent(f, s, x, y);
  }

  lemma DropTangent(s: real, a: real, b: real, fx: real, fy: real)
    requires s >= 0.0 && a <= b && fy <= fx + s * (a - b)
    ensures fy <= fx
  {
    assert s * (a - b) <= 0.0;
  }

  lemma LevelBeats(f: real -> real, caps: seq<real>, level: real, x: seq<real>, y: seq<real>)
    requires Concave(f) && Growing(f) && level >= 0.0 && WaterFilled(caps, level, x)
    requires |y| == |caps| && forall i :: 0 <= i < |y| ==> 0.0 <= y[i] <= caps[i]
    requires Sum(y) <= Sum(x)
    ensures SumOf(f, y) <= SumOf(f, x)
  {
    var s := TangentAt(f, caps, level, x, y);
    DropTangent(s, Sum(y), Sum(x), SumOf(f, x), SumOf(f, y));
  }

  /** Water-filling is optimal for every concave growing f. */
  lemma WaterFillingOptimal(f: real -> real, caps: seq<real>, total: real, level: real, x: seq<real>, y: seq<real>)
    requires Concave(f) && Growing(f) && level >= 0.0
    requires WaterFilled(caps, level, x) && Sum(x) == Min(total, Sum(caps)) && Feasible(caps, total, y)
    ensures SumOf(f, y) <= SumOf(f, x)
  {
    SumBounds(y, caps);
    LevelBeats(f, caps, level, x, y);
  }

  // ---------------------------------------------------------------- optimality, convex

  lemma SpreadBy(f: real -> real, lo: real, d: real, q: real)
    requires Convex(f) && lo >= 0.0 && d > 0.0 && q >= 0.0
    ensures f(lo + d) + f(lo + d + q) <= f(lo) + f(lo + d + q + d)
  {
    var a := lo + d;
    var b := a + q;
    var hi := b + d;
    if q == 0.0 {
      Chord(f, lo, a, hi, d, d);
      CancelRight(f(a) - f(lo), f(hi) - f(a), d);
    } else {
      Chord(f, lo, a, b, d, q);
      Chord(f, a, b, hi, q, d);
      CancelRight(f(a) - f(lo), f(hi) - f(b), q);
    }
  }

  lemma Chord(f: real -> real, x: real, y: real, z: real, d: real, q: real)
    requires Convex(f) && 0.0 <= x < y < z && d == y - x && q == z - y
    ensures (f(y) - f(x)) * q <= (f(z) - f(y)) * d
  {
    assert ConvexAt(f, x, y, z);
  }

  // Moving mass from the smaller to the larger of two amounts does not lower f(lo) + f(hi).
  lemma SpreadPair(f: real -> real, lo: real, a: real, b: real, hi: real)
    requires Convex(f) && 0.0 <= lo <= a <= b <= hi && lo + hi == a + b
    ensures f(a) + f(b) <= f(lo) + f(hi)
  {
    var d, q := a - lo, b - a;
    if d > 0.0 {
      SpreadBy(f, lo, d, q);
      assert lo + d == a && lo + d + q == b && lo + d + q + d == hi;
    }
  }

  // Pushes the mass of v onto h, up to m.
  lemma {:induction false} Absorb(f: real -> real, v: seq<real>, h: real, m: real) returns (h': real, z: seq<real>)
    requires Convex(f) && 0.0 <= h <= m && forall i :: 0 <= i < |v| ==> 0.0 <= v[i] <= m
    ensures |z| == |v| && forall i :: 0 <= i < |v| ==> 0.0 <= z[i] <= v[i]
    ensures h <= h' <= m && h' + Sum(z) == h + Sum(v) && (h' == m || Sum(z) == 0.0)
    ensures f(h) + SumOf(f, v) <= f(h') + SumOf(f, z)
    decreases |v|
  {
    if v == [] { return h, []; }
    var n := |v| - 1;
    var h1, z0 := Absorb(f, v[..n], h, m);
    h' := Min(m, h1 + v[n]);
    var x := h1 + v[n] - h';
    SpreadPair(f, x, Min(h1, v[n]), Max(h1, v[n]), h');
    SumSnoc(f, z0, x);
    z := z0 + [x];
  }

  lemma {:induction false} GreedyOptimal(f: real -> real, cs: seq<real>, rem: real, v: seq<real>)
    requires Convex(f) && Growing(f) && NonNegative(cs) && Ascending(cs) && Feasible(cs, rem, v)
    ensures SumOf(f, v) <= SumOf(f, GreedyFill(cs, rem))
    decreases |cs|
  {
    if cs != [] {
      var n := |cs| - 1;
      var m := Min(cs[n], rem);
      SumNonNegative(v);
      forall i | 0 <= i < |v| ensures v[i] <= m {
        assert i < n ==> cs[i] <= cs[n];
      }
      var h, z := Absorb(f, v[..n], v[n], m);
      SumSnoc(f, GreedyFill(cs[..n], rem - m), m);
      GreedyOptimal(f, cs[..n], rem - m, z);
      assert GrowingAt(f, h, m);
    }
  }

  lemma SumOfAll(f: real -> real, caps: seq<real>, x: seq<real>)
    requires |x| == |caps|
    ensures SumOf(f, At(x, Order(caps, |caps|))) == SumOf(f, x) && Sum(At(x, Order(caps, |caps|))) == Sum(x)
  {
    SumOfOrder(f, caps, x, |caps|);
    TakeAll(f, x);
  }

  lemma TakeAll(f: real -> real, x: seq<real>)
    ensures SumOf(f, x[..|x|]) == SumOf(f, x) && Sum(x[..|x|]) == Sum(x)
  {
    assert x[..|x|] == x;
  }

  /** Filling the largest caps first is optimal for every convex growing f. */
  lemma LargestFirstOptimal(f: real -> real, caps: seq<real>, total: real, x: seq<real>, y: seq<real>)
    requires Convex(f) && Growing(f) && NonNegative(caps) && Feasible(caps, total, y)
    requires |x| == |caps| && Ordered(caps, Order(caps, |caps|)) && FilledFromTop(caps, Order(caps, |caps|), total, x)
    ensures SumOf(f, y) <= SumOf(f, x)
  {
    SumOfAll(f, caps, x);
    SumOfAll(f, caps, y);
    GreedyOnOrder(f, caps, Order(caps, |caps|), total, y);
  }

  lemma GreedyOnOrder(f: real -> real, caps: seq<real>, idx: seq<nat>, total: real, y: seq<real>)
    requires Convex(f) && Growing(f) && NonNegative(caps) && Ordered(caps, idx)
    requires |y| == |caps| && (forall i :: 0 <= i < |y| ==> 0.0 <= y[i] <= caps[i]) && Sum(At(y, idx)) <= total
    ensures SumOf(f, At(y, idx)) <= SumOf(f, GreedyFill(At(caps, idx), total))
  {
    GreedyOptimal(f, At(caps, idx), total, At(y, idx));
  }

  // ---------------------------------------------------------------- instances of x^a

  function Identity(x: real): real { x }

  function Square(x: real): real { x * x }

  // a = 1: both branches apply.
  lemma IdentityIsBoth()
    ensures Concave(Identity) && Convex(Identity) && Growing(Identity)
  {
  }

  // a = 2, on the non-negative reals.
  lemma SquareIsConvex()
    ensures Convex(Square) && Growing(Square)
  {
    forall x: real, y: real, z: real ensures ConvexAt(Square, x, y, z) {
      if 0.0 <= x < y < z { SquareSlopes(x, y, z); }
    }
    forall x: real, y: real ensures GrowingAt(Square, x, y) {
      assert Square(y) - Square(x) == (y - x) * (y + x);
    }
  }

  lemma SquareSlopes(x: real, y: real, z: real)
    requires 0.0 <= x < y < z
    ensures (Square(y) - Square(x)) * (z - y) <= (Square(z) - Square(y)) * (y - x)
  {
    var p, q := y - x, z - y;
    assert Square(y) - Square(x) == (x + y) * p;
    assert Square(z) - Square(y) == (y + z) * q;
    Reassociate(x + y, p, q);
    Reassociate(y + z, q, p);
    SameSign(p, q);
    SameSign(z - x, p * q);
    assert (y + z) * (q * p) - (x + y) * (p * q) == (z - x) * (p * q);
  }

  lemma Reassociate(a: real, b: real, c: real)
    ensures (a * b) * c == a * (b * c)
  {
  }
}
