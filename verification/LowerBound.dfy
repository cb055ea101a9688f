module LowerBound
  /**
    When the conservative share really is the least a listed option can have (internal/readout/readout.go,
    package comment): hidden spellings of the other listed options are not in its denominator, and hidden
    mass below the round-off counts as none. For temperatures of at least 1 the exact condition is a
    comparison of the left mass with the absent options; LowTemperature has the conditions below 1.
  */
{
  import opened Numeric
  import opened Wrappers
  import opened Allocation
  import opened Worlds
  import R = Readout

  // ---------------------------------------------------------------- powers, strictly

  ghost predicate RisesAt(f: real -> real, x: real, y: real) { 0.0 <= x < y ==> f(x) < f(y) }

  // The slope to the right of y is smaller.
  ghost predicate BendsAt(f: real -> real, x: real, y: real, z: real) {
    0.0 <= x < y < z ==> (f(y) - f(x)) * (z - y) > (f(z) - f(y)) * (y - x)
  }

  ghost predicate Rises(f: real -> real) { forall x: real, y: real :: RisesAt(f, x, y) }

  ghost predicate Bends(f: real -> real) { forall x: real, y: real, z: real :: BendsAt(f, x, y, z) }

  function Negated(f: real -> real): real -> real { x => -f(x) }

  // x^a again: the identity at a = 1, strictly bent elsewhere.
  ghost predicate StrictPower(f: real -> real, a: real) {
    && R.Power(f, a)
    && Rises(f)
    && (a == 1.0 ==> forall x: real :: x >= 0.0 ==> f(x) == x)
    && (a < 1.0 ==> Bends(f))
    && (a > 1.0 ==> Bends(Negated(f)))
  }

  lemma Outweighs(u: real, v: real, w: real, d: real, q: real)
    requires d > 0.0 && q > 0.0 && u * q > v * d && v * d > w * q
    ensures u > w
  {
    if u <= w { Scaled(u, w, q); }
  }

  // Of two amounts, taking d from the larger and giving it to the smaller gains where f bends down.
  lemma Trade(f: real -> real, lo: real, hi: real, d: real)
    requires Bends(f) && 0.0 <= lo && d > 0.0 && lo + d <= hi - d
    ensures f(lo) + f(hi) < f(lo + d) + f(hi - d)
  {
    var p, q := lo + d, hi - d;
    if p == q {
      assert BendsAt(f, lo, p, hi);
      if f(p) - f(lo) <= f(hi) - f(p) { Scaled(f(p) - f(lo), f(hi) - f(p), d); }
    } else {
      assert BendsAt(f, lo, p, q) && BendsAt(f, p, q, hi);
      Outweighs(f(p) - f(lo), f(q) - f(p), f(hi) - f(q), d, q - p);
    }
  }

  // Where f bends up, taking d from the smaller and giving it to the larger gains.
  lemma TradeUp(f: real -> real, x: real, m: real, d: real)
    requires Bends(Negated(f)) && 0.0 < d <= x <= m
    ensures f(x) + f(m) < f(x - d) + f(m + d)
  {
    Trade(Negated(f), x - d, m + d, d);
  }

  // ---------------------------------------------------------------- amounts on the absent letters

  // ys on the absent letters, in order, nothing on the listed ones.
  function Placed(mass: seq<Option<real>>, ys: seq<real>): (h: seq<real>)
    requires |ys| == R.Absent(mass)
    ensures |h| == |mass|
    decreases |mass|
  {
    if mass == [] then []
    else
      var n := |mass| - 1;
      if mass[n].Some? then Placed(mass[..n], ys) + [0.0]
      else Placed(mass[..n], ys[..|ys| - 1]) + [ys[|ys| - 1]]
  }

  lemma {:induction false} PlacedAbsent(mass: seq<Option<real>>, ys: seq<real>)
    requires |ys| == R.Absent(mass)
    ensures AbsentOf(mass, Placed(mass, ys)) == ys
    decreases |mass|
  {
    if mass != [] {
      var n := |mass| - 1;
      var z := if mass[n].Some? then ys else ys[..|ys| - 1];
      PlacedAbsent(mass[..n], z);
      assert Placed(mass, ys)[..n] == Placed(mass[..n], z);
    }
  }

  lemma {:induction false} PlacedListed(mass: seq<Option<real>>, ys: seq<real>)
    requires |ys| == R.Absent(mass)
    ensures forall l :: 0 <= l < |mass| && mass[l].Some? ==> Placed(mass, ys)[l] == 0.0
    decreases |mass|
  {
    if mass != [] {
      var n := |mass| - 1;
      PlacedListed(mass[..n], if mass[n].Some? then ys else ys[..|ys| - 1]);
    }
  }

  lemma PlacedIs(mass: seq<Option<real>>, ys: seq<real>)
    requires |ys| == R.Absent(mass)
    ensures AbsentOf(mass, Placed(mass, ys)) == ys && Sum(Placed(mass, ys)) == Sum(ys)
    ensures forall l :: 0 <= l < |mass| && mass[l].Some? ==> Placed(mass, ys)[l] == 0.0
  {
    PlacedAbsent(mass, ys);
    PlacedListed(mass, ys);
    NoGain(Identity, mass, Placed(mass, ys));
    MassSplits(mass, Placed(mass, ys));
  }

  lemma {:induction false} PlacedBounds(mass: seq<Option<real>>, ys: seq<real>, b: real)
    requires |ys| == R.Absent(mass) && b >= 0.0 && forall k :: 0 <= k < |ys| ==> 0.0 <= ys[k] <= b
    ensures forall l :: 0 <= l < |mass| ==> 0.0 <= Placed(mass, ys)[l] <= b
    decreases |mass|
  {
    if mass != [] {
      var n := |mass| - 1;
      PlacedBounds(mass[..n], if mass[n].Some? then ys else ys[..|ys| - 1], b);
    }
  }

  lemma PlacedWeight(f: real -> real, mass: seq<Option<real>>, ys: seq<real>)
    requires |ys| == R.Absent(mass)
    ensures SumOf(f, Held(mass, Placed(mass, ys))) == SumOf(f, R.Known(mass)) + SumOf(f, ys)
  {
    PlacedIs(mass, ys);
    NoGain(f, mass, Placed(mass, ys));
    WeightSplits(f, mass, Placed(mass, ys));
  }

  lemma PlacedAllowed(mass: seq<Option<real>>, ys: seq<real>, pmin: real, total: real, spellings: int, room: seq<nat>)
    requires |ys| == R.Absent(mass) && RoomOf(room, mass, spellings) && pmin > 0.0 && spellings >= 1
    requires Sum(ys) <= total && forall k :: 0 <= k < |ys| ==> 0.0 <= ys[k] <= spellings as real * pmin
    ensures Allowed(Placed(mass, ys), pmin, total, room)
  {
    Scaled(0.0, spellings as real, pmin);
    PlacedIs(mass, ys);
    PlacedCapped(mass, ys, pmin, spellings as real * pmin, spellings, room);
  }

  lemma PlacedCapped(mass: seq<Option<real>>, ys: seq<real>, pmin: real, full: real, spellings: int, room: seq<nat>)
    requires |ys| == R.Absent(mass) && RoomOf(room, mass, spellings) && pmin > 0.0
      && full == spellings as real * pmin && full >= 0.0
    requires forall k :: 0 <= k < |ys| ==> 0.0 <= ys[k] <= full
    ensures forall l :: 0 <= l < |mass| ==> Hideable(Placed(mass, ys)[l], room[l], pmin)
  {
    PlacedListed(mass, ys);
    PlacedBounds(mass, ys, full);
    forall l | 0 <= l < |mass| ensures Hideable(Placed(mass, ys)[l], room[l], pmin) {
      CapOf(Placed(mass, ys)[l], mass[l].Some?, room[l], pmin, full, spellings);
    }
  }

  lemma CapOf(h: real, listed: bool, room: nat, pmin: real, full: real, spellings: int)
    requires full == spellings as real * pmin && pmin > 0.0 && 0.0 <= h <= full
    requires if listed then h == 0.0 else room == spellings
    ensures Hideable(h, room, pmin)
  {
    if listed { Scaled(0.0, room as real, pmin); }
  }

  function Even(n: nat, v: real): (ys: seq<real>)
    ensures |ys| == n && forall k :: 0 <= k < n ==> ys[k] == v
  {
    seq(n, _ => v)
  }

  lemma EvenSums(f: real -> real, n: nat, v: real)
    ensures Sum(Even(n, v)) == n as real * v && SumOf(f, Even(n, v)) == n as real * f(v)
  {
    EvenUpTo(f, n, n as real, v, f(v));
  }

  lemma {:induction false} EvenUpTo(f: real -> real, n: nat, k: real, v: real, w: real)
    requires k == n as real && w == f(v)
    ensures Sum(Even(n, v)) == k * v && SumOf(f, Even(n, v)) == k * w
    decreases n
  {
    if n > 0 {
      EvenUpTo(f, n - 1, k - 1.0, v, w);
      assert Even(n, v) == Even(n - 1, v) + [v];
      SumSnoc(f, Even(n - 1, v), v);
      Distribute(k - 1.0, v);
      Distribute(k - 1.0, w);
    }
  }

  lemma Distribute(k: real, v: real)
    ensures (k + 1.0) * v == k * v + v
  {
  }

  // ---------------------------------------------------------------- a heavier choice breaks the bound

  ghost predicate Setting(mass: seq<Option<real>>, room: seq<nat>, pmin: real, spellings: int, f: real -> real,
      a: real)
  {
    StrictPower(f, a) && R.MassesOk(mass) && RoomOf(room, mass, spellings) && pmin > 0.0 && spellings >= 1
  }

  lemma Breaks(c: seq<real>, mass: seq<Option<real>>, pmin: real, total: real, room: seq<nat>, f: real -> real, i: nat,
      z: real, h: seq<real>)
    requires |room| == |mass| == |c| && i < |mass| && mass[i].Some? && Allowed(h, pmin, total, room) && h[i] == 0.0
    requires f(mass[i].value) > 0.0 && z > 0.0 && c[i] == f(mass[i].value) / z && SumOf(f, Held(mass, h)) > z
    ensures !NeverBelow(c, mass, pmin, total, room, f, i)
  {
    var w := WorldOf(h, pmin, total, room);
    assert Held(mass, h)[i] == mass[i].value;
    StrictlySmaller(f(mass[i].value), z, SumOf(f, Held(mass, h)));
    assert WorldShare(f, mass, w, i) == f(mass[i].value) / SumOf(f, Held(mass, h));
  }

  // Option j goes from p to q.
  lemma HeldUpdate(f: real -> real, mass: seq<Option<real>>, h: seq<real>, j: nat, v: real, p: real, q: real)
    requires |h| == |mass| && j < |mass| && p == Value(mass[j]) + h[j] && q == Value(mass[j]) + v
    ensures SumOf(f, Held(mass, h[j := v])) == SumOf(f, Held(mass, h)) - f(p) + f(q)
  {
    SumOfUpdate(f, Held(mass, h), j, q);
    assert Held(mass, h[j := v]) == Held(mass, h)[j := q];
  }

  lemma TwoUpdates(f: real -> real, mass: seq<Option<real>>, h: seq<real>, h': seq<real>, l: nat, k: nat, x: real,
      y: real, a: real, p: real, b: real, q: real)
    requires |h| == |mass| && l < |h| && k < |h| && l != k && h' == h[l := x]
    requires a == Value(mass[l]) + h[l] && p == Value(mass[l]) + x && b == Value(mass[k]) + h[k]
      && q == Value(mass[k]) + y
    ensures SumOf(f, Held(mass, h'[k := y])) == SumOf(f, Held(mass, h)) - f(a) + f(p) - f(b) + f(q)
  {
    HeldUpdate(f, mass, h, l, x, a, p);
    HeldUpdate(f, mass, h', k, y, b, q);
  }

  lemma OneSpelling(room: nat, pmin: real, v: real)
    requires room >= 1 && 0.0 <= v <= pmin
    ensures Hideable(v, room, pmin)
  {
    Scaled(1.0, room as real, pmin);
  }

  lemma AllowedUpdate(h: seq<real>, pmin: real, total: real, room: seq<nat>, j: nat, v: real)
    requires Allowed(h, pmin, total, room) && j < |h| && Hideable(v, room[j], pmin) && Sum(h) - h[j] + v <= total
    ensures Allowed(h[j := v], pmin, total, room)
  {
    SumUpdate(h, j, v);
  }

  // v on option j, which held nothing hidden, on top of what is already there.
  lemma Raised(mass: seq<Option<real>>, room: seq<nat>, pmin: real, total: real, f: real -> real, h: seq<real>, j: nat,
      v: real)
    requires |room| == |mass| && Rises(f) && R.MassesOk(mass) && Allowed(h, pmin, total, room)
    requires j < |mass| && room[j] >= 1 && h[j] == 0.0 && 0.0 < v <= pmin && Sum(h) + v <= total
    ensures Allowed(h[j := v], pmin, total, room) && SumOf(f, Held(mass, h[j := v])) > SumOf(f, Held(mass, h))
  {
    OneSpelling(room[j], pmin, v);
    AllowedUpdate(h, pmin, total, room, j, v);
    RaisedWeight(mass, f, h, j, v, Value(mass[j]));
  }

  lemma RaisedWeight(mass: seq<Option<real>>, f: real -> real, h: seq<real>, j: nat, v: real, m: real)
    requires |h| == |mass| && j < |mass| && Rises(f) && h[j] == 0.0 && v > 0.0 && m == Value(mass[j]) >= 0.0
    ensures SumOf(f, Held(mass, h[j := v])) > SumOf(f, Held(mass, h))
  {
    HeldUpdate(f, mass, h, j, v, m, m + v);
    assert RisesAt(f, m, m + v);
  }

  // v moved from absent letter k to listed option j.
  lemma Moved(mass: seq<Option<real>>, room: seq<nat>, pmin: real, total: real, f: real -> real, h: seq<real>, k: nat,
      j: nat, v: real)
    requires |room| == |mass| && Allowed(h, pmin, total, room) && k < |mass| && mass[k].None? && j < |mass|
      && mass[j].Some?
    requires h[j] == 0.0 && 0.0 < v <= h[k] && Hideable(v, room[j], pmin)
    requires f(h[k]) + f(mass[j].value) < f(h[k] - v) + f(mass[j].value + v)
    ensures var g := h[k := h[k] - v][j := v];
      Allowed(g, pmin, total, room) && SumOf(f, Held(mass, g)) > SumOf(f, Held(mass, h))
  {
    MovedAllowed(room, pmin, total, h, k, j, v);
    MovedWeight(mass, f, h, h[k := h[k] - v], k, j, v);
  }

  lemma MovedWeight(mass: seq<Option<real>>, f: real -> real, h: seq<real>, h': seq<real>, k: nat, j: nat, v: real)
    requires |h| == |mass| && k < |mass| && mass[k].None? && j < |mass| && mass[j].Some? && h[j] == 0.0
    requires h' == h[k := h[k] - v] && f(h[k]) + f(mass[j].value) < f(h[k] - v) + f(mass[j].value + v)
    ensures SumOf(f, Held(mass, h'[j := v])) > SumOf(f, Held(mass, h))
  {
    var x, m := h[k], mass[j].value;
    HeldUpdate(f, mass, h, k, x - v, x, x - v);
    HeldUpdate(f, mass, h', j, v, m, m + v);
  }

  lemma MovedAllowed(room: seq<nat>, pmin: real, total: real, h: seq<real>, k: nat, j: nat, v: real)
    requires Allowed(h, pmin, total, room) && k < |h| && j < |h| && k != j
    requires h[j] == 0.0 && 0.0 < v <= h[k] && Hideable(v, room[j], pmin)
    ensures Allowed(h[k := h[k] - v][j := v], pmin, total, room)
  {
    SumUpdate(h, k, h[k] - v);
    AllowedUpdate(h, pmin, total, room, k, h[k] - v);
    AllowedUpdate(h[k := h[k] - v], pmin, total, room, j, v);
  }

  // ---------------------------------------------------------------- where the bound fails

  function Left(listed: real): real { Max(0.0, 1.0 - listed) }

  // The round-off cut applies: something is left and counted as nothing.
  predicate Cut(listed: real) { 0.0 < Left(listed) < R.UNLISTED_EPSILON }

  // A choice of amounts that weighs at least z, with room for more on option j.
  lemma RaiseBreaks(c: seq<real>, mass: seq<Option<real>>, pmin: real, total: real, room: seq<nat>, f: real -> real,
      i: nat, z: real, h: seq<real>, j: nat)
    requires |room| == |mass| == |c| && i < |mass| && mass[i].Some? && Allowed(h, pmin, total, room) && h[i] == 0.0
    requires f(mass[i].value) > 0.0 && z > 0.0 && c[i] == f(mass[i].value) / z && SumOf(f, Held(mass, h)) >= z
    requires Rises(f) && R.MassesOk(mass) && pmin > 0.0 && Sum(h) < total
    requires j < |mass| && j != i && room[j] >= 1 && h[j] == 0.0
    ensures !NeverBelow(c, mass, pmin, total, room, f, i)
  {
    var v := Min(pmin, total - Sum(h));
    Raised(mass, room, pmin, total, f, h, j, v);
    Breaks(c, mass, pmin, total, room, f, i, z, h[j := v]);
  }

  // The same with mass moved from absent letter k to listed option j.
  lemma MoveBreaks(c: seq<real>, mass: seq<Option<real>>, pmin: real, total: real, room: seq<nat>, f: real -> real,
      i: nat, z: real, h: seq<real>, j: nat, k: nat, v: real)
    requires |room| == |mass| == |c| && i < |mass| && mass[i].Some? && Allowed(h, pmin, total, room) && h[i] == 0.0
    requires f(mass[i].value) > 0.0 && z > 0.0 && c[i] == f(mass[i].value) / z && SumOf(f, Held(mass, h)) >= z
    requires j < |mass| && j != i && mass[j].Some? && h[j] == 0.0 && k < |mass| && mass[k].None?
    requires 0.0 < v <= h[k] && Hideable(v, room[j], pmin)
      && f(h[k]) + f(mass[j].value) < f(h[k] - v) + f(mass[j].value + v)
    ensures !NeverBelow(c, mass, pmin, total, room, f, i)
  {
    Moved(mass, room, pmin, total, f, h, k, j, v);
    Breaks(c, mass, pmin, total, room, f, i, z, h[k := h[k] - v][j := v]);
  }

  // h puts ys on the absent letters and nothing on the others, and weighs at least z.
  ghost predicate Chosen(h: seq<real>, mass: seq<Option<real>>, ys: seq<real>, pmin: real, total: real, room: seq<nat>,
      f: real -> real, z: real)
  {
    && |h| == |mass| == |room| && Allowed(h, pmin, total, room) && Sum(h) == Sum(ys)
    && (forall l :: 0 <= l < |mass| && mass[l].Some? ==> h[l] == 0.0)
    && SumOf(f, Held(mass, h)) >= z
  }

  lemma Choose(mass: seq<Option<real>>, ys: seq<real>, pmin: real, full: real, total: real, spellings: int,
      room: seq<nat>, f: real -> real, alloc: seq<real>, z: real)
    requires |ys| == R.Absent(mass) && RoomOf(room, mass, spellings) && pmin > 0.0 && spellings >= 1
      && full == spellings as real * pmin
    requires Sum(ys) <= total && forall k :: 0 <= k < |ys| ==> 0.0 <= ys[k] <= full
    requires z == SumOf(f, R.Known(mass)) + SumOf(f, alloc) && SumOf(f, alloc) <= SumOf(f, ys)
    ensures Chosen(Placed(mass, ys), mass, ys, pmin, total, room, f, z)
  {
    PlacedIs(mass, ys);
    PlacedWeight(f, mass, ys);
    PlacedAllowed(mass, ys, pmin, total, spellings, room);
  }

  // Option i's part in the conservative distribution, of weight z.
  ghost predicate Weighs(c: seq<real>, mass: seq<Option<real>>, f: real -> real, alloc: seq<real>, i: nat, z: real)
    requires i < |mass|
  {
    && |c| == |mass| && mass[i].Some? && |alloc| == R.Absent(mass) && z == SumOf(f, R.Known(mass)) + SumOf(f, alloc)
      && z > 0.0
    && f(mass[i].value) > 0.0 && c[i] == f(mass[i].value) / z
  }

  lemma ZeroAllocation(f: real -> real, alloc: seq<real>, spellings: int, pmin: real)
    requires f(0.0) == 0.0 && R.Worst(f, R.Bound(spellings, pmin, 0.0), 0.0, alloc)
    ensures SumOf(f, alloc) == 0.0
  {
    R.SumOfZeroWeights(f, alloc);
  }

  // Everything cut off: any other option with room for a hidden spelling takes some of it.
  lemma CutBreaks(c: seq<real>, mass: seq<Option<real>>, room: seq<nat>, pmin: real, left: real, spellings: int,
      f: real -> real, alloc: seq<real>, i: nat, z: real, j: nat)
    requires RoomOf(room, mass, spellings) && pmin > 0.0 && spellings >= 1 && R.MassesOk(mass) && Rises(f)
      && f(0.0) == 0.0
    requires i < |mass| && Weighs(c, mass, f, alloc, i, z) && R.Worst(f, R.Bound(spellings, pmin, 0.0), 0.0, alloc)
      && left > 0.0
    requires j < |mass| && j != i && room[j] >= 1
    ensures !NeverBelow(c, mass, pmin, left, room, f, i)
  {
    var ys := R.Zeros(R.Absent(mass));
    ZeroAllocation(f, alloc, spellings, pmin);
    R.SumOfZeroWeights(f, ys);
    SumOfZeros(ys);
    Scaled(0.0, spellings as real, pmin);
    Choose(mass, ys, pmin, spellings as real * pmin, left, spellings, room, f, alloc, z);
    PlacedBounds(mass, ys, 0.0);
    RaiseBreaks(c, mass, pmin, left, room, f, i, z, Placed(mass, ys), j);
  }

  lemma {:induction false} SumOfGrows(f: real -> real, xs: seq<real>, ys: seq<real>)
    requires Growing(f) && |xs| == |ys| && forall k :: 0 <= k < |xs| ==> 0.0 <= xs[k] <= ys[k]
    ensures SumOf(f, xs) <= SumOf(f, ys)
    decreases |xs|
  {
    if xs != [] {
      var n := |xs| - 1;
      SumOfGrows(f, xs[..n], ys[..n]);
      assert GrowingAt(f, xs[n], ys[n]);
    }
  }

  // Amounts that weigh no less than the allocation and do not use up what is left.
  lemma SurplusBreaks(c: seq<real>, mass: seq<Option<real>>, room: seq<nat>, pmin: real, full: real, left: real,
      spellings: int, f: real -> real, alloc: seq<real>, ys: seq<real>, i: nat, z: real, j: nat)
    requires RoomOf(room, mass, spellings) && pmin > 0.0 && spellings >= 1 && R.MassesOk(mass) && Rises(f)
    requires i < |mass| && Weighs(c, mass, f, alloc, i, z) && full == spellings as real * pmin
    requires |ys| == |alloc| && Within(ys, full, left) && Sum(ys) < left && SumOf(f, alloc) <= SumOf(f, ys)
    requires j < |mass| && j != i && mass[j].Some? && room[j] >= 1
    ensures !NeverBelow(c, mass, pmin, left, room, f, i)
  {
    Choose(mass, ys, pmin, full, left, spellings, room, f, alloc, z);
    RaiseBreaks(c, mass, pmin, left, room, f, i, z, Placed(mass, ys), j);
  }

  // When more is left than the absent letters can hide, those are full and the rest is elsewhere.
  lemma FullIsMore(f: real -> real, n: nat, full: real, left: real, alloc: seq<real>) returns (ys: seq<real>)
    requires Growing(f) && |alloc| == n && Within(alloc, Min(full, left), left) && full >= 0.0
      && n as real * full < left
    ensures |ys| == n && Within(ys, full, left) && Sum(ys) < left && SumOf(f, alloc) <= SumOf(f, ys)
  {
    ys := Even(n, full);
    EvenSums(f, n, full);
    SumOfGrows(f, alloc, ys);
  }

  // Every amount is on some absent letter.
  lemma {:induction false} PlacedFinds(mass: seq<Option<real>>, ys: seq<real>, t: nat) returns (k: nat)
    requires t < |ys| == R.Absent(mass)
    ensures k < |mass| && mass[k].None? && Placed(mass, ys)[k] == ys[t]
    decreases |mass|
  {
    var n, m := |mass| - 1, |ys| - 1;
    if mass[n].Some? { k := PlacedFinds(mass[..n], ys, t); }
    else if t < m { k := PlacedFinds(mass[..n], ys[..m], t); }
    else { k := n; }
  }

  lemma {:induction false} SomeAbsent(mass: seq<Option<real>>) returns (k: nat)
    requires R.Absent(mass) > 0
    ensures k < |mass| && mass[k].None?
    decreases |mass|
  {
    var n := |mass| - 1;
    if mass[n].None? { k := n; } else { k := SomeAbsent(mass[..n]); }
  }

  lemma LevelIs(left: real, n: nat, full: real)
    requires n > 0 && 0.0 < left <= n as real * full
    ensures 0.0 < left / n as real <= full && n as real * (left / n as real) == left && left / n as real <= left
  {
    var q := left / n as real;
    assert q * n as real == left;
    CancelRight(q, full, n as real);
    if q <= 0.0 { Scaled(q, 0.0, n as real); }
    Scaled(1.0, n as real, q);
  }

  // Nothing spread over the absent letters outweighs the even spread.
  lemma EvenIsBest(f: real -> real, n: nat, full: real, left: real, alloc: seq<real>)
    requires Concave(f) && Growing(f) && n > 0 && |alloc| == n && 0.0 < left <= n as real * full
    requires Sum(alloc) <= left && forall k :: 0 <= k < n ==> 0.0 <= alloc[k] <= Min(full, left)
    ensures SumOf(f, alloc) <= SumOf(f, Even(n, left / n as real)) && Sum(Even(n, left / n as real)) == left
  {
    var level := left / n as real;
    LevelIs(left, n, full);
    EvenSums(f, n, level);
    LevelBeats(f, Even(n, Min(full, left)), level, Even(n, level), alloc);
  }

  // Temperatures above 1: a listed option below the level of the absent ones is the better place.
  lemma LevelBreaks(c: seq<real>, mass: seq<Option<real>>, room: seq<nat>, pmin: real, full: real, left: real,
      spellings: int, f: real -> real, alloc: seq<real>, level: real, i: nat, z: real, j: nat)
    requires RoomOf(room, mass, spellings) && pmin > 0.0 && spellings >= 1 && R.MassesOk(mass) && Bends(f)
    requires i < |mass| && Weighs(c, mass, f, alloc, i, z) && full == spellings as real * pmin && R.Absent(mass) > 0
    requires Within(Even(R.Absent(mass), level), full, left) && SumOf(f, alloc) <= SumOf(f, Even(R.Absent(mass), level))
    requires j < |mass| && j != i && mass[j].Some? && room[j] >= 1 && mass[j].value < level
    ensures !NeverBelow(c, mass, pmin, left, room, f, i)
  {
    var ys := Even(R.Absent(mass), level);
    Choose(mass, ys, pmin, full, left, spellings, room, f, alloc, z);
    var k := PlacedFinds(mass, ys, 0);
    TradeBreaks(c, mass, room, pmin, left, f, ys, Placed(mass, ys), level, i, z, j, k);
  }

  lemma TradeBreaks(c: seq<real>, mass: seq<Option<real>>, room: seq<nat>, pmin: real, left: real, f: real -> real,
      ys: seq<real>, h: seq<real>, level: real, i: nat, z: real, j: nat, k: nat)
    requires Chosen(h, mass, ys, pmin, left, room, f, z) && Bends(f) && pmin > 0.0 && R.MassesOk(mass)
    requires |c| == |mass| && i < |mass| && mass[i].Some? && f(mass[i].value) > 0.0 && z > 0.0
      && c[i] == f(mass[i].value) / z
    requires j < |mass| && j != i && mass[j].Some? && room[j] >= 1 && mass[j].value < level
    requires k < |mass| && mass[k].None? && h[k] == level
    ensures !NeverBelow(c, mass, pmin, left, room, f, i)
  {
    var v := LevelTrade(f, mass[j].value, level, pmin);
    OneSpelling(room[j], pmin, v);
    MoveBreaks(c, mass, pmin, left, room, f, i, z, h, j, k, v);
  }

  lemma LevelTrade(f: real -> real, m: real, level: real, pmin: real) returns (v: real)
    requires Bends(f) && 0.0 <= m < level && pmin > 0.0
    ensures 0.0 < v <= pmin && v <= level && f(level) + f(m) < f(level - v) + f(m + v)
  {
    v := Min(pmin, (level - m) / 2.0);
    Trade(f, m, level, v);
  }

  // ---------------------------------------------------------------- where the bound holds

  // Adding d to m gains at most s * d.
  ghost predicate Slope(f: real -> real, s: real, m: real, d: real) { f(m + d) - f(m) <= s * d }

  lemma SlopeStep(s: real, a: real, b: real, u: real, d: real, a': real, b': real)
    requires a <= s * b && u <= s * d && a' == a + u && b' == b + d
    ensures a' <= s * b'
  {
    assert s * b' == s * b + s * d;
  }

  lemma {:induction false} GainTangent(f: real -> real, s: real, mass: seq<Option<real>>, h: seq<real>)
    requires |h| == |mass| && forall l :: 0 <= l < |mass| && mass[l].Some? ==> Slope(f, s, mass[l].value, h[l])
    ensures Gain(f, mass, h) <= s * Gain(Identity, mass, h)
    decreases |mass|
  {
    if mass != [] {
      var n := |mass| - 1;
      GainTangent(f, s, mass[..n], h[..n]);
      LastGain(f, s, mass, h, n, Gain(f, mass[..n], h[..n]), Gain(Identity, mass[..n], h[..n]));
    }
  }

  lemma LastGain(f: real -> real, s: real, mass: seq<Option<real>>, h: seq<real>, n: nat, a: real, b: real)
    requires |h| == |mass| == n + 1 && (mass[n].Some? ==> Slope(f, s, mass[n].value, h[n]))
    requires a == Gain(f, mass[..n], h[..n]) && b == Gain(Identity, mass[..n], h[..n]) && a <= s * b
    ensures Gain(f, mass, h) <= s * Gain(Identity, mass, h)
  {
    GainSnoc(f, mass, h);
    GainSnoc(Identity, mass, h);
    if mass[n].Some? {
      SlopeStep(s, a, b, Gain(f, mass, h) - a, h[n], Gain(f, mass, h), Gain(Identity, mass, h));
    }
  }

  lemma {:induction false} SumOfIdentity(f: real -> real, ys: seq<real>)
    requires (forall x: real :: x >= 0.0 ==> f(x) == x) && NonNegative(ys)
    ensures SumOf(f, ys) == Sum(ys)
    decreases |ys|
  {
    if ys != [] { SumOfIdentity(f, ys[..|ys| - 1]); }
  }

  lemma GainIdentity(f: real -> real, mass: seq<Option<real>>, h: seq<real>)
    requires (forall x: real :: x >= 0.0 ==> f(x) == x) && |h| == |mass| && R.MassesOk(mass) && NonNegative(h)
    ensures Gain(f, mass, h) <= Gain(Identity, mass, h)
  {
    GainTangent(f, 1.0, mass, h);
  }

  // Beyond the level, added mass gains at most the slope at the level.
  lemma TangentGain(f: real -> real, level: real, s: real, m: real, d: real)
    requires Concave(f) && 0.0 <= level <= m && d >= 0.0
    requires f(m) <= f(level) + s * (m - level) && f(m + d) <= f(level) + s * (m + d - level)
    ensures Slope(f, s, m, d)
  {
    if d > 0.0 && m > level {
      assert ConcaveAt(f, level, m, m + d);
      var x := m + d;
      Between(f(level), f(m), f(x), level, m, x, s, d);
    }
  }

  lemma Between(fl: real, fm: real, fx: real, level: real, m: real, x: real, s: real, d: real)
    requires level < m && d > 0.0 && x == m + d && (fm - fl) * (x - m) >= (fx - fm) * (m - level)
      && fm <= fl + s * (m - level)
    ensures fx - fm <= s * d
  {
    ChordGain(fm - fl, fx - fm, s, m - level, d);
  }

  lemma ChordGain(u: real, v: real, s: real, p: real, d: real)
    requires p > 0.0 && d > 0.0 && u <= s * p && u * d >= v * p
    ensures v <= s * d
  {
    Scaled(u, s * p, d);
    assert (s * p) * d == (s * d) * p;
    CancelRight(v, s * d, p);
  }

  // The even spread is one of the choices the worst allocation beats.
  lemma EvenReached(f: real -> real, n: nat, full: real, left: real, alloc: seq<real>)
    requires n > 0 && |alloc| == n && 0.0 < left <= n as real * full && R.Worst(f, Min(full, left), left, alloc)
    ensures var ys := Even(n, left / n as real);
      Sum(ys) == left && Within(ys, full, left) && SumOf(f, ys) <= SumOf(f, alloc)
    ensures left / n as real > 0.0
  {
    var level := left / n as real;
    EvenWithin(n, full, left, level);
    LevelBeaten(f, n, Min(full, left), left, level, alloc);
  }

  lemma EvenWithin(n: nat, full: real, left: real, level: real)
    requires n > 0 && 0.0 < left <= n as real * full && level == left / n as real
    ensures Sum(Even(n, level)) == left && 0.0 < level <= Min(full, left)
  {
    LevelIs(left, n, full);
    EvenSums(Identity, n, level);
  }

  lemma LevelBeaten(f: real -> real, n: nat, b: real, left: real, level: real, alloc: seq<real>)
    requires |alloc| == n && 0.0 <= level <= b && Sum(Even(n, level)) <= left && R.Worst(f, b, left, alloc)
    ensures SumOf(f, Even(n, level)) <= SumOf(f, alloc)
  {
    assert R.Beaten(f, b, left, alloc, Even(n, level));
  }

  // h without what it puts on option i: its total, and what it puts on absent and listed letters.
  lemma Cleared(mass: seq<Option<real>>, h: seq<real>, left: real, i: nat)
    requires |h| == |mass| && NonNegative(h) && Sum(h) <= left && i < |mass| && mass[i].Some?
    ensures NonNegative(AbsentOf(mass, h))
    ensures Sum(AbsentOf(mass, h)) + Gain(Identity, mass, h[i := 0.0]) <= left
  {
    SumUpdate(h, i, 0.0);
    GainWithout(Identity, mass, h, i);
    MassSplits(mass, h[i := 0.0]);
    SumNonNegative(h);
    AbsentBounds(mass, h, Sum(h));
  }

  // At temperature 1 only the total counts; ys reaches it.
  lemma LinearHolds(f: real -> real, mass: seq<Option<real>>, left: real, ys: seq<real>, h: seq<real>, i: nat)
    requires (forall x: real :: x >= 0.0 ==> f(x) == x) && R.MassesOk(mass)
    requires |h| == |mass| && NonNegative(h) && Sum(h) <= left && i < |mass| && mass[i].Some?
    requires NonNegative(ys) && Sum(ys) == left
    ensures Gain(f, mass, h[i := 0.0]) + SumOf(f, AbsentOf(mass, h)) <= SumOf(f, ys)
  {
    SumOfIdentity(f, ys);
    Cleared(mass, h, left, i);
    SumOfIdentity(f, AbsentOf(mass, h));
    GainIdentity(f, mass, h[i := 0.0]);
  }

  ghost predicate Reaches(mass: seq<Option<real>>, h: seq<real>, level: real, i: nat) {
    |h| == |mass| && forall l :: 0 <= l < |mass| && l != i && mass[l].Some? ==> h[l] == 0.0 || mass[l].value >= level
  }

  // Above temperature 1: every other listed option that can hide more lies at or above the level.
  lemma LevelHolds(f: real -> real, mass: seq<Option<real>>, left: real, level: real, n: nat, h: seq<real>, i: nat)
    requires Concave(f) && Growing(f) && R.MassesOk(mass)
    requires |h| == |mass| && NonNegative(h) && Sum(h) <= left && i < |mass| && mass[i].Some?
    requires n == R.Absent(mass) && level >= 0.0 && Sum(Even(n, level)) == left && Reaches(mass, h, level, i)
    ensures Gain(f, mass, h[i := 0.0]) + SumOf(f, AbsentOf(mass, h)) <= SumOf(f, Even(n, level))
  {
    var g, y := h[i := 0.0], AbsentOf(mass, h);
    Cleared(mass, h, left, i);
    LevelSum(f, mass, g, y, n, level, left, Gain(Identity, mass, g), Sum(y));
  }

  lemma LevelSum(f: real -> real, mass: seq<Option<real>>, g: seq<real>, y: seq<real>, n: nat, level: real, left: real,
      onListed: real, onAbsent: real)
    requires Concave(f) && Growing(f) && R.MassesOk(mass) && |g| == |mass| && NonNegative(g) && NonNegative(y)
      && level >= 0.0
    requires forall l :: 0 <= l < |mass| && mass[l].Some? ==> g[l] == 0.0 || mass[l].value >= level
    requires |y| == n && left == Sum(Even(n, level)) && onListed == Gain(Identity, mass, g) && onAbsent == Sum(y)
    requires onAbsent + onListed <= left
    ensures Gain(f, mass, g) + SumOf(f, y) <= SumOf(f, Even(n, level))
  {
    var s := LevelParts(f, mass, g, y, n, level, left, onListed, onAbsent);
    JoinSlopes(s, onListed, onAbsent, left, Gain(f, mass, g), SumOf(f, y), SumOf(f, Even(n, level)));
  }

  lemma LevelParts(f: real -> real, mass: seq<Option<real>>, g: seq<real>, y: seq<real>, n: nat, level: real,
      left: real, onListed: real, onAbsent: real) returns (s: real)
    requires Concave(f) && Growing(f) && R.MassesOk(mass) && |g| == |mass| && NonNegative(g) && NonNegative(y)
      && level >= 0.0
    requires forall l :: 0 <= l < |mass| && mass[l].Some? ==> g[l] == 0.0 || mass[l].value >= level
    requires |y| == n && left == Sum(Even(n, level)) && onListed == Gain(Identity, mass, g) && onAbsent == Sum(y)
    ensures s >= 0.0 && Gain(f, mass, g) <= s * onListed
      && SumOf(f, y) <= SumOf(f, Even(n, level)) + s * (onAbsent - left)
  {
    s := LevelSlope(f, mass, g, level, y);
    GainTangent(f, s, mass, g);
    EvenTangent(f, s, n, level, y, onAbsent, left);
  }

  lemma EvenTangent(f: real -> real, s: real, n: nat, level: real, y: seq<real>, total: real, left: real)
    requires |y| == n && total == Sum(y) && left == Sum(Even(n, level))
    requires forall k :: 0 <= k < |y| ==> f(y[k]) <= f(level) + s * (y[k] - level)
    ensures SumOf(f, y) <= SumOf(f, Even(n, level)) + s * (total - left)
  {
    SumTangent(f, s, Even(n, level), y);
  }

  lemma LevelSlope(f: real -> real, mass: seq<Option<real>>, g: seq<real>, level: real, y: seq<real>) returns (s: real)
    requires Concave(f) && Growing(f) && R.MassesOk(mass) && |g| == |mass| && NonNegative(g) && NonNegative(y)
      && level >= 0.0
    requires forall l :: 0 <= l < |mass| && mass[l].Some? ==> g[l] == 0.0 || mass[l].value >= level
    ensures s >= 0.0 && forall k :: 0 <= k < |y| ==> f(y[k]) <= f(level) + s * (y[k] - level)
    ensures forall l :: 0 <= l < |mass| && mass[l].Some? ==> Slope(f, s, mass[l].value, g[l])
  {
    var base, held := Held(mass, R.Zeros(|mass|)), Held(mass, g);
    var zs := y + base + held;
    s := Supergradient(f, level, zs);
    forall k | 0 <= k < |y| ensures f(y[k]) <= f(level) + s * (y[k] - level) { assert zs[k] == y[k]; }
    forall l | 0 <= l < |mass| && mass[l].Some? ensures Slope(f, s, mass[l].value, g[l]) {
      assert zs[|y| + l] == base[l] == mass[l].value && zs[|y| + |mass| + l] == held[l] == mass[l].value + g[l];
      if g[l] > 0.0 { TangentGain(f, level, s, mass[l].value, g[l]); }
    }
  }

  lemma JoinSlopes(s: real, g: real, y: real, left: real, gain: real, weight: real, even: real)
    requires s >= 0.0 && y + g <= left && gain <= s * g && weight <= even + s * (y - left)
    ensures gain + weight <= even
  {
    assert s * g + s * (y - left) == s * (g + y - left);
    Scaled(g + y, left, s);
    assert s * (g + y - left) == (g + y) * s - left * s;
  }

  // ---------------------------------------------------------------- the exact condition

  // Another listed option that can hide more.
  ghost predicate Other(mass: seq<Option<real>>, room: seq<nat>, i: nat, j: nat)
    requires |room| == |mass|
  {
    j < |mass| && j != i && mass[j].Some? && room[j] > 0
  }

  // Every other listed option has all its spellings listed.
  ghost predicate Alone(mass: seq<Option<real>>, room: seq<nat>, i: nat)
    requires |room| == |mass|
  {
    forall j: nat :: !Other(mass, room, i, j)
  }

  // The most one letter can hide, and n of them.
  function Full(spellings: int, pmin: real): real { spellings as real * pmin }

  function Times(n: nat, full: real): real { n as real * full }

  // What is left fits the absent letters; above temperature 1 their even level must not exceed
  // the other listed options that can hide more.
  ghost predicate Fits(mass: seq<Option<real>>, room: seq<nat>, pmin: real, left: real, spellings: int, a: real, i: nat)
    requires |room| == |mass|
  {
    && left <= Times(R.Absent(mass), Full(spellings, pmin))
    && (a < 1.0 ==> Tops(mass, room, i, R.Absent(mass), left))
  }

  // n times the mass of each other listed option that can hide more is at least left.
  ghost predicate Tops(mass: seq<Option<real>>, room: seq<nat>, i: nat, n: nat, left: real)
    requires |room| == |mass|
  {
    forall j: nat :: Other(mass, room, i, j) ==> left <= Times(n, mass[j].value)
  }

  ghost predicate Covered(mass: seq<Option<real>>, room: seq<nat>, pmin: real, listed: real, spellings: int, a: real,
      i: nat)
    requires |room| == |mass| && i < |mass| && mass[i].Some?
  {
    || mass[i].value == 0.0 || Left(listed) == 0.0
    || (Alone(mass, room, i) && (R.Absent(mass) == 0 || !Cut(listed)))
    || (a <= 1.0 && !Cut(listed) && Fits(mass, room, pmin, Left(listed), spellings, a, i))
  }

  lemma ZeroShare(f: real -> real, mass: seq<Option<real>>, h: seq<real>, i: nat)
    requires R.Weighing(f) && R.MassesOk(mass) && |h| == |mass| && i < |mass| && NonNegative(h)
    ensures R.Share(f, Held(mass, h), i) >= 0.0
  {
    HeldWeight(f, mass, h, i);
    NonNegativeRatio(f(Held(mass, h)[i]), SumOf(f, Held(mass, h)));
  }

  lemma NonNegativeRatio(x: real, z: real)
    requires x >= 0.0 && z >= 0.0
    ensures z != 0.0 ==> x / z >= 0.0
  {
  }

  // No hidden mass on the other listed options.
  lemma AloneHidesNoOther(w: World, mass: seq<Option<real>>, pmin: real, total: real, room: seq<nat>, i: nat)
    requires Consistent(w, pmin, total, room) && pmin > 0.0 && |room| == |mass|
    requires total == 0.0 || Alone(mass, room, i)
    ensures HidesNoOther(w, mass, i)
  {
    WorldAllowed(w, pmin, total, room);
    SumNonNegative(Extra(w, |room|));
    forall l: nat | l < |mass| && l != i && mass[l].Some? ensures MassIn(w, l) == 0.0 {
      assert Extra(w, |room|)[l] == MassIn(w, l);
      if room[l] == 0 { NoRoom(MassIn(w, l), room[l], pmin); } else { assert Other(mass, room, i, l); }
    }
  }

  // Without absent letters the bound and the total of the allocation are immaterial.
  lemma NothingToAllocate(c: seq<real>, mass: seq<Option<real>>, b: real, total: real, b': real, total': real,
      f: real -> real)
    requires R.ConservativeOf(c, mass, b, total, f) && R.Absent(mass) == 0 && total' >= 0.0
    ensures R.ConservativeOf(c, mass, b', total', f)
  {
    var alloc: seq<real> :| |alloc| == R.Absent(mass) && R.Worst(f, b, total, alloc)
      && c == R.Shares(f, R.Fill(mass, alloc));
    forall y: seq<real> ensures R.Beaten(f, b', total', alloc, y) {}
    assert R.Worst(f, b', total', alloc);
  }

  lemma UnhiddenHolds(c: seq<real>, mass: seq<Option<real>>, room: seq<nat>, listed: real, pmin: real, spellings: int,
      f: real -> real, a: real, i: nat, w: World)
    requires Setting(mass, room, pmin, spellings, f, a)
    requires R.ConservativeOf(c, mass, R.Bound(spellings, pmin, R.Unlisted(listed)), R.Unlisted(listed), f)
    requires i < |mass| == |c| && mass[i].Some? && Consistent(w, pmin, Left(listed), room)
    requires Left(listed) == 0.0 || (Alone(mass, room, i) && (R.Absent(mass) == 0 || !Cut(listed)))
    ensures c[i] <= WorldShare(f, mass, w, i)
  {
    var left := Left(listed);
    AloneHidesNoOther(w, mass, pmin, left, room, i);
    if R.Absent(mass) == 0 {
      var cut := R.Unlisted(listed);
      NothingToAllocate(c, mass, R.Bound(spellings, pmin, cut), cut, R.Bound(spellings, pmin, left), left, f);
    }
    ConservativeIsWorst(c, mass, pmin, left, spellings, room, f, w, i);
  }

  lemma FittingGain(mass: seq<Option<real>>, room: seq<nat>, pmin: real, left: real, spellings: int, f: real -> real,
      a: real, alloc: seq<real>, h: seq<real>, i: nat)
    requires Setting(mass, room, pmin, spellings, f, a) && a <= 1.0 && i < |mass| && mass[i].Some? && left > 0.0
    requires |alloc| == R.Absent(mass) && R.Worst(f, R.Bound(spellings, pmin, left), left, alloc)
    requires Allowed(h, pmin, left, room) && Fits(mass, room, pmin, left, spellings, a, i)
    ensures Gain(f, mass, h[i := 0.0]) + SumOf(f, AbsentOf(mass, h)) <= SumOf(f, alloc)
  {
    FittingChoice(mass, room, pmin, Full(spellings, pmin), left, f, a, alloc, h, R.Absent(mass), i);
  }

  lemma CountPositive(n: nat, full: real, left: real)
    requires 0.0 < left <= Times(n, full)
    ensures n > 0 && left <= n as real * full
  {
  }

  lemma FittingChoice(mass: seq<Option<real>>, room: seq<nat>, pmin: real, full: real, left: real, f: real -> real,
      a: real, alloc: seq<real>, h: seq<real>, n: nat, i: nat)
    requires R.Power(f, a) && (a == 1.0 ==> forall x: real :: x >= 0.0 ==> f(x) == x) && a <= 1.0 && R.MassesOk(mass)
    requires |room| == |mass| && i < |mass| && mass[i].Some? && 0.0 < left <= Times(n, full)
    requires |alloc| == n == R.Absent(mass) && R.Worst(f, Min(full, left), left, alloc) && Allowed(h, pmin, left, room)
    requires a < 1.0 ==> Tops(mass, room, i, n, left)
    ensures Gain(f, mass, h[i := 0.0]) + SumOf(f, AbsentOf(mass, h)) <= SumOf(f, alloc)
  {
    CountPositive(n, full, left);
    var level := left / n as real;
    EvenReached(f, n, full, left, alloc);
    if a == 1.0 {
      LinearHolds(f, mass, left, Even(n, level), h, i);
    } else {
      AtLevel(mass, room, pmin, left, h, n, level, i);
      LevelHolds(f, mass, left, level, n, h, i);
    }
  }

  lemma AtLevel(mass: seq<Option<real>>, room: seq<nat>, pmin: real, left: real, h: seq<real>, n: nat, level: real,
      i: nat)
    requires |room| == |mass| && n > 0 && level == left / n as real && Allowed(h, pmin, left, room)
      && Tops(mass, room, i, n, left)
    ensures Reaches(mass, h, level, i)
  {
    forall l | 0 <= l < |mass| && l != i && mass[l].Some? ensures h[l] == 0.0 || mass[l].value >= level {
      if room[l] > 0 {
        assert Other(mass, room, i, l);
        AtMost(left, n as real, mass[l].value);
      } else {
        NoRoom(h[l], room[l], pmin);
      }
    }
  }

  lemma NoRoom(h: real, room: nat, pmin: real)
    requires 0.0 <= h <= room as real * pmin && room == 0
    ensures h == 0.0
  {
  }

  lemma AtMost(left: real, n: real, m: real)
    requires n > 0.0 && left <= n * m
    ensures left / n <= m
  {
    assert (left / n) * n == left;
    CancelRight(left / n, m, n);
  }

  lemma FittingWorld(mass: seq<Option<real>>, room: seq<nat>, pmin: real, left: real, spellings: int, f: real -> real,
      a: real, alloc: seq<real>, i: nat, w: World)
    requires Setting(mass, room, pmin, spellings, f, a) && a <= 1.0 && i < |mass| && mass[i].Some? && left > 0.0
    requires |alloc| == R.Absent(mass) && R.Worst(f, R.Bound(spellings, pmin, left), left, alloc)
    requires Consistent(w, pmin, left, room) && Fits(mass, room, pmin, left, spellings, a, i)
    ensures var h := Extra(w, |mass|);
      NonNegative(h) && Gain(f, mass, h[i := 0.0]) + SumOf(f, AbsentOf(mass, h)) <= SumOf(f, alloc)
  {
    WorldAllowed(w, pmin, left, room);
    FittingGain(mass, room, pmin, left, spellings, f, a, alloc, Extra(w, |mass|), i);
  }

  lemma FitsHolds(c: seq<real>, mass: seq<Option<real>>, room: seq<nat>, left: real, pmin: real, spellings: int,
      f: real -> real, a: real, i: nat, w: World)
    requires Setting(mass, room, pmin, spellings, f, a)
      && R.ConservativeOf(c, mass, R.Bound(spellings, pmin, left), left, f)
    requires i < |mass| == |c| && mass[i].Some? && Consistent(w, pmin, left, room) && left > 0.0 && a <= 1.0
    requires Fits(mass, room, pmin, left, spellings, a, i)
    ensures c[i] <= WorldShare(f, mass, w, i)
  {
    var alloc, x, z := ConservativeWeight(c, mass, R.Bound(spellings, pmin, left), left, f, i);
    FittingWorld(mass, room, pmin, left, spellings, f, a, alloc, i, w);
    SharesHold(f, mass, SumOf(f, alloc), Extra(w, |mass|), i, x, z);
  }

  lemma ZeroHolds(c: seq<real>, mass: seq<Option<real>>, b: real, total: real, f: real -> real, i: nat, w: World,
      pmin: real, left: real, room: seq<nat>)
    requires R.Weighing(f) && R.MassesOk(mass) && pmin > 0.0
    requires R.ConservativeOf(c, mass, b, total, f) && Consistent(w, pmin, left, room) && |room| == |mass|
    requires i < |mass| == |c| && mass[i] == Some(0.0)
    ensures c[i] <= WorldShare(f, mass, w, i)
  {
    var alloc, x, z := ConservativeWeight(c, mass, b, total, f, i);
    assert x / z == 0.0;
    WorldZero(f, mass, i, w, pmin, left, room);
  }

  lemma WorldZero(f: real -> real, mass: seq<Option<real>>, i: nat, w: World, pmin: real, left: real, room: seq<nat>)
    requires R.Weighing(f) && R.MassesOk(mass) && pmin > 0.0
    requires Consistent(w, pmin, left, room) && |room| == |mass| && i < |mass|
    ensures WorldShare(f, mass, w, i) >= 0.0
  {
    WorldAllowed(w, pmin, left, room);
    ZeroShare(f, mass, Extra(w, |mass|), i);
  }

  /** At every temperature, what the condition covers holds in every consistent world. */
  lemma CoveredHolds(c: seq<real>, mass: seq<Option<real>>, room: seq<nat>, listed: real, pmin: real, spellings: int,
      f: real -> real, a: real, i: nat)
    requires Setting(mass, room, pmin, spellings, f, a) && i < |mass| == |c| && mass[i].Some?
    requires R.ConservativeOf(c, mass, R.Bound(spellings, pmin, R.Unlisted(listed)), R.Unlisted(listed), f)
    requires Covered(mass, room, pmin, listed, spellings, a, i)
    ensures NeverBelow(c, mass, pmin, Left(listed), room, f, i)
  {
    forall w: World | Consistent(w, pmin, Left(listed), room) ensures c[i] <= WorldShare(f, mass, w, i) {
      if mass[i].value == 0.0 {
        var cut := R.Unlisted(listed);
        ZeroHolds(c, mass, R.Bound(spellings, pmin, cut), cut, f, i, w, pmin, Left(listed), room);
      } else if Left(listed) == 0.0 || (Alone(mass, room, i) && (R.Absent(mass) == 0 || !Cut(listed))) {
        UnhiddenHolds(c, mass, room, listed, pmin, spellings, f, a, i, w);
      } else {
        FitsHolds(c, mass, room, Left(listed), pmin, spellings, f, a, i, w);
      }
    }
  }

  // The allocation behind c, as the breaking lemmas use it.
  lemma WeighsOf(c: seq<real>, mass: seq<Option<real>>, b: real, total: real, f: real -> real, i: nat)
    returns (alloc: seq<real>, z: real)
    requires R.ConservativeOf(c, mass, b, total, f) && i < |mass| && mass[i].Some? && mass[i].value > 0.0
    requires R.Weighing(f) && R.MassesOk(mass)
    ensures |alloc| == R.Absent(mass) && R.Worst(f, b, total, alloc) && Weighs(c, mass, f, alloc, i, z)
  {
    var x;
    alloc, x, z := ConservativeWeight(c, mass, b, total, f, i);
  }

  lemma CutCase(c: seq<real>, mass: seq<Option<real>>, room: seq<nat>, listed: real, pmin: real, spellings: int,
      f: real -> real, a: real, i: nat)
    requires Setting(mass, room, pmin, spellings, f, a) && i < |mass| == |c| && mass[i].Some? && mass[i].value > 0.0
    requires R.ConservativeOf(c, mass, R.Bound(spellings, pmin, 0.0), 0.0, f)
    requires Cut(listed) && !(Alone(mass, room, i) && R.Absent(mass) == 0)
    ensures !NeverBelow(c, mass, pmin, Left(listed), room, f, i)
  {
    var alloc, z := WeighsOf(c, mass, R.Bound(spellings, pmin, 0.0), 0.0, f, i);
    if R.Absent(mass) > 0 {
      var k := SomeAbsent(mass);
      CutBreaks(c, mass, room, pmin, Left(listed), spellings, f, alloc, i, z, k);
    } else {
      var j: nat :| Other(mass, room, i, j);
      CutBreaks(c, mass, room, pmin, Left(listed), spellings, f, alloc, i, z, j);
    }
  }

  lemma OverflowCase(c: seq<real>, mass: seq<Option<real>>, room: seq<nat>, left: real, pmin: real, spellings: int,
      f: real -> real, a: real, i: nat, j: nat)
    requires Setting(mass, room, pmin, spellings, f, a) && i < |mass| == |c| && mass[i].Some? && mass[i].value > 0.0
    requires R.ConservativeOf(c, mass, R.Bound(spellings, pmin, left), left, f)
    requires Other(mass, room, i, j) && left > Times(R.Absent(mass), Full(spellings, pmin))
    ensures !NeverBelow(c, mass, pmin, left, room, f, i)
  {
    var alloc, z := WeighsOf(c, mass, R.Bound(spellings, pmin, left), left, f, i);
    FullPositive(spellings, pmin);
    FullBreaks(c, mass, room, pmin, Full(spellings, pmin), left, spellings, f, alloc, R.Absent(mass), i, z, j);
  }

  lemma FullBreaks(c: seq<real>, mass: seq<Option<real>>, room: seq<nat>, pmin: real, full: real, left: real,
      spellings: int, f: real -> real, alloc: seq<real>, n: nat, i: nat, z: real, j: nat)
    requires RoomOf(room, mass, spellings) && pmin > 0.0 && spellings >= 1 && R.MassesOk(mass) && Rises(f) && Growing(f)
    requires i < |mass| && Weighs(c, mass, f, alloc, i, z) && full == spellings as real * pmin && full >= 0.0
    requires Within(alloc, Min(full, left), left) && n == R.Absent(mass) && left > Times(n, full)
      && Other(mass, room, i, j)
    ensures !NeverBelow(c, mass, pmin, left, room, f, i)
  {
    var ys := FullIsMore(f, n, full, left, alloc);
    SurplusBreaks(c, mass, room, pmin, full, left, spellings, f, alloc, ys, i, z, j);
  }

  lemma FullPositive(spellings: int, pmin: real)
    requires spellings >= 1 && pmin > 0.0
    ensures Full(spellings, pmin) >= pmin
  {
    Scaled(1.0, spellings as real, pmin);
  }

  lemma LevelCase(c: seq<real>, mass: seq<Option<real>>, room: seq<nat>, left: real, pmin: real, spellings: int,
      f: real -> real, a: real, i: nat, j: nat)
    requires Setting(mass, room, pmin, spellings, f, a) && i < |mass| == |c| && mass[i].Some? && mass[i].value > 0.0
      && a < 1.0
    requires R.ConservativeOf(c, mass, R.Bound(spellings, pmin, left), left, f)
    requires Other(mass, room, i, j) && 0.0 < left <= Times(R.Absent(mass), Full(spellings, pmin))
      && left > Times(R.Absent(mass), mass[j].value)
    ensures !NeverBelow(c, mass, pmin, left, room, f, i)
  {
    var alloc, z := WeighsOf(c, mass, R.Bound(spellings, pmin, left), left, f, i);
    EvenBreaks(c, mass, room, pmin, Full(spellings, pmin), left, spellings, f, alloc, R.Absent(mass), i, z, j);
  }

  lemma EvenBreaks(c: seq<real>, mass: seq<Option<real>>, room: seq<nat>, pmin: real, full: real, left: real,
      spellings: int, f: real -> real, alloc: seq<real>, n: nat, i: nat, z: real, j: nat)
    requires RoomOf(room, mass, spellings) && pmin > 0.0 && spellings >= 1 && R.MassesOk(mass) && Bends(f)
      && Concave(f) && Growing(f)
    requires i < |mass| && Weighs(c, mass, f, alloc, i, z) && full == spellings as real * pmin
      && R.Worst(f, Min(full, left), left, alloc)
    requires n == R.Absent(mass) && 0.0 < left <= Times(n, full) && Other(mass, room, i, j)
      && left > Times(n, mass[j].value)
    ensures !NeverBelow(c, mass, pmin, left, room, f, i)
  {
    CountPositive(n, full, left);
    var level := EvenLevel(f, n, full, left, alloc, mass[j].value);
    LevelBreaks(c, mass, room, pmin, full, left, spellings, f, alloc, level, i, z, j);
  }

  lemma EvenLevel(f: real -> real, n: nat, full: real, left: real, alloc: seq<real>, m: real) returns (level: real)
    requires Concave(f) && Growing(f) && n > 0 && |alloc| == n && 0.0 < left <= n as real * full
      && R.Worst(f, Min(full, left), left, alloc)
    requires left > Times(n, m)
    ensures Within(Even(n, level), full, left) && SumOf(f, alloc) <= SumOf(f, Even(n, level)) && m < level
  {
    level := left / n as real;
    EvenReached(f, n, full, left, alloc);
    EvenIsBest(f, n, full, left, alloc);
    LevelIs(left, n, full);
    if m >= level { Scaled(level, m, n as real); }
  }

  /** At temperature 1 and above: the conservative share is the least option i can have exactly under the condition. */
  lemma WarmExact(c: seq<real>, mass: seq<Option<real>>, room: seq<nat>, listed: real, pmin: real, spellings: int,
      f: real -> real, a: real, i: nat)
    requires Setting(mass, room, pmin, spellings, f, a) && a <= 1.0 && i < |mass| == |c| && mass[i].Some?
    requires R.ConservativeOf(c, mass, R.Bound(spellings, pmin, R.Unlisted(listed)), R.Unlisted(listed), f)
    ensures NeverBelow(c, mass, pmin, Left(listed), room, f, i) <==> Covered(mass, room, pmin, listed, spellings, a, i)
  {
    if Covered(mass, room, pmin, listed, spellings, a, i) {
      CoveredHolds(c, mass, room, listed, pmin, spellings, f, a, i);
    } else if Cut(listed) {
      CutCase(c, mass, room, listed, pmin, spellings, f, a, i);
    } else {
      var left := Left(listed);
      if left > Times(R.Absent(mass), Full(spellings, pmin)) {
        var j: nat :| Other(mass, room, i, j);
        OverflowCase(c, mass, room, left, pmin, spellings, f, a, i, j);
      } else {
        var j: nat :| Other(mass, room, i, j) && left > Times(R.Absent(mass), mass[j].value);
        LevelCase(c, mass, room, left, pmin, spellings, f, a, i, j);
      }
    }
  }

  // ---------------------------------------------------------------- the round-off cut alone

  // v on absent letter k is allowed, hides nothing else, and weighs something.
  lemma OnOneAbsent(mass: seq<Option<real>>, room: seq<nat>, pmin: real, left: real, spellings: int, f: real -> real,
      k: nat, v: real) returns (h: seq<real>)
    requires RoomOf(room, mass, spellings) && pmin > 0.0 && spellings >= 1 && R.Weighing(f)
    requires k < |mass| && mass[k].None? && 0.0 < v <= pmin && v <= left
    ensures |h| == |mass| && Allowed(h, pmin, left, room)
      && forall l :: 0 <= l < |mass| && mass[l].Some? ==> h[l] == 0.0
    ensures SumOf(f, Held(mass, h)) > SumOf(f, R.Known(mass))
  {
    h := R.Zeros(|mass|)[k := v];
    SumOfOne(|mass|, k, v);
    OneSpelling(room[k], pmin, v);
    forall l | 0 <= l < |mass| ensures Hideable(h[l], room[l], pmin) { Scaled(0.0, room[l] as real, pmin); }
    NoGain(Identity, mass, h);
    MassSplits(mass, h);
    NoGain(f, mass, h);
    WeightSplits(f, mass, h);
    AbsentBounds(mass, h, v);
    R.SumOfNonNegative(f, AbsentOf(mass, h));
  }

  lemma CutWorld(c: seq<real>, mass: seq<Option<real>>, room: seq<nat>, pmin: real, left: real, spellings: int,
      f: real -> real, alloc: seq<real>, i: nat, z: real) returns (w: World)
    requires RoomOf(room, mass, spellings) && pmin > 0.0 && spellings >= 1 && R.Weighing(f)
    requires i < |mass| && Weighs(c, mass, f, alloc, i, z) && SumOf(f, alloc) == 0.0 && left > 0.0 && R.Absent(mass) > 0
    ensures Consistent(w, pmin, left, room) && HidesNoOther(w, mass, i) && WorldShare(f, mass, w, i) < c[i]
  {
    var k := SomeAbsent(mass);
    var h := OnOneAbsent(mass, room, pmin, left, spellings, f, k, Min(pmin, left));
    w := WorldOf(h, pmin, left, room);
    assert Held(mass, h)[i] == mass[i].value;
    StrictlySmaller(f(mass[i].value), z, SumOf(f, Held(mass, h)));
    forall l: nat | l < |mass| && l != i && mass[l].Some? ensures MassIn(w, l) == 0.0 {
      assert Extra(w, |room|)[l] == MassIn(w, l);
    }
  }

  /** Over the worlds that hide no other listed option, the conservative share is a lower bound exactly when the
      round-off cut does not apply (or there is nothing for it to miss). */
  lemma CutOffExact(c: seq<real>, mass: seq<Option<real>>, room: seq<nat>, listed: real, pmin: real, spellings: int,
      f: real -> real, i: nat)
    requires R.Weighing(f) && Growing(f) && R.MassesOk(mass)
    requires RoomOf(room, mass, spellings) && pmin > 0.0 && spellings >= 1 && i < |mass| == |c| && mass[i].Some?
    requires R.ConservativeOf(c, mass, R.Bound(spellings, pmin, R.Unlisted(listed)), R.Unlisted(listed), f)
    ensures NeverBelowAbsent(c, mass, pmin, Left(listed), room, f, i) <==>
      !Cut(listed) || R.Absent(mass) == 0 || mass[i].value == 0.0
  {
    var left := Left(listed);
    if Cut(listed) && R.Absent(mass) > 0 && mass[i].value > 0.0 {
      var alloc, z := WeighsOf(c, mass, R.Bound(spellings, pmin, 0.0), 0.0, f, i);
      ZeroAllocation(f, alloc, spellings, pmin);
      var w := CutWorld(c, mass, room, pmin, left, spellings, f, alloc, i, z);
    } else {
      forall w: World | Consistent(w, pmin, left, room) && HidesNoOther(w, mass, i)
        ensures c[i] <= WorldShare(f, mass, w, i) {
        UncutHolds(c, mass, room, listed, pmin, spellings, f, i, w);
      }
    }
  }

  lemma UncutHolds(c: seq<real>, mass: seq<Option<real>>, room: seq<nat>, listed: real, pmin: real, spellings: int,
      f: real -> real, i: nat, w: World)
    requires R.Weighing(f) && Growing(f) && R.MassesOk(mass)
    requires RoomOf(room, mass, spellings) && pmin > 0.0 && spellings >= 1 && i < |mass| == |c| && mass[i].Some?
    requires R.ConservativeOf(c, mass, R.Bound(spellings, pmin, R.Unlisted(listed)), R.Unlisted(listed), f)
    requires !Cut(listed) || R.Absent(mass) == 0 || mass[i].value == 0.0
    requires Consistent(w, pmin, Left(listed), room) && HidesNoOther(w, mass, i)
    ensures c[i] <= WorldShare(f, mass, w, i)
  {
    var left, cut := Left(listed), R.Unlisted(listed);
    if mass[i].value == 0.0 {
      ZeroHolds(c, mass, R.Bound(spellings, pmin, cut), cut, f, i, w, pmin, left, room);
    } else {
      if R.Absent(mass) == 0 {
        NothingToAllocate(c, mass, R.Bound(spellings, pmin, cut), cut, R.Bound(spellings, pmin, left), left, f);
      }
      ConservativeIsWorst(c, mass, pmin, left, spellings, room, f, w, i);
    }
  }

  // ---------------------------------------------------------------- instances

  lemma PowerAtOne()
    ensures StrictPower(Identity, 1.0)
  {
    IdentityIsBoth();
  }

  lemma PowerAtTwo()
    ensures StrictPower(Square, 2.0)
  {
    SquareIsConvex();
    SquareIsRising();
    SquareIsBent();
  }

  lemma SquareIsRising()
    ensures Rises(Square) && R.Weighing(Square)
  {
    forall x: real | x > 0.0 ensures Square(x) > 0.0 { PositiveIs(x, Square(x)); }
    forall x: real, y: real ensures RisesAt(Square, x, y) {
      if 0.0 <= x < y { SquareRises(x, y); }
    }
  }

  lemma SquareIsBent()
    ensures Bends(Negated(Square))
  {
    forall x: real, y: real, z: real ensures BendsAt(Negated(Square), x, y, z) {
      if 0.0 <= x < y < z {
        SquareBends(x, y, z, Square(x), Square(y), Square(z));
        NegatedBends(Square, x, y, z, Square(x), Square(y), Square(z));
      }
    }
  }

  lemma NegatedBends(f: real -> real, x: real, y: real, z: real, a: real, b: real, c: real)
    requires a == f(x) && b == f(y) && c == f(z) && (b - a) * (z - y) < (c - b) * (y - x)
    ensures BendsAt(Negated(f), x, y, z)
  {
    var g := Negated(f);
    assert g(x) == -a && g(y) == -b && g(z) == -c;
    Flipped(b - a, c - b, z - y, y - x, g(y) - g(x), g(z) - g(y));
  }

  lemma Flipped(u: real, v: real, d: real, e: real, u': real, v': real)
    requires u * d < v * e && u' == -u && v' == -v
    ensures u' * d > v' * e
  {
    assert u' * d == -(u * d) && v' * e == -(v * e);
  }

  lemma SquareRises(x: real, y: real)
    requires 0.0 <= x < y
    ensures x * x < y * y
  {
    var d, e := y - x, y + x;
    Positive(d, e);
    assert y * y == x * x + d * e;
  }

  // Neighbouring widths d and e with rises d*u and e*v, u below v.
  lemma WidthsTimes(d: real, e: real, u: real, v: real, a: real, b: real)
    requires d > 0.0 && e > 0.0 && u < v && a == d * u && b == e * v
    ensures a * e < b * d
  {
    var w := d * e;
    Positive(d, e);
    assert a * e == u * w && b * d == v * w;
    Positive(v - u, w);
    assert (v - u) * w == v * w - u * w;
  }

  lemma SquareGap(x: real, y: real)
    ensures y * y - x * x == (y - x) * (x + y)
  {
  }

  lemma SquareBends(x: real, y: real, z: real, a: real, b: real, c: real)
    requires 0.0 <= x < y < z && a == x * x && b == y * y && c == z * z
    ensures (b - a) * (z - y) < (c - b) * (y - x)
  {
    SquareGap(x, y);
    SquareGap(y, z);
    WidthsTimes(y - x, z - y, x + y, y + z, b - a, c - b);
  }

  // Any square root is x^(1/2), the case of temperature 2.
  ghost predicate RootAt(r: real -> real, x: real) { if x >= 0.0 then r(x) >= 0.0 && r(x) * r(x) == x else true }

  lemma RootRises(r: real -> real, x: real, y: real)
    requires RootAt(r, x) && RootAt(r, y) && 0.0 <= x < y
    ensures r(x) < r(y)
  {
    if r(y) < r(x) { SquareRises(r(y), r(x)); }
  }

  lemma RootBends(r: real -> real, x: real, y: real, z: real)
    requires RootAt(r, x) && RootAt(r, y) && RootAt(r, z) && 0.0 <= x < y < z
    ensures BendsAt(r, x, y, z)
  {
    RootRises(r, x, y);
    RootRises(r, y, z);
    RootSlopes(r(x), r(y), r(z), x, y, z);
  }

  lemma RootSlopes(p: real, q: real, s: real, x: real, y: real, z: real)
    requires 0.0 <= p < q < s && p * p == x && q * q == y && s * s == z
    ensures (q - p) * (z - y) > (s - q) * (y - x)
  {
    SquareGap(p, q);
    SquareGap(q, s);
    WidthsTimes(q - p, s - q, p + q, q + s, y - x, z - y);
  }

  lemma ZeroRoot(x: real, r: real)
    requires x >= 0.0 && r == x * x && r == 0.0
    ensures x == 0.0
  {
    if x > 0.0 { PositiveIs(x, r); }
  }

  lemma PowerAtHalf(r: real -> real)
    requires forall x: real :: RootAt(r, x)
    ensures StrictPower(r, 0.5)
  {
    assert RootAt(r, 0.0);
    ZeroRoot(r(0.0), r(0.0) * r(0.0));
    forall x: real, y: real, z: real ensures BendsAt(r, x, y, z) && ConcaveAt(r, x, y, z) {
      if 0.0 <= x < y < z {
        assert RootAt(r, x) && RootAt(r, y) && RootAt(r, z);
        RootBends(r, x, y, z);
      }
    }
    forall x: real, y: real ensures RisesAt(r, x, y) && GrowingAt(r, x, y) {
      if 0.0 <= x < y {
        assert RootAt(r, x) && RootAt(r, y);
        RootRises(r, x, y);
      }
    }
    forall x: real | x > 0.0 ensures r(x) > 0.0 {
      assert RootAt(r, x);
    }
  }

  /** No cut applies here, and still two hidden spellings of the second listed option push the first one
      below its conservative share. */
  lemma HiddenSpellings() returns (c: seq<real>)
    ensures var cut := R.Unlisted(0.75);
      R.ConservativeOf(c, [Some(0.5), Some(0.2), None], R.Bound(3, 0.05, cut), cut, Identity)
    ensures |c| == 3 && !Cut(0.75) && !NeverBelow(c, [Some(0.5), Some(0.2), None], 0.05, 0.25, [2, 2, 3], Identity, 0)
  {
    var mass: seq<Option<real>>, left: real := [Some(0.5), Some(0.2), None], 0.25;
    assert mass[..2] == [Some(0.5), Some(0.2)] && mass[..2][..1] == [Some(0.5)] && mass[..2][..1][..0] == [];
    assert R.Absent(mass) == 1 && R.Known(mass) == [0.5, 0.2];
    assert [0.5, 0.2][..1] == [0.5] && [0.5, 0.2][..1][..0] == [];
    c := OneAbsentLetter(mass, 0.15, left, 0.15);
    HiddenBreaks(c, mass, [2, 2, 3], R.Bound(3, 0.05, left), left);
  }

  lemma HiddenBreaks(c: seq<real>, mass: seq<Option<real>>, room: seq<nat>, b: real, left: real)
    requires mass == [Some(0.5), Some(0.2), None] && room == [2, 2, 3] && R.Absent(mass) == 1
    requires left == 0.25 && b == R.Bound(3, 0.05, left) && R.ConservativeOf(c, mass, b, left, Identity) && |c| == 3
    ensures !NeverBelow(c, mass, 0.05, left, room, Identity, 0)
  {
    PowerAtOne();
    assert Times(1, Full(3, 0.05)) == 0.15;
    assert Other(mass, room, 0, 1);
    OverflowCase(c, mass, room, left, 0.05, 3, Identity, 1.0, 0, 1);
  }

  lemma SingleSum(f: real -> real, v: real)
    ensures Sum([v]) == v && SumOf(f, [v]) == f(v)
  {
    SumSnoc(f, [], v);
    assert [] + [v] == [v];
  }

  // One absent letter takes the whole bound.
  lemma OneAbsentLetter(mass: seq<Option<real>>, b: real, total: real, v: real) returns (c: seq<real>)
    requires R.Absent(mass) == 1 && R.MassesOk(mass) && SumOf(Identity, R.Known(mass)) > 0.0
      && v == Min(b, total) >= 0.0
    ensures R.ConservativeOf(c, mass, b, total, Identity) && |c| == |mass|
  {
    SingleSum(Identity, v);
    forall y: seq<real> ensures R.Beaten(Identity, b, total, [v], y) {
      if |y| == 1 {
        SingleSum(Identity, y[0]);
        assert y == [y[0]];
      }
    }
    assert R.Worst(Identity, b, total, [v]);
    c := R.Shares(Identity, R.Fill(mass, [v]));
  }

  /** A list that leaves half of the round-off cut: the conservative distribution is the listed option alone, and
      a world that hides the rest in the absent one gives it less. */
  lemma CutOffMisses() returns (c: seq<real>)
    ensures var cut := R.Unlisted(0.9999999995);
      R.ConservativeOf(c, [Some(0.9999999995), None], R.Bound(1, 0.5, cut), cut, Identity)
    ensures |c| == 2 && !NeverBelowAbsent(c, [Some(0.9999999995), None], 0.5, Left(0.9999999995), [0, 1], Identity, 0)
  {
    var mass: seq<Option<real>>, room: seq<nat> := [Some(0.9999999995), None], [0, 1];
    PowerAtOne();
    assert mass[..1] == [Some(0.9999999995)] && mass[..1][..0] == [];
    assert R.Absent(mass) == 1 && R.Known(mass) == [0.9999999995];
    c := OneAbsentLetter(mass, 0.0, 0.0, 0.0);
    CutOffExact(c, mass, room, 0.9999999995, 0.5, 1, Identity, 0);
  }
}
