module LowTemperature
  /**
    The conservative share below temperature 1, where powers bend up (internal/readout/readout.go, package
    comment): the worst allocation fills absent letters one after the other, and a listed option that can
    hide more takes mass over from them as soon as it can outgrow one. For lists of rows with positive
    probability that is an exact condition without the exponent; for any list the condition is a comparison
    at finitely many choices of hidden amounts.
  */
{
  import opened Numeric
  import opened Wrappers
  import opened Allocation
  import opened Worlds
  import opened LowerBound
  import R = Readout

  function Cap(room: nat, pmin: real): real { room as real * pmin }

  // ---------------------------------------------------------------- full letters and one more

  // What is left fills q of n letters and puts y on one more.
  ghost predicate Divided(left: real, full: real, n: nat, q: nat, y: real) {
    q < n && 0.0 < y <= full && left == Times(q, full) + y
  }

  lemma OneMore(n: nat, v: real)
    ensures Times(0, v) == 0.0 && Times(n + 1, v) == Times(n, v) + v
  {
    Distribute(n as real, v);
  }

  lemma {:induction false} Divide(left: real, full: real, n: nat) returns (q: nat, y: real)
    requires full > 0.0 && 0.0 < left <= Times(n, full)
    ensures Divided(left, full, n, q, y)
    decreases n
  {
    OneMore(0, full);
    if left <= full {
      q, y := 0, left;
    } else {
      OneMore(n - 1, full);
      q, y := Divide(left - full, full, n - 1);
      OneMore(q, full);
      q := q + 1;
    }
  }

  lemma {:induction false} TimesGrows(q: nat, full: real)
    requires full >= 0.0
    ensures Times(q, full) >= 0.0 && (q > 0 ==> Times(q, full) >= full)
    decreases q
  {
    if q > 0 {
      TimesGrows(q - 1, full);
      OneMore(q - 1, full);
    }
  }

  function Stack(n: nat, q: nat, full: real, y: real): (ys: seq<real>)
    ensures |ys| == n && forall k :: 0 <= k < n ==> ys[k] == if k < q then full else if k == q then y else 0.0
  {
    seq(n, k => if k < q then full else if k == q then y else 0.0)
  }

  lemma EvenTimes(f: real -> real, n: nat, v: real)
    ensures Sum(Even(n, v)) == Times(n, v) && SumOf(f, Even(n, v)) == Times(n, f(v))
  {
    EvenSums(f, n, v);
  }

  lemma {:induction false} StackSums(f: real -> real, n: nat, q: nat, full: real, y: real)
    requires q < n && f(0.0) == 0.0
    ensures Sum(Stack(n, q, full, y)) == Times(q, full) + y
    ensures SumOf(f, Stack(n, q, full, y)) == Times(q, f(full)) + f(y)
    decreases n
  {
    if q == n - 1 {
      EvenTimes(f, q, full);
      LastOf(f, Stack(n, q, full, y), Even(q, full), y);
    } else {
      StackSums(f, n - 1, q, full, y);
      LastOf(f, Stack(n, q, full, y), Stack(n - 1, q, full, y), 0.0);
    }
  }

  lemma LastOf(f: real -> real, ys: seq<real>, xs: seq<real>, x: real)
    requires |ys| == |xs| + 1 && ys[|xs|] == x && forall k :: 0 <= k < |xs| ==> ys[k] == xs[k]
    ensures Sum(ys) == Sum(xs) + x && SumOf(f, ys) == SumOf(f, xs) + f(x)
  {
    assert ys == xs + [x];
    SumSnoc(f, xs, x);
  }

  lemma GreedyLast(f: real -> real, n: nat, full: real, left: real)
    requires n > 0
    ensures var g := Min(full, left);
      SumOf(f, GreedyFill(Even(n, full), left)) == SumOf(f, GreedyFill(Even(n - 1, full), left - g)) + f(g)
  {
    var g := Min(full, left);
    assert Even(n, full)[..n - 1] == Even(n - 1, full);
    SumSnoc(f, GreedyFill(Even(n - 1, full), left - g), g);
  }

  lemma OneFewer(q: nat, full: real, y: real, left: real)
    requires q > 0 && full >= 0.0 && y >= 0.0 && left == Times(q, full) + y
    ensures left >= full && left - full == Times(q - 1, full) + y
  {
    OneMore(q - 1, full);
    TimesGrows(q - 1, full);
  }

  lemma OneMoreWeight(q: nat, full: real, y: real, w: real, w': real)
    requires q > 0 && w == Times(q - 1, full) + y && w' == w + full
    ensures w' == Times(q, full) + y
  {
    OneMore(q - 1, full);
  }

  lemma {:induction false} FillWeight(f: real -> real, n: nat, q: nat, full: real, y: real, left: real)
    requires q < n && 0.0 <= y <= full && left == Times(q, full) + y && f(0.0) == 0.0
    ensures SumOf(f, GreedyFill(Even(n, full), left)) == Times(q, f(full)) + f(y)
    decreases n
  {
    var w := SumOf(f, GreedyFill(Even(n, full), left));
    GreedyLast(f, n, full, left);
    if q > 0 {
      OneFewer(q, full, y, left);
      FillWeight(f, n - 1, q - 1, full, y, left - full);
      OneMoreWeight(q, f(full), f(y), w - f(full), w);
    } else {
      NoLetters(full, f(full));
      if n > 1 { FillWeight(f, n - 1, 0, full, 0.0, 0.0); }
    }
  }

  lemma NoLetters(u: real, v: real)
    ensures Times(0, u) == 0.0 && Times(0, v) == 0.0
  {
  }

  // Where f bends up nothing outweighs full letters and one more.
  lemma StackIsBest(f: real -> real, n: nat, q: nat, full: real, y: real, v: seq<real>)
    requires Convex(f) && Growing(f) && f(0.0) == 0.0 && q < n && 0.0 <= y <= full
    requires |v| == n && Within(v, full, Times(q, full) + y)
    ensures SumOf(f, v) <= Times(q, f(full)) + f(y)
  {
    FillWeight(f, n, q, full, y, Times(q, full) + y);
    GreedyOptimal(f, Even(n, full), Times(q, full) + y, v);
  }

  // A worst allocation weighs as much as that.
  lemma StackReached(f: real -> real, n: nat, q: nat, full: real, y: real, left: real, alloc: seq<real>)
    requires Convex(f) && Growing(f) && f(0.0) == 0.0 && Divided(left, full, n, q, y)
    requires |alloc| == n && R.Worst(f, Min(full, left), left, alloc)
    ensures SumOf(f, alloc) == Times(q, f(full)) + f(y) == SumOf(f, Stack(n, q, full, y))
    ensures Within(Stack(n, q, full, y), full, left)
  {
    var ys := Stack(n, q, full, y);
    StackSums(f, n, q, full, y);
    TimesGrows(q, full);
    assert R.Beaten(f, Min(full, left), left, alloc, ys);
    StackIsBest(f, n, q, full, y, alloc);
  }

  // ---------------------------------------------------------------- where the bound fails

  // With what it has room for, up to y, an option of mass m outgrows a letter that holds y.
  ghost predicate Outgrows(m: real, cap: real, y: real) { m + Min(cap, y) > y }

  lemma OutgrowsLess(m: real, cap: real, b: real, y: real)
    requires Outgrows(m, cap, b) && 0.0 < y <= b && m >= 0.0 && cap > 0.0
    ensures Outgrows(m, cap, y)
  {
  }

  // Then taking v off that letter gains.
  lemma TakenOver(f: real -> real, y: real, m: real, v: real)
    requires Bends(Negated(f)) && 0.0 < v <= y && m >= 0.0 && m + v > y
    ensures f(y) + f(m) < f(y - v) + f(m + v)
  {
    if m <= y { TradeUp(f, m, y, m + v - y); } else { TradeUp(f, y, m, v); }
  }

  lemma SomeCap(room: nat, pmin: real)
    requires pmin > 0.0
    ensures Cap(room, pmin) >= 0.0 && (room > 0 ==> Cap(room, pmin) >= pmin)
  {
    Scaled(0.0, room as real, pmin);
    if room > 0 { Scaled(1.0, room as real, pmin); }
  }

  lemma OutgrownBreaks(c: seq<real>, mass: seq<Option<real>>, room: seq<nat>, pmin: real, left: real, f: real -> real,
      h: seq<real>, i: nat, z: real, j: nat, k: nat)
    requires |room| == |mass| == |c| && i < |mass| && mass[i].Some? && Allowed(h, pmin, left, room) && h[i] == 0.0
    requires f(mass[i].value) > 0.0 && z > 0.0 && c[i] == f(mass[i].value) / z && SumOf(f, Held(mass, h)) >= z
    requires Bends(Negated(f)) && pmin > 0.0 && R.MassesOk(mass) && Other(mass, room, i, j) && h[j] == 0.0
    requires k < |mass| && mass[k].None? && h[k] > 0.0 && Outgrows(mass[j].value, Cap(room[j], pmin), h[k])
    ensures !NeverBelow(c, mass, pmin, left, room, f, i)
  {
    var v := Min(Cap(room[j], pmin), h[k]);
    SomeCap(room[j], pmin);
    TakenOver(f, h[k], mass[j].value, v);
    MoveBreaks(c, mass, pmin, left, room, f, i, z, h, j, k, v);
  }

  // The stacked choice, as the breaking lemmas use it: a letter t of the stack and the weight of c.
  lemma Stacked(c: seq<real>, mass: seq<Option<real>>, room: seq<nat>, left: real, pmin: real, spellings: int,
      f: real -> real,
      a: real, i: nat, q: nat, y: real, t: nat)
    returns (h: seq<real>, z: real, k: nat)
    requires Setting(mass, room, pmin, spellings, f, a) && a > 1.0 && i < |mass| == |c| && mass[i].Some?
      && mass[i].value > 0.0
    requires R.ConservativeOf(c, mass, R.Bound(spellings, pmin, left), left, f)
    requires Divided(left, Full(spellings, pmin), R.Absent(mass), q, y) && t <= q
    ensures h == Placed(mass, Stack(R.Absent(mass), q, Full(spellings, pmin), y))
    ensures Chosen(h, mass, Stack(R.Absent(mass), q, Full(spellings, pmin), y), pmin, left, room, f, z)
    ensures z > 0.0 && f(mass[i].value) > 0.0 && c[i] == f(mass[i].value) / z
    ensures k < |mass| && mass[k].None? && h[k] == if t < q then Full(spellings, pmin) else y
  {
    assert R.Weighing(f) && Convex(f) && Growing(f);
    var b, full := R.Bound(spellings, pmin, left), Full(spellings, pmin);
    h, z, k := StackedFor(c, mass, room, left, pmin, spellings, b, full, f, i, R.Absent(mass), q, y, t);
  }

  lemma StackedFor(c: seq<real>, mass: seq<Option<real>>, room: seq<nat>, left: real, pmin: real, spellings: int,
      b: real, full: real, f: real -> real, i: nat, n: nat, q: nat, y: real, t: nat)
    returns (h: seq<real>, z: real, k: nat)
    requires RoomOf(room, mass, spellings) && pmin > 0.0 && spellings >= 1 && full == Full(spellings, pmin)
    requires R.Weighing(f) && Convex(f) && Growing(f) && R.MassesOk(mass) && b == Min(full, left) && n == R.Absent(mass)
    requires i < |mass| && mass[i].Some? && mass[i].value > 0.0 && R.ConservativeOf(c, mass, b, left, f)
    requires Divided(left, full, n, q, y) && t <= q
    ensures h == Placed(mass, Stack(n, q, full, y)) && Chosen(h, mass, Stack(n, q, full, y), pmin, left, room, f, z)
    ensures |c| == |mass| && z > 0.0 && f(mass[i].value) > 0.0 && c[i] == f(mass[i].value) / z
    ensures k < |mass| && mass[k].None? && h[k] == if t < q then full else y
  {
    var ys, alloc := Stack(n, q, full, y), [];
    alloc, z := WeighsOf(c, mass, b, left, f, i);
    StackReached(f, n, q, full, y, left, alloc);
    Choose(mass, ys, pmin, full, left, spellings, room, f, alloc, z);
    h := Placed(mass, ys);
    k := PlacedFinds(mass, ys, t);
  }

  lemma OutgrownCase(c: seq<real>, mass: seq<Option<real>>, room: seq<nat>, left: real, pmin: real, spellings: int,
      f: real -> real, a: real, i: nat, j: nat, q: nat, y: real)
    requires Setting(mass, room, pmin, spellings, f, a) && a > 1.0 && i < |mass| == |c| && mass[i].Some?
      && mass[i].value > 0.0
    requires R.ConservativeOf(c, mass, R.Bound(spellings, pmin, left), left, f)
    requires Divided(left, Full(spellings, pmin), R.Absent(mass), q, y)
    requires Other(mass, room, i, j) && Outgrows(mass[j].value, Cap(room[j], pmin), y)
    ensures !NeverBelow(c, mass, pmin, left, room, f, i)
  {
    var h, z, k := Stacked(c, mass, room, left, pmin, spellings, f, a, i, q, y, q);
    OutgrownBreaks(c, mass, room, pmin, left, f, h, i, z, j, k);
  }

  /** Below temperature 1, next to a listed option that can outgrow the bound of an absent letter: the
      conservative share is the least option i can have only when nothing is left. */
  lemma ColdExact(c: seq<real>, mass: seq<Option<real>>, room: seq<nat>, listed: real, pmin: real, spellings: int,
      f: real -> real, a: real, i: nat, j: nat)
    requires Setting(mass, room, pmin, spellings, f, a) && a > 1.0 && i < |mass| == |c| && mass[i].Some?
    requires R.ConservativeOf(c, mass, R.Bound(spellings, pmin, R.Unlisted(listed)), R.Unlisted(listed), f)
    requires Other(mass, room, i, j)
    requires Outgrows(mass[j].value, Cap(room[j], pmin), R.Bound(spellings, pmin, Left(listed)))
    ensures NeverBelow(c, mass, pmin, Left(listed), room, f, i) <==> mass[i].value == 0.0 || Left(listed) == 0.0
  {
    var left, full := Left(listed), Full(spellings, pmin);
    if mass[i].value == 0.0 || left == 0.0 {
      CoveredHolds(c, mass, room, listed, pmin, spellings, f, a, i);
    } else if Cut(listed) || left > Times(R.Absent(mass), full) {
      UnfitCase(c, mass, room, listed, pmin, spellings, f, a, i, j);
    } else {
      FullPositive(spellings, pmin);
      SomeCap(room[j], pmin);
      var q, y := Divide(left, full, R.Absent(mass));
      TimesGrows(q, full);
      OutgrowsLess(mass[j].value, Cap(room[j], pmin), R.Bound(spellings, pmin, left), y);
      OutgrownCase(c, mass, room, left, pmin, spellings, f, a, i, j, q, y);
    }
  }

  lemma UnfitCase(c: seq<real>, mass: seq<Option<real>>, room: seq<nat>, listed: real, pmin: real, spellings: int,
      f: real -> real, a: real, i: nat, j: nat)
    requires Setting(mass, room, pmin, spellings, f, a) && i < |mass| == |c| && mass[i].Some? && mass[i].value > 0.0
    requires R.ConservativeOf(c, mass, R.Bound(spellings, pmin, R.Unlisted(listed)), R.Unlisted(listed), f)
    requires Other(mass, room, i, j) && (Cut(listed) || Left(listed) > Times(R.Absent(mass), Full(spellings, pmin)))
    ensures !NeverBelow(c, mass, pmin, Left(listed), room, f, i)
  {
    if Cut(listed) {
      CutCase(c, mass, room, listed, pmin, spellings, f, a, i);
    } else {
      OverflowCase(c, mass, room, Left(listed), pmin, spellings, f, a, i, j);
    }
  }

  /** At every temperature: where what is left does not fit the absent letters, or is cut off, the conservative
      share is the least option i can have exactly under the condition; no absent letter is one such case. */
  lemma UnfitExact(c: seq<real>, mass: seq<Option<real>>, room: seq<nat>, listed: real, pmin: real, spellings: int,
      f: real -> real, a: real, i: nat)
    requires Setting(mass, room, pmin, spellings, f, a) && i < |mass| == |c| && mass[i].Some?
    requires R.ConservativeOf(c, mass, R.Bound(spellings, pmin, R.Unlisted(listed)), R.Unlisted(listed), f)
    requires Cut(listed) || Left(listed) > Times(R.Absent(mass), Full(spellings, pmin)) || R.Absent(mass) == 0
    ensures NeverBelow(c, mass, pmin, Left(listed), room, f, i) <==>
      mass[i].value == 0.0 || Left(listed) == 0.0 || (Alone(mass, room, i) && (R.Absent(mass) == 0 || !Cut(listed)))
  {
    OneMore(0, Full(spellings, pmin));
    if mass[i].value == 0.0 || Left(listed) == 0.0 || (Alone(mass, room, i) && (R.Absent(mass) == 0 || !Cut(listed))) {
      CoveredHolds(c, mass, room, listed, pmin, spellings, f, a, i);
    } else if Cut(listed) {
      CutCase(c, mass, room, listed, pmin, spellings, f, a, i);
    } else {
      var j: nat :| Other(mass, room, i, j);
      OverflowCase(c, mass, room, Left(listed), pmin, spellings, f, a, i, j);
    }
  }

  // ---------------------------------------------------------------- where the bound holds

  // All that the listed options other than i have room for.
  function Spare(mass: seq<Option<real>>, room: seq<nat>, pmin: real, i: nat): real
    requires |room| == |mass|
    decreases |mass|
  {
    if mass == [] then 0.0
    else
      var n := |mass| - 1;
      Spare(mass[..n], room[..n], pmin, i) + if mass[n].Some? && n != i then Cap(room[n], pmin) else 0.0
  }

  // Amounts on the listed options other than i.
  ghost predicate OnOthers(g: seq<real>, mass: seq<Option<real>>, room: seq<nat>, pmin: real, i: nat) {
    && |g| == |mass| == |room|
    && forall l :: 0 <= l < |mass| && mass[l].Some? ==> Hideable(g[l], room[l], pmin) && (l == i ==> g[l] == 0.0)
  }

  lemma {:induction false} OnOthersWithin(g: seq<real>, mass: seq<Option<real>>, room: seq<nat>, pmin: real, i: nat)
    requires OnOthers(g, mass, room, pmin, i) && pmin > 0.0
    ensures Gain(Identity, mass, g) <= Spare(mass, room, pmin, i)
    ensures forall l :: 0 <= l < |mass| && mass[l].Some? ==> g[l] <= Gain(Identity, mass, g)
    ensures Gain(Identity, mass, g) >= 0.0
    decreases |mass|
  {
    if mass != [] {
      var n := |mass| - 1;
      OnOthersWithin(g[..n], mass[..n], room[..n], pmin, i);
      GainSnoc(Identity, mass, g);
      SomeCap(room[n], pmin);
    }
  }

  // Below y, a rise by d gains at most d parts of what the last s parts of y weigh.
  lemma ChordBelow(f: real -> real, slope: real, m: real, d: real, s: real, y: real)
    requires Convex(f) && m >= 0.0 && 0.0 <= d <= s && s > 0.0 && m + s <= y && slope * s == f(y) - f(y - s)
    ensures Slope(f, slope, m, d)
  {
    SpreadPair(f, m, Min(m + s, y - s), Max(m + s, y - s), y);
    if 0.0 < d < s { assert ConvexAt(f, m, m + d, m + s); }
    Proportion(f(m + d) - f(m), f(m + s) - f(m), d, s, slope);
  }

  lemma Proportion(u: real, v: real, d: real, s: real, slope: real)
    requires 0.0 <= d <= s && s > 0.0 && v <= slope * s && (d == 0.0 ==> u == 0.0) && (d == s ==> u == v)
    requires 0.0 < d < s ==> u * (s - d) <= (v - u) * d
    ensures u <= slope * d
  {
    if 0.0 < d < s {
      assert u * s <= v * d;
      Scaled(v, slope * s, d);
      assert (slope * s) * d == (slope * d) * s;
      CancelRight(u, slope * d, s);
    }
  }

  // Each other listed option stays at or below y even with everything they could hide.
  ghost predicate StayBelow(mass: seq<Option<real>>, room: seq<nat>, pmin: real, i: nat, left: real, y: real)
    requires |room| == |mass|
  {
    forall j: nat :: Other(mass, room, i, j) ==> mass[j].value + Min(Spare(mass, room, pmin, i), left) <= y
  }

  lemma SlopeBelow(f: real -> real, mass: seq<Option<real>>, room: seq<nat>, pmin: real, i: nat, left: real, y: real,
      d: real, s: real, slope: real, l: nat)
    requires Convex(f) && R.MassesOk(mass) && |room| == |mass| && StayBelow(mass, room, pmin, i, left, y)
    requires l < |mass| && mass[l].Some? && Hideable(d, room[l], pmin) && (l == i ==> d == 0.0)
    requires d <= s <= Min(Spare(mass, room, pmin, i), left) && s > 0.0 && slope * s == f(y) - f(y - s)
    ensures Slope(f, slope, mass[l].value, d) && (d != 0.0 ==> s <= y)
  {
    if d != 0.0 {
      HasRoom(d, room[l], pmin);
      assert Other(mass, room, i, l);
      ChordBelow(f, slope, mass[l].value, d, s, y);
    } else {
      assert slope * d == 0.0;
    }
  }

  lemma AverageSlope(u: real, s: real) returns (slope: real)
    requires s > 0.0
    ensures slope * s == u
  {
    slope := u / s;
  }

  lemma SlopesBelow(f: real -> real, mass: seq<Option<real>>, room: seq<nat>, pmin: real, i: nat, left: real, y: real,
      g: seq<real>, s: real, slope: real)
    requires Convex(f) && R.MassesOk(mass) && pmin > 0.0 && OnOthers(g, mass, room, pmin, i)
    requires 0.0 < s == Gain(Identity, mass, g) <= left && StayBelow(mass, room, pmin, i, left, y)
    requires slope * s == f(y) - f(y - s)
    ensures s <= y && forall l :: 0 <= l < |mass| && mass[l].Some? ==> Slope(f, slope, mass[l].value, g[l])
  {
    OnOthersWithin(g, mass, room, pmin, i);
    forall l | 0 <= l < |mass| && mass[l].Some?
      ensures Slope(f, slope, mass[l].value, g[l]) && (g[l] != 0.0 ==> s <= y)
    {
      SlopeBelow(f, mass, room, pmin, i, left, y, g[l], s, slope, l);
    }
    var l := SomeHides(mass, g);
  }

  lemma GainAtSlope(f: real -> real, slope: real, mass: seq<Option<real>>, g: seq<real>, s: real, u: real)
    requires |g| == |mass| && forall l :: 0 <= l < |mass| && mass[l].Some? ==> Slope(f, slope, mass[l].value, g[l])
    requires s == Gain(Identity, mass, g) && slope * s == u
    ensures Gain(f, mass, g) <= u
  {
    GainTangent(f, slope, mass, g);
  }

  // Then what they gain by s is no more than the last letter loses.
  lemma GainBelow(f: real -> real, mass: seq<Option<real>>, room: seq<nat>, pmin: real, i: nat, left: real, y: real,
      g: seq<real>, s: real)
    requires Convex(f) && R.MassesOk(mass) && pmin > 0.0 && OnOthers(g, mass, room, pmin, i)
    requires s == Gain(Identity, mass, g) <= left && StayBelow(mass, room, pmin, i, left, y) && y > 0.0
    ensures 0.0 <= s <= y && Gain(f, mass, g) <= f(y) - f(y - s)
  {
    OnOthersWithin(g, mass, room, pmin, i);
    if s == 0.0 {
      NoGain(f, mass, g);
    } else {
      var u := f(y) - f(y - s);
      var slope := AverageSlope(u, s);
      SlopesBelow(f, mass, room, pmin, i, left, y, g, s, slope);
      GainAtSlope(f, slope, mass, g, s, u);
    }
  }

  lemma SomeHides(mass: seq<Option<real>>, g: seq<real>) returns (l: nat)
    requires |g| == |mass| && Gain(Identity, mass, g) != 0.0
    ensures l < |mass| && mass[l].Some? && g[l] != 0.0
  {
    if forall l :: 0 <= l < |mass| && mass[l].Some? ==> g[l] == 0.0 {
      NoGain(Identity, mass, g);
      assert false;
    }
    l :| l < |mass| && mass[l].Some? && g[l] != 0.0;
  }

  lemma HasRoom(h: real, room: nat, pmin: real)
    requires Hideable(h, room, pmin) && h != 0.0
    ensures room > 0
  {
    if room == 0 { NoRoom(h, room, pmin); }
  }

  // What h puts on the absent letters and on the other listed options.
  lemma Parted(mass: seq<Option<real>>, room: seq<nat>, pmin: real, left: real, spellings: int, h: seq<real>, i: nat)
    requires RoomOf(room, mass, spellings) && pmin > 0.0 && i < |mass| && mass[i].Some? && Allowed(h, pmin, left, room)
    ensures var g, u := h[i := 0.0], AbsentOf(mass, h);
      && OnOthers(g, mass, room, pmin, i) && NonNegative(h)
      && Within(u, Full(spellings, pmin), left - Gain(Identity, mass, g))
  {
    Cleared(mass, h, left, i);
    AllowedAbsent(h, mass, pmin, left, spellings, room);
  }

  lemma StayBelowChoice(mass: seq<Option<real>>, room: seq<nat>, pmin: real, full: real, left: real, f: real -> real,
      alloc: seq<real>, g: seq<real>, u: seq<real>, i: nat, n: nat, q: nat, y: real)
    requires Convex(f) && Growing(f) && f(0.0) == 0.0 && R.MassesOk(mass) && pmin > 0.0
      && OnOthers(g, mass, room, pmin, i)
    requires |u| == |alloc| == n && Within(u, full, left - Gain(Identity, mass, g))
      && R.Worst(f, Min(full, left), left, alloc)
    requires Divided(left, full, n, q, y) && StayBelow(mass, room, pmin, i, left, y)
    ensures Gain(f, mass, g) + SumOf(f, u) <= SumOf(f, alloc)
  {
    var s := Gain(Identity, mass, g);
    SumNonNegative(u);
    GainBelow(f, mass, room, pmin, i, left, y, g, s);
    StackIsBest(f, n, q, full, y - s, u);
    StackReached(f, n, q, full, y, left, alloc);
  }

  // From the choices of amounts to the share.
  lemma SettledHolds(c: seq<real>, mass: seq<Option<real>>, room: seq<nat>, left: real, pmin: real, spellings: int,
      f: real -> real, alloc: seq<real>, z: real, i: nat, w: World)
    requires R.Weighing(f) && Growing(f) && R.MassesOk(mass) && pmin > 0.0 && RoomOf(room, mass, spellings)
    requires i < |mass| && Weighs(c, mass, f, alloc, i, z) && NonNegative(alloc) && Consistent(w, pmin, left, room)
    requires var h := Extra(w, |mass|); Gain(f, mass, h[i := 0.0]) + SumOf(f, AbsentOf(mass, h)) <= SumOf(f, alloc)
    ensures c[i] <= WorldShare(f, mass, w, i)
  {
    WorldAllowed(w, pmin, left, room);
    KnownPositive(f, mass, i);
    R.SumOfNonNegative(f, alloc);
    SharesHold(f, mass, SumOf(f, alloc), Extra(w, |mass|), i, f(mass[i].value), z);
  }

  lemma StayBelowWorld(c: seq<real>, mass: seq<Option<real>>, room: seq<nat>, left: real, pmin: real, spellings: int,
      full: real, f: real -> real, alloc: seq<real>, z: real, i: nat, q: nat, y: real, w: World)
    requires R.Weighing(f) && Growing(f) && Convex(f) && R.MassesOk(mass) && pmin > 0.0 && RoomOf(room, mass, spellings)
    requires i < |mass| && Weighs(c, mass, f, alloc, i, z) && Consistent(w, pmin, left, room)
    requires full == Full(spellings, pmin) && R.Worst(f, Min(full, left), left, alloc)
    requires Divided(left, full, R.Absent(mass), q, y) && StayBelow(mass, room, pmin, i, left, y)
    ensures c[i] <= WorldShare(f, mass, w, i)
  {
    var h := Extra(w, |mass|);
    WorldAllowed(w, pmin, left, room);
    Parted(mass, room, pmin, left, spellings, h, i);
    StayBelowChoice(mass, room, pmin, full, left, f, alloc, h[i := 0.0], AbsentOf(mass, h), i, R.Absent(mass), q, y);
    SettledHolds(c, mass, room, left, pmin, spellings, f, alloc, z, i, w);
  }

  lemma {:induction false} KnownPositive(f: real -> real, mass: seq<Option<real>>, i: nat)
    requires R.Weighing(f) && R.MassesOk(mass) && i < |mass| && mass[i].Some?
    ensures SumOf(f, R.Known(mass)) >= f(mass[i].value)
    decreases |mass|
  {
    var n := |mass| - 1;
    KnownSnoc(f, mass);
    if i < n { KnownPositive(f, mass[..n], i); } else { KnownNonNegative(f, mass[..n]); }
  }

  lemma {:induction false} KnownNonNegative(f: real -> real, mass: seq<Option<real>>)
    requires R.Weighing(f) && R.MassesOk(mass)
    ensures SumOf(f, R.Known(mass)) >= 0.0
    decreases |mass|
  {
    if mass != [] {
      KnownSnoc(f, mass);
      KnownNonNegative(f, mass[..|mass| - 1]);
    }
  }

  lemma StayBelowWorlds(c: seq<real>, mass: seq<Option<real>>, room: seq<nat>, left: real, pmin: real, spellings: int,
      full: real, f: real -> real, alloc: seq<real>, z: real, i: nat, q: nat, y: real)
    requires R.Weighing(f) && Growing(f) && Convex(f) && R.MassesOk(mass) && pmin > 0.0 && RoomOf(room, mass, spellings)
    requires i < |mass| && Weighs(c, mass, f, alloc, i, z) && full == Full(spellings, pmin)
    requires R.Worst(f, Min(full, left), left, alloc)
    requires Divided(left, full, R.Absent(mass), q, y) && StayBelow(mass, room, pmin, i, left, y)
    ensures NeverBelow(c, mass, pmin, left, room, f, i)
  {
    forall w: World | Consistent(w, pmin, left, room) ensures c[i] <= WorldShare(f, mass, w, i) {
      StayBelowWorld(c, mass, room, left, pmin, spellings, full, f, alloc, z, i, q, y, w);
    }
  }

  lemma BelowBound(c: seq<real>, mass: seq<Option<real>>, room: seq<nat>, left: real, pmin: real, spellings: int,
      b: real, full: real, f: real -> real, i: nat, q: nat, y: real)
    requires R.Weighing(f) && Growing(f) && Convex(f) && R.MassesOk(mass) && pmin > 0.0 && RoomOf(room, mass, spellings)
    requires i < |mass| == |c| && mass[i].Some? && mass[i].value > 0.0 && R.ConservativeOf(c, mass, b, left, f)
    requires full == Full(spellings, pmin) && b == Min(full, left)
    requires Divided(left, full, R.Absent(mass), q, y) && StayBelow(mass, room, pmin, i, left, y)
    ensures NeverBelow(c, mass, pmin, left, room, f, i)
  {
    var alloc, z := WeighsOf(c, mass, b, left, f, i);
    StayBelowWorlds(c, mass, room, left, pmin, spellings, full, f, alloc, z, i, q, y);
  }

  /** Below temperature 1, for any number of other listed options: while each of them stays at or below the last
      letter's amount with all they could hide, the conservative share is the least option i can have. */
  lemma StayBelowHolds(c: seq<real>, mass: seq<Option<real>>, room: seq<nat>, left: real, pmin: real, spellings: int,
      f: real -> real, a: real, i: nat, q: nat, y: real)
    requires Setting(mass, room, pmin, spellings, f, a) && a > 1.0 && i < |mass| == |c| && mass[i].Some?
      && mass[i].value > 0.0
    requires R.ConservativeOf(c, mass, R.Bound(spellings, pmin, left), left, f)
    requires Divided(left, Full(spellings, pmin), R.Absent(mass), q, y) && StayBelow(mass, room, pmin, i, left, y)
    ensures NeverBelow(c, mass, pmin, left, room, f, i)
  {
    assert f(0.0) == 0.0 && Growing(f) && Convex(f);
    BelowBound(c, mass, room, left, pmin, spellings, R.Bound(spellings, pmin, left), Full(spellings, pmin), f, i, q, y);
  }

  // ---------------------------------------------------------------- one other listed option that can hide more

  ghost predicate Only(mass: seq<Option<real>>, room: seq<nat>, i: nat, j: nat)
    requires |room| == |mass|
  {
    Other(mass, room, i, j) && forall l: nat :: Other(mass, room, i, l) ==> l == j
  }

  lemma {:induction false} SpareIs(mass: seq<Option<real>>, room: seq<nat>, pmin: real, i: nat, j: nat)
    requires |room| == |mass| && i != j
    requires forall l :: 0 <= l < |mass| && l != i && l != j && mass[l].Some? ==> room[l] == 0
    ensures Spare(mass, room, pmin, i) == if j < |mass| && mass[j].Some? then Cap(room[j], pmin) else 0.0
    decreases |mass|
  {
    if mass != [] {
      var n := |mass| - 1;
      SpareIs(mass[..n], room[..n], pmin, i, j);
      assert room[n] == 0 ==> Cap(room[n], pmin) == 0.0;
    }
  }

  lemma SpareOfOnly(mass: seq<Option<real>>, room: seq<nat>, pmin: real, i: nat, j: nat)
    requires |room| == |mass| && Only(mass, room, i, j)
    ensures Spare(mass, room, pmin, i) == Cap(room[j], pmin)
  {
    forall l | 0 <= l < |mass| && l != i && l != j && mass[l].Some? ensures room[l] == 0 {
      if room[l] > 0 { assert Other(mass, room, i, l); }
    }
    SpareIs(mass, room, pmin, i, j);
  }

  // With all it has room for the option of mass m is no larger than the last letter; one that weighs nothing
  // only changes places with a letter as long as it has room for no more than a letter.
  predicate Settles(m: real, cap: real, full: real, left: real, y: real) {
    if m == 0.0 then Min(cap, left) <= full else m + cap <= y
  }

  lemma {:induction false} GainOfOne(f: real -> real, mass: seq<Option<real>>, g: seq<real>, j: nat)
    requires |g| == |mass| && forall l :: 0 <= l < |mass| && l != j && mass[l].Some? ==> g[l] == 0.0
    ensures Gain(f, mass, g) == if j < |mass| && mass[j].Some? then f(mass[j].value + g[j]) - f(mass[j].value) else 0.0
    decreases |mass|
  {
    if mass != [] {
      var n := |mass| - 1;
      GainOfOne(f, mass[..n], g[..n], j);
      GainSnoc(f, mass, g);
    }
  }

  // A listed option of mass 0 that hides d is one letter more.
  lemma OneLetterMore(f: real -> real, full: real, left: real, alloc: seq<real>, u: seq<real>, d: real, n: nat, q: nat,
      y: real)
    requires Convex(f) && Growing(f) && f(0.0) == 0.0 && 0.0 <= d <= full && |u| == |alloc| == n
      && Within(u, full, left - d)
    requires R.Worst(f, Min(full, left), left, alloc) && Divided(left, full, n, q, y)
    ensures f(d) + SumOf(f, u) <= SumOf(f, alloc)
  {
    SumSnoc(f, u, d);
    StackIsBest(f, n + 1, q, full, y, u + [d]);
    StackReached(f, n, q, full, y, left, alloc);
  }

  lemma WeightlessChoice(mass: seq<Option<real>>, full: real, left: real, f: real -> real, alloc: seq<real>,
      g: seq<real>,
      u: seq<real>, j: nat, n: nat, q: nat, y: real)
    requires Convex(f) && Growing(f) && f(0.0) == 0.0 && |g| == |mass| && j < |mass| && mass[j] == Some(0.0)
    requires (forall l :: 0 <= l < |mass| && l != j && mass[l].Some? ==> g[l] == 0.0) && 0.0 <= g[j] <= full
    requires |u| == |alloc| == n && Within(u, full, left - Gain(Identity, mass, g))
      && R.Worst(f, Min(full, left), left, alloc)
    requires Divided(left, full, n, q, y)
    ensures Gain(f, mass, g) + SumOf(f, u) <= SumOf(f, alloc)
  {
    var d := g[j];
    assert Gain(f, mass, g) == f(d) && Gain(Identity, mass, g) == d by {
      GainOfOne(f, mass, g, j);
      GainOfOne(Identity, mass, g, j);
    }
    OneLetterMore(f, full, left, alloc, u, d, n, q, y);
  }

  lemma OnlyAmounts(mass: seq<Option<real>>, room: seq<nat>, pmin: real, full: real, left: real, g: seq<real>, i: nat,
      j: nat)
    requires OnOthers(g, mass, room, pmin, i) && pmin > 0.0 && Only(mass, room, i, j) && Gain(Identity, mass, g) <= left
    requires Min(Cap(room[j], pmin), left) <= full
    ensures (forall l :: 0 <= l < |mass| && l != j && mass[l].Some? ==> g[l] == 0.0) && 0.0 <= g[j] <= full
  {
    OnOthersWithin(g, mass, room, pmin, i);
    forall l | 0 <= l < |mass| && l != j && mass[l].Some? ensures g[l] == 0.0 {
      if g[l] != 0.0 { HasRoom(g[l], room[l], pmin); assert Other(mass, room, i, l); }
    }
  }

  lemma WeightlessWorld(c: seq<real>, mass: seq<Option<real>>, room: seq<nat>, left: real, pmin: real, spellings: int,
      full: real, f: real -> real, alloc: seq<real>, z: real, i: nat, j: nat, q: nat, y: real, w: World)
    requires R.Weighing(f) && Growing(f) && Convex(f) && R.MassesOk(mass) && pmin > 0.0 && RoomOf(room, mass, spellings)
    requires i < |mass| && Weighs(c, mass, f, alloc, i, z) && Consistent(w, pmin, left, room)
    requires full == Full(spellings, pmin) && R.Worst(f, Min(full, left), left, alloc)
      && Divided(left, full, R.Absent(mass), q, y)
    requires Only(mass, room, i, j) && mass[j] == Some(0.0) && Min(Cap(room[j], pmin), left) <= full
    ensures c[i] <= WorldShare(f, mass, w, i)
  {
    var h := Extra(w, |mass|);
    var g, u := h[i := 0.0], AbsentOf(mass, h);
    WorldAllowed(w, pmin, left, room);
    Parted(mass, room, pmin, left, spellings, h, i);
    SumNonNegative(u);
    OnlyAmounts(mass, room, pmin, full, left, g, i, j);
    WeightlessChoice(mass, full, left, f, alloc, g, u, j, R.Absent(mass), q, y);
    SettledHolds(c, mass, room, left, pmin, spellings, f, alloc, z, i, w);
  }

  lemma WeightlessHolds(c: seq<real>, mass: seq<Option<real>>, room: seq<nat>, left: real, pmin: real, spellings: int,
      b: real, full: real, f: real -> real, i: nat, j: nat, q: nat, y: real)
    requires R.Weighing(f) && Growing(f) && Convex(f) && R.MassesOk(mass) && pmin > 0.0 && RoomOf(room, mass, spellings)
    requires i < |mass| == |c| && mass[i].Some? && mass[i].value > 0.0 && R.ConservativeOf(c, mass, b, left, f)
    requires full == Full(spellings, pmin) && b == Min(full, left) && Divided(left, full, R.Absent(mass), q, y)
    requires Only(mass, room, i, j) && mass[j] == Some(0.0) && Min(Cap(room[j], pmin), left) <= full
    ensures NeverBelow(c, mass, pmin, left, room, f, i)
  {
    var alloc, z := WeighsOf(c, mass, b, left, f, i);
    forall w: World | Consistent(w, pmin, left, room) ensures c[i] <= WorldShare(f, mass, w, i) {
      WeightlessWorld(c, mass, room, left, pmin, spellings, full, f, alloc, z, i, j, q, y, w);
    }
  }

  // Letter k gives all it holds, letter k' gives v, and option j takes both.
  lemma TwoGive(room: seq<nat>, left: real, pmin: real, h: seq<real>, j: nat, k: nat, k': nat, v: real)
    requires Allowed(h, pmin, left, room) && k < |h| && k' < |h| && j < |h| && k != k' && j != k && j != k'
      && h[j] == 0.0
    requires pmin > 0.0 && 0.0 <= v <= h[k'] && h[k] + v <= Cap(room[j], pmin)
    ensures Allowed(h[k := 0.0][k' := h[k'] - v][j := h[k] + v], pmin, left, room)
  {
    SomeCap(room[k], pmin);
    AllowedUpdate(h, pmin, left, room, k, 0.0);
    SumUpdate(h, k, 0.0);
    AllowedUpdate(h[k := 0.0], pmin, left, room, k', h[k'] - v);
    SumUpdate(h[k := 0.0], k', h[k'] - v);
    AllowedUpdate(h[k := 0.0][k' := h[k'] - v], pmin, left, room, j, h[k] + v);
  }

  lemma TwoGiveWeight(f: real -> real, mass: seq<Option<real>>, h: seq<real>, h1: seq<real>, h2: seq<real>, j: nat,
      k: nat, k': nat, full: real, y: real, v: real)
    requires |h| == |mass| && k < |h| && k' < |h| && j < |h| && k != k' && j != k && j != k' && h[j] == 0.0
    requires f(0.0) == 0.0 && mass[k].None? && mass[k'].None? && mass[j] == Some(0.0) && full == h[k] && y == h[k']
    requires h1 == h[k := 0.0] && h2 == h1[k' := y - v]
    ensures SumOf(f, Held(mass, h2[j := full + v])) == SumOf(f, Held(mass, h)) - f(full) - f(y) + f(y - v) + f(full + v)
  {
    var rest, m := y - v, full + v;
    assert h2[j] == 0.0 && Value(mass[j]) == Value(mass[k]) == Value(mass[k']) == 0.0;
    assert SumOf(f, Held(mass, h2)) == SumOf(f, Held(mass, h)) - f(full) - f(y) + f(rest) by {
      TwoUpdates(f, mass, h, h1, k, k', 0.0, rest, full, 0.0, y, rest);
    }
    HeldUpdate(f, mass, h2, j, m, 0.0, m);
  }

  // It takes the place of a full letter and, with more room than that, some of the last one.
  lemma WeightlessBreaks(c: seq<real>, mass: seq<Option<real>>, room: seq<nat>, left: real, pmin: real, full: real,
      f: real -> real,
      h: seq<real>, i: nat, z: real, j: nat, k: nat, k': nat, y: real)
    requires |room| == |mass| == |c| && i < |mass| && mass[i].Some? && Allowed(h, pmin, left, room) && h[i] == 0.0
    requires f(mass[i].value) > 0.0 && z > 0.0 && c[i] == f(mass[i].value) / z && SumOf(f, Held(mass, h)) >= z
    requires Bends(Negated(f)) && f(0.0) == 0.0 && pmin > 0.0 && Other(mass, room, i, j) && mass[j] == Some(0.0)
      && h[j] == 0.0
    requires k < |mass| && mass[k].None? && h[k] == full && k' < |mass| && mass[k'].None? && h[k'] == y && k != k'
    requires 0.0 < y <= full < Cap(room[j], pmin)
    ensures !NeverBelow(c, mass, pmin, left, room, f, i)
  {
    var v := Min(y, Cap(room[j], pmin) - full);
    TwoGive(room, left, pmin, h, j, k, k', v);
    TwoGiveWeight(f, mass, h, h[k := 0.0], h[k := 0.0][k' := y - v], j, k, k', full, y, v);
    TradeUp(f, y, full, v);
    Breaks(c, mass, pmin, left, room, f, i, z, h[k := 0.0][k' := y - v][j := full + v]);
  }

  lemma {:induction false} PlacedFindsTwo(mass: seq<Option<real>>, ys: seq<real>, s: nat, t: nat)
    returns (k: nat, k': nat)
    requires s < t < |ys| == R.Absent(mass)
    ensures k < k' < |mass| && mass[k].None? && mass[k'].None?
    ensures Placed(mass, ys)[k] == ys[s] && Placed(mass, ys)[k'] == ys[t]
    decreases |mass|
  {
    var n, m := |mass| - 1, |ys| - 1;
    if mass[n].Some? { k, k' := PlacedFindsTwo(mass[..n], ys, s, t); }
    else if t < m { k, k' := PlacedFindsTwo(mass[..n], ys[..m], s, t); }
    else { k := PlacedFinds(mass[..n], ys[..m], s); k' := n; }
  }

  lemma WeightlessStack(c: seq<real>, mass: seq<Option<real>>, room: seq<nat>, left: real, pmin: real, full: real,
      f: real -> real, ys: seq<real>, i: nat, z: real, j: nat, q: nat, y: real)
    requires |ys| == R.Absent(mass) && ys == Stack(|ys|, q, full, y) && Divided(left, full, |ys|, q, y) && q > 0
    requires Chosen(Placed(mass, ys), mass, ys, pmin, left, room, f, z) && Bends(Negated(f)) && f(0.0) == 0.0
      && pmin > 0.0
    requires |c| == |mass| && i < |mass| && mass[i].Some? && f(mass[i].value) > 0.0 && z > 0.0
      && c[i] == f(mass[i].value) / z
    requires Other(mass, room, i, j) && mass[j] == Some(0.0) && Cap(room[j], pmin) > full
    ensures !NeverBelow(c, mass, pmin, left, room, f, i)
  {
    var k, k' := PlacedFindsTwo(mass, ys, 0, q);
    WeightlessBreaks(c, mass, room, left, pmin, full, f, Placed(mass, ys), i, z, j, k, k', y);
  }

  lemma MoreThanALetter(cap: real, left: real, full: real, n: nat, q: nat, y: real)
    requires Divided(left, full, n, q, y) && Min(cap, left) > full
    ensures q > 0 && cap > full
  {
    OneMore(0, full);
  }

  lemma WeightlessCase(c: seq<real>, mass: seq<Option<real>>, room: seq<nat>, left: real, pmin: real, spellings: int,
      f: real -> real, a: real, i: nat, j: nat, q: nat, y: real)
    requires Setting(mass, room, pmin, spellings, f, a) && a > 1.0 && i < |mass| == |c| && mass[i].Some?
      && mass[i].value > 0.0
    requires R.ConservativeOf(c, mass, R.Bound(spellings, pmin, left), left, f)
    requires Divided(left, Full(spellings, pmin), R.Absent(mass), q, y)
    requires Other(mass, room, i, j) && mass[j] == Some(0.0) && Min(Cap(room[j], pmin), left) > Full(spellings, pmin)
    ensures !NeverBelow(c, mass, pmin, left, room, f, i)
  {
    var n, full := R.Absent(mass), Full(spellings, pmin);
    MoreThanALetter(Cap(room[j], pmin), left, full, n, q, y);
    assert Bends(Negated(f)) && f(0.0) == 0.0;
    var h, z, k := Stacked(c, mass, room, left, pmin, spellings, f, a, i, q, y, q);
    WeightlessStack(c, mass, room, left, pmin, full, f, Stack(n, q, full, y), i, z, j, q, y);
  }

  lemma SettlesHolds(c: seq<real>, mass: seq<Option<real>>, room: seq<nat>, left: real, pmin: real, spellings: int,
      f: real -> real, a: real, i: nat, j: nat, q: nat, y: real)
    requires Setting(mass, room, pmin, spellings, f, a) && a > 1.0 && i < |mass| == |c| && mass[i].Some?
      && mass[i].value > 0.0
    requires R.ConservativeOf(c, mass, R.Bound(spellings, pmin, left), left, f)
    requires Divided(left, Full(spellings, pmin), R.Absent(mass), q, y) && Only(mass, room, i, j)
    requires Settles(mass[j].value, Cap(room[j], pmin), Full(spellings, pmin), left, y)
    ensures NeverBelow(c, mass, pmin, left, room, f, i)
  {
    if mass[j].value == 0.0 {
      assert f(0.0) == 0.0 && Growing(f) && Convex(f);
      var b, full := R.Bound(spellings, pmin, left), Full(spellings, pmin);
      WeightlessHolds(c, mass, room, left, pmin, spellings, b, full, f, i, j, q, y);
    } else {
      SpareOfOnly(mass, room, pmin, i, j);
      StayBelowHolds(c, mass, room, left, pmin, spellings, f, a, i, q, y);
    }
  }

  lemma UnsettledBreaks(c: seq<real>, mass: seq<Option<real>>, room: seq<nat>, left: real, pmin: real, spellings: int,
      f: real -> real, a: real, i: nat, j: nat, q: nat, y: real)
    requires Setting(mass, room, pmin, spellings, f, a) && a > 1.0 && i < |mass| == |c| && mass[i].Some?
      && mass[i].value > 0.0
    requires R.ConservativeOf(c, mass, R.Bound(spellings, pmin, left), left, f)
    requires Divided(left, Full(spellings, pmin), R.Absent(mass), q, y) && Other(mass, room, i, j)
    requires !Settles(mass[j].value, Cap(room[j], pmin), Full(spellings, pmin), left, y)
    ensures !NeverBelow(c, mass, pmin, left, room, f, i)
  {
    if mass[j].value == 0.0 {
      WeightlessCase(c, mass, room, left, pmin, spellings, f, a, i, j, q, y);
    } else {
      OutgrownCase(c, mass, room, left, pmin, spellings, f, a, i, j, q, y);
    }
  }

  /** Below temperature 1 with one other listed option that can hide more, and what is left fitting the absent letters
      (q full ones and y on one more): the conservative share is the least option i can have exactly when that
      option settles. */
  lemma OneOtherExact(c: seq<real>, mass: seq<Option<real>>, room: seq<nat>, listed: real, pmin: real, spellings: int,
      f: real -> real, a: real, i: nat, j: nat, q: nat, y: real)
    requires Setting(mass, room, pmin, spellings, f, a) && a > 1.0 && i < |mass| == |c| && mass[i].Some?
    requires R.ConservativeOf(c, mass, R.Bound(spellings, pmin, R.Unlisted(listed)), R.Unlisted(listed), f)
    requires Only(mass, room, i, j) && !Cut(listed)
      && Divided(Left(listed), Full(spellings, pmin), R.Absent(mass), q, y)
    ensures NeverBelow(c, mass, pmin, Left(listed), room, f, i) <==>
      mass[i].value == 0.0 || Settles(mass[j].value, Cap(room[j], pmin), Full(spellings, pmin), Left(listed), y)
  {
    var left := Left(listed);
    if mass[i].value == 0.0 {
      CoveredHolds(c, mass, room, listed, pmin, spellings, f, a, i);
    } else {
      TimesGrows(q, Full(spellings, pmin));
      if Settles(mass[j].value, Cap(room[j], pmin), Full(spellings, pmin), left, y) {
        SettlesHolds(c, mass, room, left, pmin, spellings, f, a, i, j, q, y);
      } else {
        UnsettledBreaks(c, mass, room, left, pmin, spellings, f, a, i, j, q, y);
      }
    }
  }

  // ---------------------------------------------------------------- lists of rows with positive probability

  // Every listed option weighs something, and with all it has room for at least a full letter.
  ghost predicate Ample(mass: seq<Option<real>>, room: seq<nat>, pmin: real, full: real)
    requires |room| == |mass|
  {
    forall l :: 0 <= l < |mass| && mass[l].Some? ==>
      mass[l].value > 0.0 && (room[l] > 0 ==> mass[l].value + Cap(room[l], pmin) >= full)
  }

  lemma {:induction false} SpelledMass(rows: seq<R.Row>, l: char, pmin: real)
    requires pmin > 0.0 && forall r :: 0 <= r < |rows| ==> rows[r].p >= pmin
    ensures R.MassOf(rows, l).Some? ==> R.MassOf(rows, l).value >= Times(Spelled(rows, l), pmin) && Spelled(rows, l) > 0
    ensures R.MassOf(rows, l).None? ==> Spelled(rows, l) == 0
    decreases |rows|
  {
    if rows != [] {
      var n := |rows| - 1;
      SpelledMass(rows[..n], l, pmin);
      OneMore(Spelled(rows[..n], l), pmin);
    }
  }

  /** A list in which every row has a positive probability is of that kind. */
  lemma ListsAreAmple(rows: seq<R.Row>, letters: seq<char>, spellings: nat, pmin: real)
    requires R.IsFloor(rows, pmin) && forall r :: 0 <= r < |rows| ==> rows[r].p > 0.0
    ensures Ample(R.MassesOf(rows, letters), RoomFor(rows, letters, spellings), pmin, Full(spellings, pmin))
  {
    var mass, room := R.MassesOf(rows, letters), RoomFor(rows, letters, spellings);
    forall l | 0 <= l < |mass| && mass[l].Some?
      ensures mass[l].value > 0.0 && (room[l] > 0 ==> mass[l].value + Cap(room[l], pmin) >= Full(spellings, pmin))
    {
      var s := Spelled(rows, letters[l]);
      SpelledMass(rows, letters[l], pmin);
      TimesGrows(s, pmin);
      if room[l] > 0 { Together(s, room[l], spellings, pmin); }
    }
  }

  lemma Together(s: nat, room: nat, spellings: nat, pmin: real)
    requires s + room == spellings
    ensures Times(s, pmin) + Cap(room, pmin) == Full(spellings, pmin)
  {
    assert (s as real + room as real) * pmin == s as real * pmin + room as real * pmin;
  }

  // The one other listed option that can hide more would make exactly a full letter, and what is left
  // fills whole letters: it can only change places with one of them.
  ghost predicate ChangesPlaces(mass: seq<Option<real>>, room: seq<nat>, pmin: real, left: real, full: real, i: nat)
    requires |room| == |mass|
  {
    && (exists j: nat :: Only(mass, room, i, j) && mass[j].value + Cap(room[j], pmin) == full)
    && exists q: nat :: 0 < q <= R.Absent(mass) && left == Times(q, full)
  }

  // Two others that would both make a full letter: one changes places with a letter, the other outgrows
  // what is left of it.
  lemma TwoOthersBreak(c: seq<real>, mass: seq<Option<real>>, room: seq<nat>, pmin: real, left: real, full: real,
      f: real -> real,
      h: seq<real>, i: nat, z: real, j: nat, j': nat, k: nat)
    requires |room| == |mass| == |c| && i < |mass| && mass[i].Some? && Allowed(h, pmin, left, room) && h[i] == 0.0
    requires f(mass[i].value) > 0.0 && z > 0.0 && c[i] == f(mass[i].value) / z && SumOf(f, Held(mass, h)) >= z
    requires Bends(Negated(f)) && pmin > 0.0 && R.MassesOk(mass) && Other(mass, room, i, j)
      && Other(mass, room, i, j') && j != j'
    requires h[j] == 0.0 && h[j'] == 0.0 && mass[j].value > 0.0 && mass[j'].value > 0.0
    requires mass[j].value + Cap(room[j], pmin) == full && mass[j'].value + Cap(room[j'], pmin) == full
    requires k < |mass| && mass[k].None? && h[k] == full
    ensures !NeverBelow(c, mass, pmin, left, room, f, i)
  {
    var v, m := Cap(room[j], pmin), mass[j].value;
    var g := h[k := full - v][j := v];
    SomeCap(room[j], pmin);
    SomeCap(room[j'], pmin);
    MovedAllowed(room, pmin, left, h, k, j, v);
    HeldUpdate(f, mass, h, k, full - v, full, full - v);
    HeldUpdate(f, mass, h[k := full - v], j, v, m, full);
    OutgrownBreaks(c, mass, room, pmin, left, f, g, i, z, j', k);
  }

  lemma TwoOthersCase(c: seq<real>, mass: seq<Option<real>>, room: seq<nat>, left: real, pmin: real, spellings: int,
      f: real -> real, a: real, i: nat, j: nat, j': nat, q: nat)
    requires Setting(mass, room, pmin, spellings, f, a) && a > 1.0 && i < |mass| == |c| && mass[i].Some?
      && mass[i].value > 0.0
    requires R.ConservativeOf(c, mass, R.Bound(spellings, pmin, left), left, f)
    requires Divided(left, Full(spellings, pmin), R.Absent(mass), q, Full(spellings, pmin))
    requires Other(mass, room, i, j) && Other(mass, room, i, j') && j != j' && mass[j].value > 0.0
      && mass[j'].value > 0.0
    requires mass[j].value + Cap(room[j], pmin) == Full(spellings, pmin) == mass[j'].value + Cap(room[j'], pmin)
    ensures !NeverBelow(c, mass, pmin, left, room, f, i)
  {
    var full := Full(spellings, pmin);
    var h, z, k := Stacked(c, mass, room, left, pmin, spellings, f, a, i, q, full, q);
    TwoOthersBreak(c, mass, room, pmin, left, full, f, h, i, z, j, j', k);
  }

  lemma AmpleBreaks(c: seq<real>, mass: seq<Option<real>>, room: seq<nat>, left: real, pmin: real, spellings: int,
      f: real -> real, a: real, i: nat, j: nat, q: nat, y: real)
    requires Setting(mass, room, pmin, spellings, f, a) && a > 1.0 && i < |mass| == |c| && mass[i].Some?
      && mass[i].value > 0.0
    requires R.ConservativeOf(c, mass, R.Bound(spellings, pmin, left), left, f)
    requires Divided(left, Full(spellings, pmin), R.Absent(mass), q, y) && Other(mass, room, i, j)
    requires Ample(mass, room, pmin, Full(spellings, pmin))
    requires !ChangesPlaces(mass, room, pmin, left, Full(spellings, pmin), i)
    ensures !NeverBelow(c, mass, pmin, left, room, f, i)
  {
    var full := Full(spellings, pmin);
    if mass[j].value + Cap(room[j], pmin) > y {
      UnsettledBreaks(c, mass, room, left, pmin, spellings, f, a, i, j, q, y);
    } else {
      OneMore(q, full);
      assert left == Times(q + 1, full);
      var j': nat :| Other(mass, room, i, j') && j' != j;
      if mass[j'].value + Cap(room[j'], pmin) > y {
        UnsettledBreaks(c, mass, room, left, pmin, spellings, f, a, i, j', q, y);
      } else {
        TwoOthersCase(c, mass, room, left, pmin, spellings, f, a, i, j, j', q);
      }
    }
  }

  // Whole letters fit the absent ones.
  lemma TimesOrdered(q: nat, n: nat, full: real)
    requires q <= n && full >= 0.0
    ensures Times(q, full) <= Times(n, full)
  {
    Scaled(q as real, n as real, full);
  }

  lemma ChangesFit(mass: seq<Option<real>>, room: seq<nat>, pmin: real, left: real, full: real, i: nat)
    requires |room| == |mass| && full >= 0.0 && ChangesPlaces(mass, room, pmin, left, full, i)
    ensures left <= Times(R.Absent(mass), full)
  {
    var q: nat :| 0 < q <= R.Absent(mass) && left == Times(q, full);
    TimesOrdered(q, R.Absent(mass), full);
  }

  lemma ChangesPlacesHolds(c: seq<real>, mass: seq<Option<real>>, room: seq<nat>, left: real, pmin: real,
      spellings: int,
      f: real -> real, a: real, i: nat)
    requires Setting(mass, room, pmin, spellings, f, a) && a > 1.0 && i < |mass| == |c| && mass[i].Some?
      && mass[i].value > 0.0
    requires R.ConservativeOf(c, mass, R.Bound(spellings, pmin, left), left, f)
    requires Ample(mass, room, pmin, Full(spellings, pmin))
      && ChangesPlaces(mass, room, pmin, left, Full(spellings, pmin), i)
    ensures NeverBelow(c, mass, pmin, left, room, f, i)
  {
    var full := Full(spellings, pmin);
    var j: nat :| Only(mass, room, i, j) && mass[j].value + Cap(room[j], pmin) == full;
    var q: nat :| 0 < q <= R.Absent(mass) && left == Times(q, full);
    FullPositive(spellings, pmin);
    OneMore(q - 1, full);
    SettlesHolds(c, mass, room, left, pmin, spellings, f, a, i, j, q - 1, full);
  }

  /** Below temperature 1, on every list whose rows have positive probabilities: the conservative share is the least
      option i can have exactly when its mass is 0, nothing is left, no other listed option can hide more (and no cut
      is missed), or the only one that can changes places with a letter. The exponent does not enter. */
  lemma ColdListsExact(c: seq<real>, mass: seq<Option<real>>, room: seq<nat>, listed: real, pmin: real, spellings: int,
      f: real -> real, a: real, i: nat)
    requires Setting(mass, room, pmin, spellings, f, a) && a > 1.0 && i < |mass| == |c| && mass[i].Some?
    requires R.ConservativeOf(c, mass, R.Bound(spellings, pmin, R.Unlisted(listed)), R.Unlisted(listed), f)
    requires Ample(mass, room, pmin, Full(spellings, pmin))
    ensures NeverBelow(c, mass, pmin, Left(listed), room, f, i) <==>
      || Covered(mass, room, pmin, listed, spellings, a, i)
      || (!Cut(listed) && ChangesPlaces(mass, room, pmin, Left(listed), Full(spellings, pmin), i))
  {
    var left, full := Left(listed), Full(spellings, pmin);
    if Covered(mass, room, pmin, listed, spellings, a, i) {
      CoveredHolds(c, mass, room, listed, pmin, spellings, f, a, i);
    } else if Cut(listed) || left > Times(R.Absent(mass), full) {
      FullPositive(spellings, pmin);
      if ChangesPlaces(mass, room, pmin, left, full, i) { ChangesFit(mass, room, pmin, left, full, i); }
      UnfitExact(c, mass, room, listed, pmin, spellings, f, a, i);
    } else if ChangesPlaces(mass, room, pmin, left, full, i) {
      ChangesPlacesHolds(c, mass, room, left, pmin, spellings, f, a, i);
    } else {
      FullPositive(spellings, pmin);
      var j: nat :| Other(mass, room, i, j);
      var q, y := Divide(left, full, R.Absent(mass));
      AmpleBreaks(c, mass, room, left, pmin, spellings, f, a, i, j, q, y);
    }
  }

  // ---------------------------------------------------------------- corners

  // Hidden in part: neither nothing nor all an option has room for.
  ghost predicate Partly(h: seq<real>, pmin: real, room: seq<nat>, l: nat) {
    l < |h| == |room| && 0.0 < h[l] < Cap(room[l], pmin)
  }

  ghost predicate OnePart(h: seq<real>, pmin: real, room: seq<nat>) {
    forall l: nat, k: nat :: l < k && Partly(h, pmin, room, l) ==> !Partly(h, pmin, room, k)
  }

  // Every option hides nothing or all it has room for, but for one that takes what is then left of the total.
  ghost predicate Corner(h: seq<real>, pmin: real, total: real, room: seq<nat>) {
    OnePart(h, pmin, room) && forall l: nat :: Partly(h, pmin, room, l) ==> Sum(h) == total
  }

  // Nothing or everything, for each cap.
  function Choices(caps: seq<real>): (s: set<seq<real>>)
    ensures forall h :: h in s ==> |h| == |caps|
  {
    if caps == [] then {[]}
    else
      var n := |caps| - 1;
      set h, v | h in Choices(caps[..n]) && v in {0.0, caps[n]} :: h + [v]
  }

  // Amount l takes what the others leave of the total.
  function Rest(h: seq<real>, l: nat, total: real): seq<real> {
    if l < |h| then h[l := total - Sum(h[l := 0.0])] else h
  }

  function Corners(caps: seq<real>, total: real): set<seq<real>> {
    Choices(caps) + set h, l: nat | h in Choices(caps) && 0 <= l < |caps| :: Rest(h, l, total)
  }

  function Caps(room: seq<nat>, pmin: real): (caps: seq<real>)
    ensures |caps| == |room| && forall l :: 0 <= l < |room| ==> caps[l] == Cap(room[l], pmin)
  {
    seq(|room|, l requires 0 <= l < |room| => Cap(room[l], pmin))
  }

  lemma {:induction false} ChoiceListed(caps: seq<real>, h: seq<real>)
    requires |h| == |caps| && forall l :: 0 <= l < |h| ==> h[l] == 0.0 || h[l] == caps[l]
    ensures h in Choices(caps)
    decreases |caps|
  {
    if caps != [] {
      var n := |caps| - 1;
      ChoiceListed(caps[..n], h[..n]);
      assert h == h[..n] + [h[n]] && h[n] in {0.0, caps[n]};
    }
  }

  /** The corners are among finitely many choices that can be written down from the caps and the total. */
  lemma CornersAreListed(h: seq<real>, pmin: real, total: real, room: seq<nat>)
    requires |h| == |room| && Allowed(h, pmin, total, room) && Corner(h, pmin, total, room)
    ensures h in Corners(Caps(room, pmin), total)
  {
    var caps := Caps(room, pmin);
    if l: nat :| Partly(h, pmin, room, l) {
      var g := h[l := 0.0];
      OnlyPart(h, g, pmin, room, l);
      forall k | 0 <= k < |g| ensures g[k] == 0.0 || g[k] == caps[k] {
        assert k != l ==> !Partly(g, pmin, room, k) && Hideable(g[k], room[k], pmin);
      }
      ChoiceListed(caps, g);
      SumUpdate(h, l, 0.0);
      assert g[l := 0.0] == g && Rest(g, l, total) == h;
    } else {
      forall k | 0 <= k < |h| ensures h[k] == 0.0 || h[k] == caps[k] {
        assert !Partly(h, pmin, room, k) && Hideable(h[k], room[k], pmin);
      }
      ChoiceListed(caps, h);
    }
  }

  ghost function Parts(h: seq<real>, pmin: real, room: seq<nat>): set<nat> {
    set l: nat | l < |h| && Partly(h, pmin, room, l)
  }

  // Mass goes from the lighter of two options to the heavier, until one is empty or the other full.
  lemma Pour(f: real -> real, mass: seq<Option<real>>, h: seq<real>, pmin: real, total: real, room: seq<nat>, l: nat,
      k: nat) returns (g: seq<real>)
    requires Convex(f) && R.MassesOk(mass) && |h| == |mass| == |room| && Allowed(h, pmin, total, room)
    requires l != k && Partly(h, pmin, room, l) && Partly(h, pmin, room, k)
      && Value(mass[l]) + h[l] <= Value(mass[k]) + h[k]
    ensures Allowed(g, pmin, total, room) && |g| == |h| && SumOf(f, Held(mass, g)) >= SumOf(f, Held(mass, h))
    ensures (forall t :: 0 <= t < |h| && t != l && t != k ==> g[t] == h[t])
      && (g[l] == 0.0 || g[k] == Cap(room[k], pmin))
  {
    var v := Min(h[l], Cap(room[k], pmin) - h[k]);
    g := h[l := h[l] - v][k := h[k] + v];
    PouredAllowed(room, pmin, total, h, l, k, v);
    PouredWeight(f, mass, h, h[l := h[l] - v], l, k, v, Value(mass[l]) + h[l], Value(mass[k]) + h[k]);
  }

  lemma PouredAllowed(room: seq<nat>, pmin: real, total: real, h: seq<real>, l: nat, k: nat, v: real)
    requires Allowed(h, pmin, total, room) && l < |h| && k < |h| && l != k
    requires 0.0 <= v <= h[l] && h[k] + v <= Cap(room[k], pmin)
    ensures Allowed(h[l := h[l] - v][k := h[k] + v], pmin, total, room)
  {
    AllowedUpdate(h, pmin, total, room, l, h[l] - v);
    SumUpdate(h, l, h[l] - v);
    AllowedUpdate(h[l := h[l] - v], pmin, total, room, k, h[k] + v);
  }

  lemma PouredWeight(f: real -> real, mass: seq<Option<real>>, h: seq<real>, h': seq<real>, l: nat, k: nat, v: real,
      a: real, b: real)
    requires Convex(f) && |h| == |mass| && l < |h| && k < |h| && l != k && h' == h[l := h[l] - v]
    requires a == Value(mass[l]) + h[l] && b == Value(mass[k]) + h[k] && 0.0 <= a - v <= a <= b <= b + v
    ensures SumOf(f, Held(mass, h'[k := h[k] + v])) >= SumOf(f, Held(mass, h))
  {
    var p, q := a - v, b + v;
    PouredSum(f, mass, h, h', l, k, h[l] - v, h[k] + v, a, p, b, q, SumOf(f, Held(mass, h)));
    SpreadPair(f, p, a, b, q);
  }

  lemma PouredSum(f: real -> real, mass: seq<Option<real>>, h: seq<real>, h': seq<real>, l: nat, k: nat, x: real,
      y: real, a: real, p: real, b: real, q: real, w: real)
    requires |h| == |mass| && l < |h| && k < |h| && l != k && h' == h[l := x] && w == SumOf(f, Held(mass, h))
    requires a == Value(mass[l]) + h[l] && p == Value(mass[l]) + x
    requires b == Value(mass[k]) + h[k] && q == Value(mass[k]) + y
    ensures SumOf(f, Held(mass, h'[k := y])) - w == (f(p) + f(q)) - (f(a) + f(b))
  {
    TwoUpdates(f, mass, h, h', l, k, x, y, a, p, b, q);
  }

  lemma FewerParts(h: seq<real>, g: seq<real>, pmin: real, room: seq<nat>, l: nat, k: nat)
    requires |g| == |h| == |room| && Partly(h, pmin, room, l) && Partly(h, pmin, room, k)
    requires (forall t :: 0 <= t < |h| && t != l && t != k ==> g[t] == h[t])
      && (g[l] == 0.0 || g[k] == Cap(room[k], pmin))
    ensures |Parts(g, pmin, room)| < |Parts(h, pmin, room)|
  {
    var p, q := Parts(h, pmin, room), Parts(g, pmin, room);
    forall t | t in q ensures t in p {
      if t != l && t != k { assert g[t] == h[t]; }
    }
    var gone := if g[l] == 0.0 then l else k;
    assert gone in p && gone !in q;
    SmallerSet(q, p, gone);
  }

  lemma SmallerSet(q: set<nat>, p: set<nat>, x: nat)
    requires q <= p && x in p && x !in q
    ensures |q| < |p|
  {
    var d := p - q;
    assert x in d && p == q + d;
    assert |d| > 0;
    assert |p| == |q| + |d|;
  }

  // The one partly filled option takes what is left, or as much as it has room for.
  lemma TopUp(f: real -> real, mass: seq<Option<real>>, h: seq<real>, pmin: real, total: real, room: seq<nat>, i: nat)
    returns (g: seq<real>)
    requires Growing(f) && R.MassesOk(mass) && |h| == |mass| == |room| && Allowed(h, pmin, total, room) && i < |h|
      && h[i] == 0.0
    requires OnePart(h, pmin, room)
    ensures |g| == |h| && Allowed(g, pmin, total, room) && Corner(g, pmin, total, room) && g[i] == 0.0
    ensures SumOf(f, Held(mass, g)) >= SumOf(f, Held(mass, h))
  {
    if l: nat :| Partly(h, pmin, room, l) {
      var x := h[l] + Min(Cap(room[l], pmin) - h[l], total - Sum(h));
      g := h[l := x];
      AllowedUpdate(h, pmin, total, room, l, x);
      SumUpdate(h, l, x);
      var m := Value(mass[l]);
      HeldUpdate(f, mass, h, l, x, m + h[l], m + x);
      assert GrowingAt(f, m + h[l], m + x);
      OnlyPart(h, g, pmin, room, l);
    } else {
      g := h;
    }
  }

  lemma OnlyPart(h: seq<real>, g: seq<real>, pmin: real, room: seq<nat>, l: nat)
    requires OnePart(h, pmin, room) && Partly(h, pmin, room, l) && |g| == |h|
      && forall t :: 0 <= t < |h| && t != l ==> g[t] == h[t]
    ensures forall k: nat :: k != l ==> !Partly(g, pmin, room, k)
  {
    forall k: nat | k != l ensures !Partly(g, pmin, room, k) {
      if k < |h| {
        assert g[k] == h[k];
        if k < l {
          assert !(Partly(h, pmin, room, k) && Partly(h, pmin, room, l));
        } else {
          assert !Partly(h, pmin, room, k);
        }
      }
    }
  }

  /** Where f bends up, some corner choice weighs at least as much as any choice. */
  lemma ToCorner(f: real -> real, mass: seq<Option<real>>, h: seq<real>, pmin: real, total: real, room: seq<nat>,
      i: nat) returns (g: seq<real>)
    requires Convex(f) && Growing(f) && R.MassesOk(mass) && |h| == |mass| == |room| && Allowed(h, pmin, total, room)
      && i < |h| && h[i] == 0.0
    ensures |g| == |h| && Allowed(g, pmin, total, room) && Corner(g, pmin, total, room) && g[i] == 0.0
    ensures SumOf(f, Held(mass, g)) >= SumOf(f, Held(mass, h))
    decreases |Parts(h, pmin, room)|
  {
    if OnePart(h, pmin, room) {
      g := TopUp(f, mass, h, pmin, total, room, i);
      return;
    }
    var l: nat, k: nat :| l < k && Partly(h, pmin, room, l) && Partly(h, pmin, room, k);
    if Value(mass[l]) + h[l] > Value(mass[k]) + h[k] { l, k := k, l; }
    g := Pour(f, mass, h, pmin, total, room, l, k);
    FewerParts(h, g, pmin, room, l, k);
    g := ToCorner(f, mass, g, pmin, total, room, i);
  }

  // What the conservative distribution weighs, by the greedy filling of the absent letters.
  function GreedyWeight(mass: seq<Option<real>>, listed: real, pmin: real, spellings: int, f: real -> real): real {
    var total := R.Unlisted(listed);
    SumOf(f, R.Known(mass)) + SumOf(f, GreedyFill(Even(R.Absent(mass), R.Bound(spellings, pmin, total)), total))
  }

  // No allowed corner choice that hides nothing of option i weighs more than w.
  ghost predicate CornersWithin(mass: seq<Option<real>>, pmin: real, total: real, room: seq<nat>, f: real -> real,
      i: nat, w: real)
    requires i < |mass| == |room|
  {
    forall h: seq<real> :: h in Corners(Caps(room, pmin), total) && Allowed(h, pmin, total, room) && h[i] == 0.0 ==>
      SumOf(f, Held(mass, h)) <= w
  }

  lemma {:induction false} GreedyFeasible(cs: seq<real>, rem: real)
    requires NonNegative(cs) && rem >= 0.0
    ensures Feasible(cs, rem, GreedyFill(cs, rem))
    decreases |cs|
  {
    if cs != [] {
      var n := |cs| - 1;
      var g := Min(cs[n], rem);
      GreedyFeasible(cs[..n], rem - g);
      SumSnoc(Identity, GreedyFill(cs[..n], rem - g), g);
    }
  }

  // Every worst allocation weighs as much as the greedy filling.
  lemma WorstWeight(f: real -> real, n: nat, b: real, total: real, alloc: seq<real>)
    requires Convex(f) && Growing(f) && b >= 0.0 && total >= 0.0 && |alloc| == n && R.Worst(f, b, total, alloc)
    ensures SumOf(f, alloc) == SumOf(f, GreedyFill(Even(n, b), total))
  {
    var y := GreedyFill(Even(n, b), total);
    GreedyFeasible(Even(n, b), total);
    GreedyOptimal(f, Even(n, b), total, alloc);
    assert R.Beaten(f, b, total, alloc, y);
  }

  // Taking away what is hidden of option i lowers its share.
  lemma WithoutOwn(f: real -> real, mass: seq<Option<real>>, h: seq<real>, i: nat)
    requires R.Weighing(f) && Growing(f) && R.MassesOk(mass) && NonNegative(h)
    requires |h| == |mass| && i < |mass| && SumOf(f, R.Known(mass)) > 0.0
    ensures SumOf(f, Held(mass, h[i := 0.0])) > 0.0
      && R.Share(f, Held(mass, h[i := 0.0]), i) <= R.Share(f, Held(mass, h), i)
  {
    var m := Value(mass[i]);
    HeldPositive(f, mass, h[i := 0.0]);
    HeldPositive(f, mass, h);
    OwnLess(f, mass, h, h[i := 0.0], i, m);
  }

  lemma OwnLess(f: real -> real, mass: seq<Option<real>>, h: seq<real>, g: seq<real>, i: nat, m: real)
    requires R.Weighing(f) && Growing(f) && |h| == |mass| && i < |mass|
    requires g == h[i := 0.0] && m == Value(mass[i]) >= 0.0 && h[i] >= 0.0
    requires SumOf(f, Held(mass, h)) > 0.0 && SumOf(f, Held(mass, g)) > 0.0 && NonNegative(Held(mass, h))
      && NonNegative(Held(mass, g))
    ensures R.Share(f, Held(mass, g), i) <= R.Share(f, Held(mass, h), i)
  {
    var p := m + h[i];
    HeldUpdate(f, mass, h, i, 0.0, p, m);
    PartOf(f, Held(mass, g), i);
    PartOf(f, Held(mass, h), i);
    assert GrowingAt(f, m, p) && Held(mass, g)[i] == m && Held(mass, h)[i] == p;
    ShareAbove(f, Held(mass, h), i, f(m), SumOf(f, Held(mass, g)));
  }

  lemma HeldPositive(f: real -> real, mass: seq<Option<real>>, h: seq<real>)
    requires R.Weighing(f) && Growing(f) && R.MassesOk(mass) && NonNegative(h)
    requires |h| == |mass| && SumOf(f, R.Known(mass)) > 0.0
    ensures SumOf(f, Held(mass, h)) > 0.0 && NonNegative(Held(mass, h))
  {
    WeightSplits(f, mass, h);
    GainNonNegative(f, mass, h);
    AbsentNonNegative(f, mass, h);
    HeldNonNegative(mass, h);
  }

  // A choice no heavier than z leaves option i its part of z.
  lemma LighterShare(f: real -> real, mass: seq<Option<real>>, h: seq<real>, i: nat, z: real)
    requires |h| == |mass| && i < |mass| && h[i] == 0.0 && 0.0 < SumOf(f, Held(mass, h)) <= z
      && f(Value(mass[i])) >= 0.0
    ensures f(Value(mass[i])) / z <= R.Share(f, Held(mass, h), i)
  {
    Ratio(f(Value(mass[i])), z, f(Value(mass[i])), SumOf(f, Held(mass, h)));
  }

  lemma NothingOwn(h: seq<real>, pmin: real, total: real, room: seq<nat>, i: nat)
    requires Allowed(h, pmin, total, room) && i < |h| && pmin > 0.0
    ensures Allowed(h[i := 0.0], pmin, total, room)
  {
    Scaled(0.0, room[i] as real, pmin);
    AllowedUpdate(h, pmin, total, room, i, 0.0);
  }

  lemma WithinCorners(mass: seq<Option<real>>, room: seq<nat>, total: real, pmin: real, f: real -> real, i: nat,
      z: real, h: seq<real>)
    requires R.Weighing(f) && Growing(f) && Convex(f) && R.MassesOk(mass) && |room| == |mass| == |h| && i < |mass|
      && pmin > 0.0
    requires SumOf(f, R.Known(mass)) > 0.0 && CornersWithin(mass, pmin, total, room, f, i, z) && z > 0.0
    requires Allowed(h, pmin, total, room)
    ensures f(Value(mass[i])) / z <= R.Share(f, Held(mass, h), i)
  {
    var h0 := h[i := 0.0];
    NothingOwn(h, pmin, total, room, i);
    var g := ToCorner(f, mass, h0, pmin, total, room, i);
    CornersAreListed(g, pmin, total, room);
    WithoutOwn(f, mass, h, i);
    LighterShare(f, mass, h0, i, z);
  }

  lemma CornersHold(c: seq<real>, mass: seq<Option<real>>, room: seq<nat>, total: real, pmin: real, f: real -> real,
      i: nat, z: real)
    requires R.Weighing(f) && Growing(f) && Convex(f) && R.MassesOk(mass) && |room| == |mass| == |c| && i < |mass|
      && pmin > 0.0
    requires SumOf(f, R.Known(mass)) > 0.0 && CornersWithin(mass, pmin, total, room, f, i, z)
    requires z > 0.0 && c[i] == f(Value(mass[i])) / z
    ensures NeverBelow(c, mass, pmin, total, room, f, i)
  {
    forall w: World | Consistent(w, pmin, total, room) ensures c[i] <= WorldShare(f, mass, w, i) {
      WorldAllowed(w, pmin, total, room);
      WithinCorners(mass, room, total, pmin, f, i, z, Extra(w, |mass|));
    }
  }

  lemma CornerBreaks(c: seq<real>, mass: seq<Option<real>>, room: seq<nat>, total: real, pmin: real, f: real -> real,
      i: nat, z: real)
    requires |room| == |mass| == |c| && i < |mass| && mass[i].Some? && f(mass[i].value) > 0.0 && z > 0.0
    requires c[i] == f(mass[i].value) / z && !CornersWithin(mass, pmin, total, room, f, i, z)
    ensures !NeverBelow(c, mass, pmin, total, room, f, i)
  {
    var h: seq<real> :| h in Corners(Caps(room, pmin), total) && Allowed(h, pmin, total, room) && h[i] == 0.0
      && SumOf(f, Held(mass, h)) > z;
    Breaks(c, mass, pmin, total, room, f, i, z, h);
  }

  lemma UnlistedBounds(listed: real, spellings: int, pmin: real)
    requires spellings >= 1 && pmin > 0.0
    ensures R.Unlisted(listed) >= 0.0 && R.Bound(spellings, pmin, R.Unlisted(listed)) >= 0.0
  {
    FullPositive(spellings, pmin);
  }

  /** At temperature 1 and below, for any list: the conservative share is the least option i can have exactly when no
      corner choice weighs more than the listed masses and the greedy filling of the absent letters. */
  lemma ColdCorners(c: seq<real>, mass: seq<Option<real>>, room: seq<nat>, listed: real, pmin: real, spellings: int,
      f: real -> real, i: nat)
    requires R.Weighing(f) && Growing(f) && Convex(f) && R.MassesOk(mass) && pmin > 0.0 && spellings >= 1
    requires |room| == |mass| == |c| && i < |mass| && mass[i].Some?
    requires R.ConservativeOf(c, mass, R.Bound(spellings, pmin, R.Unlisted(listed)), R.Unlisted(listed), f)
    ensures NeverBelow(c, mass, pmin, Left(listed), room, f, i) <==>
      || mass[i].value == 0.0
      || CornersWithin(mass, pmin, Left(listed), room, f, i, GreedyWeight(mass, listed, pmin, spellings, f))
  {
    var total, left := R.Unlisted(listed), Left(listed);
    var b := R.Bound(spellings, pmin, total);
    var alloc, x, z := ConservativeWeight(c, mass, b, total, f, i);
    UnlistedBounds(listed, spellings, pmin);
    WorstWeight(f, R.Absent(mass), b, total, alloc);
    if mass[i].value == 0.0 {
      forall w: World | Consistent(w, pmin, left, room) ensures c[i] <= WorldShare(f, mass, w, i) {
        ZeroHolds(c, mass, b, total, f, i, w, pmin, left, room);
      }
    } else if CornersWithin(mass, pmin, left, room, f, i, z) {
      CornersHold(c, mass, room, left, pmin, f, i, z);
    } else {
      CornerBreaks(c, mass, room, left, pmin, f, i, z);
    }
  }
}
