module Worlds
  /**
    Hidden worlds: what a first-token list leaves open. Every unlisted token weighs at most the smallest
    listed probability, everything unlisted weighs what the list leaves, and a letter has only so many
    spellings (internal/readout/readout.go, package comment).
  */
{
  import opened Numeric
  import opened Wrappers
  import opened Allocation
  import R = Readout

  // A token the engine did not list; letter is the option it spells, if any.
  datatype HiddenToken = HiddenToken(letter: Option<nat>, p: real)

  type World = seq<HiddenToken>

  function Total(w: World): real { if w == [] then 0.0 else Total(w[..|w| - 1]) + w[|w| - 1].p }

  // What token t adds to letter l.
  function Adds(t: HiddenToken, l: nat): real { if t.letter == Some(l) then t.p else 0.0 }

  function MassIn(w: World, l: nat): real { if w == [] then 0.0 else MassIn(w[..|w| - 1], l) + Adds(w[|w| - 1], l) }

  function Spellings(w: World, l: nat): nat {
    if w == [] then 0 else Spellings(w[..|w| - 1], l) + if w[|w| - 1].letter == Some(l) then 1 else 0
  }

  // The list is the top-n: nothing hidden beats pmin, total is all there is left, and room[l] spellings
  // of letter l are not listed.
  ghost predicate Consistent(w: World, pmin: real, total: real, room: seq<nat>) {
    && (forall t :: 0 <= t < |w| ==> 0.0 <= w[t].p <= pmin)
    && Total(w) <= total
    && forall l :: 0 <= l < |room| ==> Spellings(w, l) <= room[l]
  }

  // An absent letter can be hidden in every spelling; a listed one in those that are not listed.
  ghost predicate RoomOf(room: seq<nat>, mass: seq<Option<real>>, spellings: int) {
    |room| == |mass| && forall l :: 0 <= l < |mass| && mass[l].None? ==> room[l] == spellings
  }

  // How many rows spell letter l, and how many of s spellings they leave.
  function Spelled(rows: seq<R.Row>, l: char): nat {
    if rows == [] then 0
    else Spelled(rows[..|rows| - 1], l) + if R.LetterOf(rows[|rows| - 1].tok) == Some(l) then 1 else 0
  }

  function RoomFor(rows: seq<R.Row>, letters: seq<char>, spellings: nat): (room: seq<nat>)
    ensures |room| == |letters|
  {
    seq(|letters|, l requires 0 <= l < |letters| =>
      if Spelled(rows, letters[l]) <= spellings then spellings - Spelled(rows, letters[l]) else 0)
  }

  lemma {:induction false} AbsentUnspelled(rows: seq<R.Row>, l: char)
    ensures R.MassOf(rows, l).None? <==> Spelled(rows, l) == 0
    decreases |rows|
  {
    if rows != [] { AbsentUnspelled(rows[..|rows| - 1], l); }
  }

  lemma RoomForIs(rows: seq<R.Row>, letters: seq<char>, spellings: nat)
    ensures RoomOf(RoomFor(rows, letters, spellings), R.MassesOf(rows, letters), spellings)
  {
    forall l | 0 <= l < |letters|
      ensures R.MassesOf(rows, letters)[l].None? ==> RoomFor(rows, letters, spellings)[l] == spellings {
      AbsentUnspelled(rows, letters[l]);
    }
  }

  function Value(m: Option<real>): real { if m.Some? then m.value else 0.0 }

  // What the letters hold with h on top of the listed masses.
  function Held(mass: seq<Option<real>>, h: seq<real>): (r: seq<real>)
    requires |h| == |mass|
    ensures |r| == |mass| && forall l :: 0 <= l < |mass| ==> r[l] == Value(mass[l]) + h[l]
  {
    seq(|mass|, l requires 0 <= l < |mass| => Value(mass[l]) + h[l])
  }

  // What the world hides of each of n letters, listed or not.
  function Extra(w: World, n: nat): (h: seq<real>)
    ensures |h| == n && forall l :: 0 <= l < n ==> h[l] == MassIn(w, l)
  {
    seq(n, l requires 0 <= l < n => MassIn(w, l))
  }

  // The share of option i in that world: listed and hidden mass of every option counts.
  function WorldShare(f: real -> real, mass: seq<Option<real>>, w: World, i: nat): real
    requires i < |mass|
  {
    R.Share(f, Held(mass, Extra(w, |mass|)), i)
  }

  // Nothing hidden spells a listed option other than i.
  ghost predicate HidesNoOther(w: World, mass: seq<Option<real>>, i: nat) {
    forall l: nat :: l < |mass| && l != i && mass[l].Some? ==> MassIn(w, l) == 0.0
  }

  // Amounts a world can hide.
  ghost predicate Allowed(h: seq<real>, pmin: real, total: real, room: seq<nat>) {
    && |h| == |room| && Sum(h) <= total
    && forall l :: 0 <= l < |h| ==> Hideable(h[l], room[l], pmin)
  }

  // An amount that fits that many tokens.
  ghost predicate Hideable(h: real, room: nat, pmin: real) { 0.0 <= h <= room as real * pmin }

  // ---------------------------------------------------------------- worlds and amounts

  lemma {:induction false} MassInBounds(w: World, l: nat, pmin: real)
    requires forall t :: 0 <= t < |w| ==> 0.0 <= w[t].p <= pmin
    ensures 0.0 <= MassIn(w, l) <= Spellings(w, l) as real * pmin
    decreases |w|
  {
    if w != [] {
      var n := |w| - 1;
      MassInBounds(w[..n], l, pmin);
      var k := Spellings(w[..n], l) as real;
      assert (k + 1.0) * pmin == k * pmin + pmin;
    }
  }

  lemma SumOfOne(n: nat, l: nat, v: real)
    requires l < n
    ensures Sum(R.Zeros(n)[l := v]) == v
  {
    SumOfZeros(R.Zeros(n));
    SumUpdate(R.Zeros(n), l, v);
  }

  lemma OneTokenMore(w: World, n: nat)
    requires w != [] && w[|w| - 1].p >= 0.0
    ensures Sum(Extra(w, n)) <= Sum(Extra(w[..|w| - 1], n)) + w[|w| - 1].p
  {
    var t, w0 := w[|w| - 1], w[..|w| - 1];
    var d := if t.letter.Some? && t.letter.value < n then R.Zeros(n)[t.letter.value := t.p] else R.Zeros(n);
    SumPointwise(Extra(w0, n), d, Extra(w, n));
    if t.letter.Some? && t.letter.value < n { SumOfOne(n, t.letter.value, t.p); } else { SumOfZeros(d); }
  }

  // The letters together hide no more than everything hidden.
  lemma {:induction false} ExtraTotal(w: World, n: nat)
    requires forall t :: 0 <= t < |w| ==> 0.0 <= w[t].p
    ensures Sum(Extra(w, n)) <= Total(w)
    decreases |w|
  {
    if w == [] {
      SumOfZeros(Extra(w, n));
    } else {
      ExtraTotal(w[..|w| - 1], n);
      OneTokenMore(w, n);
    }
  }

  lemma LetterAllowed(w: World, pmin: real, total: real, room: seq<nat>, l: nat)
    requires Consistent(w, pmin, total, room) && pmin > 0.0 && l < |room|
    ensures Hideable(MassIn(w, l), room[l], pmin)
  {
    MassInBounds(w, l, pmin);
    MoreRoom(MassIn(w, l), Spellings(w, l), room[l], pmin);
  }

  lemma MoreRoom(m: real, k: nat, room: nat, pmin: real)
    requires 0.0 <= m <= k as real * pmin && k <= room && pmin > 0.0
    ensures Hideable(m, room, pmin)
  {
    Scaled(k as real, room as real, pmin);
  }

  lemma WorldAllowed(w: World, pmin: real, total: real, room: seq<nat>)
    requires Consistent(w, pmin, total, room) && pmin > 0.0
    ensures Allowed(Extra(w, |room|), pmin, total, room)
  {
    ExtraTotal(w, |room|);
    forall l | 0 <= l < |room| ensures Hideable(MassIn(w, l), room[l], pmin) {
      LetterAllowed(w, pmin, total, room, l);
    }
  }

  // k tokens of letter l, together v.
  function Copies(l: nat, k: nat, v: real): (w: World)
    ensures |w| == k && forall t :: 0 <= t < k ==> w[t].letter == Some(l) && (k > 0 ==> w[t].p == v / k as real)
  {
    seq(k, _ => HiddenToken(Some(l), if k > 0 then v / k as real else 0.0))
  }

  lemma {:induction false} CopiesHold(w: World, l: nat, p: real, j: nat)
    requires forall t :: 0 <= t < |w| ==> w[t] == HiddenToken(Some(l), p)
    ensures Total(w) == |w| as real * p && MassIn(w, j) == (if j == l then |w| as real * p else 0.0)
    ensures Spellings(w, j) == if j == l then |w| else 0
    decreases |w|
  {
    if w != [] {
      var n := |w| - 1;
      CopiesHold(w[..n], l, p, j);
      assert (n as real + 1.0) * p == n as real * p + p;
    }
  }

  lemma {:induction false} Joined(u: World, v: World, l: nat)
    ensures Total(u + v) == Total(u) + Total(v) && MassIn(u + v, l) == MassIn(u, l) + MassIn(v, l)
    ensures Spellings(u + v, l) == Spellings(u, l) + Spellings(v, l)
    decreases |v|
  {
    if v == [] {
      assert u + v == u;
    } else {
      var n := |v| - 1;
      Joined(u, v[..n], l);
      assert (u + v)[..|u + v| - 1] == u + v[..n];
    }
  }

  lemma TokenSize(h: real, k: nat, pmin: real)
    requires 0.0 <= h <= k as real * pmin && k > 0
    ensures 0.0 <= h / k as real <= pmin && k as real * (h / k as real) == h
  {
    var q := h / k as real;
    assert q * k as real == h;
    CancelRight(q, pmin, k as real);
  }

  // One letter's amount, in as many tokens as it has room for.
  lemma CopiesOf(l: nat, k: nat, h: real, pmin: real)
    requires 0.0 <= h <= k as real * pmin
    ensures Total(Copies(l, k, h)) == h && MassIn(Copies(l, k, h), l) == h && Spellings(Copies(l, k, h), l) == k
    ensures forall j: nat :: j != l ==> MassIn(Copies(l, k, h), j) == 0.0 && Spellings(Copies(l, k, h), j) == 0
    ensures forall t :: 0 <= t < k ==> 0.0 <= Copies(l, k, h)[t].p <= pmin
  {
    var w, p := Copies(l, k, h), if k > 0 then h / k as real else 0.0;
    if k > 0 { TokenSize(h, k, pmin); } else { assert k as real * pmin == 0.0; }
    forall j: nat
      ensures Total(w) == |w| as real * p && MassIn(w, j) == (if j == l then |w| as real * p else 0.0)
        && Spellings(w, j) == if j == l then |w| else 0 {
      CopiesHold(w, l, p, j);
    }
    assert |w| as real * p == h && MassIn(w, l) == |w| as real * p;
  }

  ghost predicate Realises(w: World, h: seq<real>, pmin: real, room: seq<nat>, n: nat)
    requires n <= |h| == |room|
  {
    && (forall t :: 0 <= t < |w| ==> 0.0 <= w[t].p <= pmin)
    && Total(w) == Sum(h[..n])
    && (forall l :: 0 <= l < n ==> MassIn(w, l) == h[l] && Spellings(w, l) == room[l])
    && forall l: nat :: l >= n ==> MassIn(w, l) == 0.0 && Spellings(w, l) == 0
  }

  lemma {:induction false} WorldTo(h: seq<real>, pmin: real, total: real, room: seq<nat>, n: nat) returns (w: World)
    requires Allowed(h, pmin, total, room) && n <= |h|
    ensures Realises(w, h, pmin, room, n)
    decreases n
  {
    if n == 0 { return []; }
    var u := WorldTo(h, pmin, total, room, n - 1);
    var v := Copies(n - 1, room[n - 1], h[n - 1]);
    CopiesOf(n - 1, room[n - 1], h[n - 1], pmin);
    w := u + v;
    Joined(u, v, 0);
    PrefixSnoc(x => x, h, n);
    forall l: nat
      ensures MassIn(w, l) == MassIn(u, l) + MassIn(v, l) && Spellings(w, l) == Spellings(u, l) + Spellings(v, l) {
      Joined(u, v, l);
    }
  }

  /** Every allowed choice of amounts is hidden by some consistent world. */
  lemma WorldOf(h: seq<real>, pmin: real, total: real, room: seq<nat>) returns (w: World)
    requires Allowed(h, pmin, total, room)
    ensures Consistent(w, pmin, total, room) && Extra(w, |room|) == h
  {
    w := WorldTo(h, pmin, total, room, |h|);
    assert h[..|h|] == h;
  }

  // ---------------------------------------------------------------- the absent letters

  // The amounts of the absent letters, in letter order.
  function AbsentOf(mass: seq<Option<real>>, h: seq<real>): (y: seq<real>)
    requires |h| == |mass|
    ensures |y| == R.Absent(mass)
    decreases |mass|
  {
    if mass == [] then []
    else
      var n := |mass| - 1;
      var y := AbsentOf(mass[..n], h[..n]);
      if mass[n].None? then y + [h[n]] else y
  }

  // What hidden mass on the listed letters adds to their weights.
  function Gain(f: real -> real, mass: seq<Option<real>>, h: seq<real>): real
    requires |h| == |mass|
    decreases |mass|
  {
    if mass == [] then 0.0
    else
      var n := |mass| - 1;
      Gain(f, mass[..n], h[..n]) + if mass[n].Some? then f(mass[n].value + h[n]) - f(mass[n].value) else 0.0
  }

  lemma HeldSnoc(f: real -> real, mass: seq<Option<real>>, h: seq<real>)
    requires |h| == |mass| && mass != []
    ensures var n := |mass| - 1;
      SumOf(f, Held(mass, h)) == SumOf(f, Held(mass[..n], h[..n])) + f(Value(mass[n]) + h[n])
  {
    var n := |mass| - 1;
    assert Held(mass, h)[..n] == Held(mass[..n], h[..n]);
  }

  lemma KnownSnoc(f: real -> real, mass: seq<Option<real>>)
    requires mass != []
    ensures var n := |mass| - 1;
      SumOf(f, R.Known(mass)) == SumOf(f, R.Known(mass[..n])) + if mass[n].Some? then f(mass[n].value) else 0.0
  {
    var n := |mass| - 1;
    if mass[n].Some? { SumSnoc(f, R.Known(mass[..n]), mass[n].value); }
  }

  lemma AbsentSnoc(f: real -> real, mass: seq<Option<real>>, h: seq<real>)
    requires |h| == |mass| && mass != []
    ensures var n := |mass| - 1; var y, y0 := AbsentOf(mass, h), AbsentOf(mass[..n], h[..n]);
      && SumOf(f, y) == SumOf(f, y0) + (if mass[n].None? then f(h[n]) else 0.0)
      && Sum(y) == Sum(y0) + if mass[n].None? then h[n] else 0.0
  {
    var n := |mass| - 1;
    if mass[n].None? { SumSnoc(f, AbsentOf(mass[..n], h[..n]), h[n]); }
  }

  // The weight of a world splits into listed masses, absent letters and that gain.
  lemma {:induction false} WeightSplits(f: real -> real, mass: seq<Option<real>>, h: seq<real>)
    requires |h| == |mass|
    ensures SumOf(f, Held(mass, h)) == SumOf(f, R.Known(mass)) + SumOf(f, AbsentOf(mass, h)) + Gain(f, mass, h)
    decreases |mass|
  {
    if mass != [] {
      var n := |mass| - 1;
      WeightSplits(f, mass[..n], h[..n]);
      SplitsSnoc(f, mass, h);
    }
  }

  lemma SplitsSnoc(f: real -> real, mass: seq<Option<real>>, h: seq<real>)
    requires |h| == |mass| && mass != []
    ensures var m, g := mass[..|mass| - 1], h[..|mass| - 1];
      var before, after := SumOf(f, Held(m, g)), SumOf(f, Held(mass, h));
      after - before == SumOf(f, R.Known(mass)) - SumOf(f, R.Known(m))
        + SumOf(f, AbsentOf(mass, h)) - SumOf(f, AbsentOf(m, g)) + Gain(f, mass, h) - Gain(f, m, g)
  {
    HeldSnoc(f, mass, h);
    KnownSnoc(f, mass);
    AbsentSnoc(f, mass, h);
    GainSnoc(f, mass, h);
  }

  lemma GainSnoc(f: real -> real, mass: seq<Option<real>>, h: seq<real>)
    requires |h| == |mass| && mass != []
    ensures var n := |mass| - 1;
      Gain(f, mass, h) - Gain(f, mass[..n], h[..n])
        == if mass[n].Some? then f(mass[n].value + h[n]) - f(mass[n].value) else 0.0
  {
  }

  // The gain at f(x) == x is the mass hidden on listed letters.
  lemma {:induction false} MassSplits(mass: seq<Option<real>>, h: seq<real>)
    requires |h| == |mass|
    ensures Sum(h) == Sum(AbsentOf(mass, h)) + Gain(Identity, mass, h)
    decreases |mass|
  {
    if mass != [] {
      var n := |mass| - 1;
      MassSplits(mass[..n], h[..n]);
      AbsentSnoc(x => x, mass, h);
    }
  }

  lemma {:induction false} NoGain(f: real -> real, mass: seq<Option<real>>, h: seq<real>)
    requires |h| == |mass| && forall l :: 0 <= l < |mass| && mass[l].Some? ==> h[l] == 0.0
    ensures Gain(f, mass, h) == 0.0
    decreases |mass|
  {
    if mass != [] { NoGain(f, mass[..|mass| - 1], h[..|h| - 1]); }
  }

  // Clearing listed option i takes its gain away and leaves the absent letters alone.
  lemma {:induction false} GainWithout(f: real -> real, mass: seq<Option<real>>, h: seq<real>, i: nat)
    requires |h| == |mass| && i < |mass| && mass[i].Some?
    ensures Gain(f, mass, h) == Gain(f, mass, h[i := 0.0]) + f(mass[i].value + h[i]) - f(mass[i].value)
    ensures AbsentOf(mass, h[i := 0.0]) == AbsentOf(mass, h)
    decreases |mass|
  {
    var n := |mass| - 1;
    if i < n {
      GainWithout(f, mass[..n], h[..n], i);
      assert h[i := 0.0][..n] == h[..n][i := 0.0];
    } else {
      assert h[i := 0.0][..n] == h[..n];
    }
  }

  lemma {:induction false} AbsentBounds(mass: seq<Option<real>>, h: seq<real>, b: real)
    requires |h| == |mass| && forall l :: 0 <= l < |mass| && mass[l].None? ==> 0.0 <= h[l] <= b
    ensures forall k :: 0 <= k < |AbsentOf(mass, h)| ==> 0.0 <= AbsentOf(mass, h)[k] <= b
    decreases |mass|
  {
    if mass != [] { AbsentBounds(mass[..|mass| - 1], h[..|h| - 1], b); }
  }

  lemma {:induction false} AbsentTotal(mass: seq<Option<real>>, h: seq<real>)
    requires |h| == |mass| && NonNegative(h)
    ensures Sum(AbsentOf(mass, h)) <= Sum(h)
    decreases |mass|
  {
    if mass != [] {
      var n := |mass| - 1;
      AbsentTotal(mass[..n], h[..n]);
      AbsentSnoc(x => x, mass, h);
    }
  }

  // Each amount at most b, together at most total.
  ghost predicate Within(y: seq<real>, b: real, total: real) {
    Sum(y) <= total && forall k :: 0 <= k < |y| ==> 0.0 <= y[k] <= b
  }

  lemma UnderBound(m: real, room: nat, spellings: int, pmin: real, total: real)
    requires 0.0 <= m <= room as real * pmin && room == spellings && m <= total
    ensures m <= R.Bound(spellings, pmin, total)
  {
  }

  lemma AllowedAbsent(h: seq<real>, mass: seq<Option<real>>, pmin: real, total: real, spellings: int, room: seq<nat>)
    requires Allowed(h, pmin, total, room) && RoomOf(room, mass, spellings)
    ensures Within(AbsentOf(mass, h), R.Bound(spellings, pmin, total), total)
  {
    SumNonNegative(h);
    AbsentTotal(mass, h);
    AllowedBounds(h, mass, pmin, total, spellings, room, R.Bound(spellings, pmin, total));
    AbsentBounds(mass, h, R.Bound(spellings, pmin, total));
  }

  lemma AllowedBounds(h: seq<real>, mass: seq<Option<real>>, pmin: real, total: real, spellings: int, room: seq<nat>,
      b: real)
    requires Allowed(h, pmin, total, room) && RoomOf(room, mass, spellings) && b == R.Bound(spellings, pmin, total)
    ensures forall l :: 0 <= l < |mass| && mass[l].None? ==> 0.0 <= h[l] <= b
  {
    SumNonNegative(h);
    forall l | 0 <= l < |mass| && mass[l].None?
      ensures 0.0 <= h[l] <= b { UnderBound(h[l], room[l], spellings, pmin, total); }
  }

  /** The bound of an absent letter is derived: every consistent world respects it and the joint limit. */
  lemma WorldIsFeasible(w: World, mass: seq<Option<real>>, pmin: real, total: real, spellings: int, room: seq<nat>)
    requires Consistent(w, pmin, total, room) && RoomOf(room, mass, spellings) && pmin > 0.0
    ensures Within(AbsentOf(mass, Extra(w, |mass|)), R.Bound(spellings, pmin, total), total)
  {
    WorldAllowed(w, pmin, total, room);
    AllowedAbsent(Extra(w, |mass|), mass, pmin, total, spellings, room);
  }

  // ---------------------------------------------------------------- the conservative share

  // c gives option i no more than it has in any consistent world.
  ghost predicate NeverBelow(c: seq<real>, mass: seq<Option<real>>, pmin: real, total: real, room: seq<nat>,
      f: real -> real, i: nat)
    requires i < |mass| == |c|
  {
    forall w: World :: Consistent(w, pmin, total, room) ==> c[i] <= WorldShare(f, mass, w, i)
  }

  // The same over the worlds that hide no listed option but i.
  ghost predicate NeverBelowAbsent(c: seq<real>, mass: seq<Option<real>>, pmin: real, total: real, room: seq<nat>,
      f: real -> real, i: nat)
    requires i < |mass| == |c|
  {
    forall w: World :: Consistent(w, pmin, total, room) && HidesNoOther(w, mass, i) ==>
      c[i] <= WorldShare(f, mass, w, i)
  }

  // x of z against a larger x' of a total whose rest has not grown.
  lemma GrownShare(x: real, z: real, x': real, z': real)
    requires 0.0 <= x <= x' && x <= z && z > 0.0 && 0.0 < z' && x' <= z' && z' - x' <= z - x
    ensures x / z <= x' / z'
  {
    assert x * z' <= x * (x' + (z - x));
    assert x * (x' + (z - x)) == x * x' + x * z - x * x;
    assert x' * z - x * x' - x * z + x * x == (x' - x) * (z - x);
    Ratio(x, z, x', z');
  }

  // What the conservative distribution weighs: the listed masses and a worst allocation of the others.
  lemma ConservativeWeight(c: seq<real>, mass: seq<Option<real>>, b: real, total: real, f: real -> real, i: nat)
    returns (alloc: seq<real>, x: real, z: real)
    requires R.ConservativeOf(c, mass, b, total, f) && i < |mass| && mass[i].Some?
    requires R.Weighing(f) && R.MassesOk(mass)
    ensures |c| == |mass| && |alloc| == R.Absent(mass) && R.Worst(f, b, total, alloc)
    ensures SumOf(f, R.Known(mass)) > 0.0 && SumOf(f, alloc) >= 0.0
    ensures x == f(mass[i].value) && z == SumOf(f, R.Known(mass)) + SumOf(f, alloc) && 0.0 <= x <= z && c[i] == x / z
  {
    alloc :| |alloc| == R.Absent(mass) && R.Worst(f, b, total, alloc) && c == R.Shares(f, R.Fill(mass, alloc));
    x, z := f(mass[i].value), SumOf(f, R.Known(mass)) + SumOf(f, alloc);
    FilledWeight(mass, f, alloc, i, x, z);
    ShareIs(f, R.Fill(mass, alloc), i, x, z);
  }

  lemma FilledWeight(mass: seq<Option<real>>, f: real -> real, alloc: seq<real>, i: nat, x: real, z: real)
    requires |alloc| == R.Absent(mass) && NonNegative(alloc) && i < |mass| && mass[i].Some?
      && SumOf(f, R.Known(mass)) > 0.0
    requires R.Weighing(f) && R.MassesOk(mass)
    requires x == f(mass[i].value) && z == SumOf(f, R.Known(mass)) + SumOf(f, alloc)
    ensures SumOf(f, alloc) >= 0.0 && z > 0.0 && 0.0 <= x <= z
    ensures f(R.Fill(mass, alloc)[i]) == x && SumOf(f, R.Fill(mass, alloc)) == z
  {
    R.SumOfFill(f, mass, alloc);
    R.FillListed(mass, alloc, i);
    R.SumOfNonNegative(f, alloc);
    R.FillNonNegative(mass, alloc);
    PartOf(f, R.Fill(mass, alloc), i);
  }

  lemma PartOf(f: real -> real, w: seq<real>, i: nat)
    requires NonNegative(w) && i < |w| && R.Weighing(f)
    ensures 0.0 <= f(w[i]) <= SumOf(f, w)
  {
    R.SumOfNonNegative(f, w);
    if w[i] == 0.0 { assert f(w[i]) == 0.0; } else { assert f(w[i]) > 0.0; }
  }

  lemma ShareIs(f: real -> real, w: seq<real>, i: nat, x: real, z: real)
    requires i < |w| && f(w[i]) == x && SumOf(f, w) == z && z > 0.0
    ensures R.Share(f, w, i) == x / z
  {
  }

  lemma HeldNonNegative(mass: seq<Option<real>>, h: seq<real>)
    requires |h| == |mass| && NonNegative(h) && R.MassesOk(mass)
    ensures NonNegative(Held(mass, h))
  {
  }

  lemma HeldWeight(f: real -> real, mass: seq<Option<real>>, h: seq<real>, i: nat)
    requires |h| == |mass| && i < |mass| && NonNegative(h) && R.MassesOk(mass)
    requires R.Weighing(f)
    ensures 0.0 <= f(Value(mass[i]) + h[i]) <= SumOf(f, Held(mass, h))
  {
    HeldNonNegative(mass, h);
    PartOf(f, Held(mass, h), i);
  }

  lemma {:induction false} GainNonNegative(f: real -> real, mass: seq<Option<real>>, h: seq<real>)
    requires |h| == |mass| && Growing(f) && NonNegative(h) && R.MassesOk(mass)
    ensures Gain(f, mass, h) >= 0.0
    decreases |mass|
  {
    if mass != [] {
      var n := |mass| - 1;
      GainNonNegative(f, mass[..n], h[..n]);
      if mass[n].Some? { assert GrowingAt(f, mass[n].value, mass[n].value + h[n]); }
    }
  }

  /** A choice of amounts leaves listed option i its conservative share when the gain of the other listed
      options and the weight of the absent ones do not exceed the weight of the worst allocation. */
  lemma SharesHold(f: real -> real, mass: seq<Option<real>>, a: real, h: seq<real>, i: nat, x: real, z: real)
    requires R.Weighing(f) && Growing(f) && R.MassesOk(mass)
    requires SumOf(f, R.Known(mass)) > 0.0 && i < |mass| == |h| && mass[i].Some? && NonNegative(h)
    requires x == f(mass[i].value) && z == SumOf(f, R.Known(mass)) + a && 0.0 <= x <= z && a >= 0.0
    requires Gain(f, mass, h[i := 0.0]) + SumOf(f, AbsentOf(mass, h)) <= a
    ensures x / z <= R.Share(f, Held(mass, h), i)
  {
    WeightWithin(f, mass, h, i);
    WeightAt(f, mass, h, i);
    ShareAbove(f, Held(mass, h), i, x, z);
  }

  lemma WeightAt(f: real -> real, mass: seq<Option<real>>, h: seq<real>, i: nat)
    requires |h| == |mass| && i < |mass| && mass[i].Some? && Growing(f) && NonNegative(h) && R.MassesOk(mass)
    requires R.Weighing(f)
    ensures Held(mass, h)[i] == mass[i].value + h[i]
    ensures f(mass[i].value) <= f(Held(mass, h)[i]) <= SumOf(f, Held(mass, h))
  {
    HeldWeight(f, mass, h, i);
    assert GrowingAt(f, mass[i].value, mass[i].value + h[i]);
  }

  lemma ShareAbove(f: real -> real, held: seq<real>, i: nat, x: real, z: real)
    requires i < |held| && 0.0 <= x <= z && z > 0.0 && x <= f(held[i]) <= SumOf(f, held) && SumOf(f, held) > 0.0
    requires SumOf(f, held) - f(held[i]) <= z - x
    ensures x / z <= R.Share(f, held, i)
  {
    GrownShare(x, z, f(held[i]), SumOf(f, held));
  }

  lemma WeightWithin(f: real -> real, mass: seq<Option<real>>, h: seq<real>, i: nat)
    requires |h| == |mass| && i < |mass| && mass[i].Some? && Growing(f) && NonNegative(h) && R.MassesOk(mass)
    requires R.Weighing(f)
    ensures SumOf(f, Held(mass, h)) - f(mass[i].value + h[i])
      == SumOf(f, R.Known(mass)) - f(mass[i].value) + Gain(f, mass, h[i := 0.0]) + SumOf(f, AbsentOf(mass, h))
    ensures SumOf(f, Held(mass, h)) >= SumOf(f, R.Known(mass))
  {
    WeightSplits(f, mass, h);
    GainWithout(f, mass, h, i);
    GainNonNegative(f, mass, h);
    AbsentNonNegative(f, mass, h);
  }

  lemma AbsentNonNegative(f: real -> real, mass: seq<Option<real>>, h: seq<real>)
    requires |h| == |mass| && NonNegative(h) && R.Weighing(f)
    ensures SumOf(f, AbsentOf(mass, h)) >= 0.0
  {
    SumNonNegative(h);
    AbsentBounds(mass, h, Sum(h));
    R.SumOfNonNegative(f, AbsentOf(mass, h));
  }

  lemma UnhiddenGain(f: real -> real, mass: seq<Option<real>>, w: World, i: nat)
    requires i < |mass| && HidesNoOther(w, mass, i)
    ensures Gain(f, mass, Extra(w, |mass|)[i := 0.0]) == 0.0
  {
    NoGain(f, mass, Extra(w, |mass|)[i := 0.0]);
  }

  /** No consistent world that hides no other listed option gives a listed option less than its conservative share. */
  lemma ConservativeIsWorst(c: seq<real>, mass: seq<Option<real>>, pmin: real, total: real, spellings: int,
      room: seq<nat>, f: real -> real, w: World, i: nat)
    requires R.Weighing(f) && Growing(f) && R.MassesOk(mass) && pmin > 0.0
    requires R.ConservativeOf(c, mass, R.Bound(spellings, pmin, total), total, f) && RoomOf(room, mass, spellings)
    requires Consistent(w, pmin, total, room) && i < |mass| && mass[i].Some? && HidesNoOther(w, mass, i)
    ensures |c| == |mass| && c[i] <= WorldShare(f, mass, w, i)
  {
    var b, h := R.Bound(spellings, pmin, total), Extra(w, |mass|);
    var alloc, x, z := ConservativeWeight(c, mass, b, total, f, i);
    UnhiddenWorld(mass, pmin, total, spellings, room, f, w, i, alloc);
    SharesHold(f, mass, SumOf(f, alloc), h, i, x, z);
  }

  lemma UnhiddenWorld(mass: seq<Option<real>>, pmin: real, total: real, spellings: int, room: seq<nat>,
      f: real -> real, w: World, i: nat, alloc: seq<real>)
    requires RoomOf(room, mass, spellings) && pmin > 0.0 && Consistent(w, pmin, total, room) && i < |mass|
      && HidesNoOther(w, mass, i)
    requires |alloc| == R.Absent(mass) && R.Worst(f, R.Bound(spellings, pmin, total), total, alloc)
    ensures var h := Extra(w, |mass|);
      NonNegative(h) && Gain(f, mass, h[i := 0.0]) + SumOf(f, AbsentOf(mass, h)) <= SumOf(f, alloc)
  {
    WorldIsFeasible(w, mass, pmin, total, spellings, room);
    assert R.Beaten(f, R.Bound(spellings, pmin, total), total, alloc, AbsentOf(mass, Extra(w, |mass|)));
    UnhiddenGain(f, mass, w, i);
    WorldAllowed(w, pmin, total, room);
  }
}
