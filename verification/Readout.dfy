module Readout
  /**
    First-token readout (internal/readout/readout.go): option-letter masses, the bound of an absent
    letter, and the conservative distribution. Maps keyed by option letter are sequences in letter order.
    A log probability is represented by its probability (0 for -Inf), and x^(1/T) by a function pow.
  */
{
  import opened Numeric
  import opened Wrappers
  import opened Allocation

  // One decoded list entry; id is None when the entry carries no integral id.
  datatype Entry = Malformed | NonNumeric | BadLogprob | Entry(tok: string, id: Option<int>, p: real)

  datatype Row = Row(tok: string, id: Option<int>, p: real)

  datatype ReadoutError = BadArgument | Backend | Failed

  datatype Readout = Readout(
    probabilities: seq<real>,
    mass: real,
    upperBounds: seq<Option<real>>,      // Some for an absent letter
    conservative: seq<real>,
    normalisedBounds: seq<Option<real>>, // Some for an absent letter
    listed: real,
    pmin: real,
    unlisted: real)

  const UNLISTED_EPSILON: real := 0.000000001

  const SENTENCEPIECE: char := '\U{2581}'

  // Nothing weighs nothing, anything weighs something.
  ghost predicate Weighing(f: real -> real) { f(0.0) == 0.0 && forall x: real :: x > 0.0 ==> f(x) > 0.0 }

  // x^a for a = 1/T: nothing at 0, positive and growing above, concave up to a = 1, convex beyond.
  ghost predicate Power(f: real -> real, a: real) {
    && Weighing(f)
    && Growing(f)
    && (a <= 1.0 ==> Concave(f))
    && (a > 1.0 ==> Convex(f))
  }

  // ---------------------------------------------------------------- rows

  function LetterOf(tok: string): Option<char> {
    var t := if tok != [] && (tok[0] == ' ' || tok[0] == SENTENCEPIECE) then tok[1..] else tok;
    if |t| == 1 && 'A' <= t[0] <= 'Z' then Some(t[0]) else None
  }

  // A token id listed twice is one row with its highest probability; everything else is its own row.
  function AddRow(rows: seq<Row>, e: Entry): seq<Row>
    requires e.Entry?
  {
    if e.id.None? then rows + [Row(e.tok, e.id, e.p)] else Merge(rows, e)
  }

  function Merge(rows: seq<Row>, e: Entry): seq<Row>
    requires e.Entry?
  {
    if rows == [] then [Row(e.tok, e.id, e.p)]
    else if rows[0].id == e.id then [rows[0].(p := Max(rows[0].p, e.p))] + rows[1..]
    else [rows[0]] + Merge(rows[1..], e)
  }

  function RowsOf(top: seq<Entry>): seq<Row>
    requires forall i :: 0 <= i < |top| ==> top[i].Entry?
  {
    if top == [] then [] else AddRow(RowsOf(top[..|top| - 1]), top[|top| - 1])
  }

  function EntryError(e: Entry): ReadoutError { if e.Malformed? then Backend else Failed }

  // The first unusable entry from i on decides the error class.
  function FirstError(top: seq<Entry>, i: nat): Option<ReadoutError>
    requires i <= |top|
    decreases |top| - i
  {
    if i == |top| then None else if top[i].Entry? then FirstError(top, i + 1) else Some(EntryError(top[i]))
  }

  ghost predicate RowHasId(rows: seq<Row>, i: nat, id: int) { i < |rows| && rows[i].id == Some(id) }

  // The byID map points at the one row of each listed id.
  ghost predicate Indexed(rows: seq<Row>, byID: map<int, nat>) {
    && (forall id :: id in byID ==> RowHasId(rows, byID[id], id))
    && (forall i :: 0 <= i < |rows| && rows[i].id.Some? ==> rows[i].id.value in byID && byID[rows[i].id.value] == i)
  }

  lemma {:induction false} MergeAt(rows: seq<Row>, e: Entry, at: nat)
    requires e.Entry? && at <= |rows|
    requires forall i :: 0 <= i < at ==> rows[i].id != e.id
    requires at < |rows| ==> rows[at].id == e.id
    ensures Merge(rows, e)
      == if at < |rows| then rows[at := rows[at].(p := Max(rows[at].p, e.p))] else rows + [Row(e.tok, e.id, e.p)]
    decreases |rows|
  {
    if rows != [] && rows[0].id != e.id { MergeAt(rows[1..], e, at - 1); }
  }

  method ReadRows(top: seq<Entry>) returns (r: Result<seq<Row>, ReadoutError>)
    ensures FirstError(top, 0) == if r.Ok? then None else Some(r.error)
    ensures r.Ok? ==> (forall i :: 0 <= i < |top| ==> top[i].Entry?) && r.value == RowsOf(top)
  {
    var rows: seq<Row> := [];
    var byID: map<int, nat> := map[];
    for i := 0 to |top|
      invariant forall j :: 0 <= j < i ==> top[j].Entry?
      invariant FirstError(top, 0) == FirstError(top, i)
      invariant rows == RowsOf(top[..i])
      invariant Indexed(rows, byID)
    {
      var e := top[i];
      if !e.Entry? { return Err(EntryError(e)); }
      assert top[..i + 1][..i] == top[..i];
      IndexedStep(rows, byID, e);
      if e.id.Some? && e.id.value in byID {
        var at := byID[e.id.value];
        rows := rows[at := rows[at].(p := Max(rows[at].p, e.p))];
      } else {
        if e.id.Some? { byID := byID[e.id.value := |rows|]; }
        rows := rows + [Row(e.tok, e.id, e.p)];
      }
    }
    assert top[..|top|] == top;
    r := Ok(rows);
  }

  // The map lookup does what the search of AddRow does.
  lemma IndexedStep(rows: seq<Row>, byID: map<int, nat>, e: Entry)
    requires e.Entry? && Indexed(rows, byID)
    ensures e.id.Some? && e.id.value in byID ==>
      var at := byID[e.id.value];
      at < |rows| && AddRow(rows, e) == rows[at := rows[at].(p := Max(rows[at].p, e.p))]
        && Indexed(AddRow(rows, e), byID)
    ensures e.id.Some? && e.id.value !in byID ==>
      AddRow(rows, e) == rows + [Row(e.tok, e.id, e.p)] && Indexed(AddRow(rows, e), byID[e.id.value := |rows|])
    ensures e.id.None? ==> Indexed(AddRow(rows, e), byID)
  {
    if e.id.None? {
      var r := rows + [Row(e.tok, e.id, e.p)];
      forall id | id in byID ensures RowHasId(r, byID[id], id) { assert RowHasId(rows, byID[id], id); }
    } else if e.id.value in byID {
      var at := byID[e.id.value];
      assert RowHasId(rows, at, e.id.value);
      MergeAt(rows, e, at);
      var r := rows[at := rows[at].(p := Max(rows[at].p, e.p))];
      forall id | id in byID ensures RowHasId(r, byID[id], id) { assert RowHasId(rows, byID[id], id); }
    } else {
      MergeAt(rows, e, |rows|);
      var r, m := rows + [Row(e.tok, e.id, e.p)], byID[e.id.value := |rows|];
      forall id | id in m ensures RowHasId(r, m[id], id) {
        if id in byID { assert RowHasId(rows, byID[id], id); }
      }
    }
  }

  // ---------------------------------------------------------------- masses

  // Total listed mass of letter l, None when no row spells it.
  function MassOf(rows: seq<Row>, l: char): Option<real> {
    if rows == [] then None
    else
      var m, r := MassOf(rows[..|rows| - 1], l), rows[|rows| - 1];
      if LetterOf(r.tok) != Some(l) then m
      else if m.None? then Some(r.p) else Some(m.value + r.p)
  }

  function MassesOf(rows: seq<Row>, letters: seq<char>): (m: seq<Option<real>>)
    ensures |m| == |letters| && forall k :: 0 <= k < |m| ==> m[k] == MassOf(rows, letters[k])
  {
    seq(|letters|, k requires 0 <= k < |letters| => MassOf(rows, letters[k]))
  }

  ghost predicate Distinct(letters: seq<char>) {
    forall i, j :: 0 <= i < j < |letters| ==> letters[i] != letters[j]
  }

  method SumMasses(rows: seq<Row>, letters: seq<char>) returns (mass: seq<Option<real>>)
    requires Distinct(letters)
    ensures mass == MassesOf(rows, letters)
  {
    mass := seq(|letters|, _ => None);
    for i := 0 to |rows|
      invariant mass == MassesOf(rows[..i], letters)
    {
      var l := LetterOf(rows[i].tok);
      assert rows[..i + 1][..i] == rows[..i];
      ghost var was := mass;
      for k := 0 to |letters|
        invariant |mass| == |letters|
        invariant forall j :: 0 <= j < k ==> mass[j] == MassOf(rows[..i + 1], letters[j])
        invariant forall j :: k <= j < |letters| ==> mass[j] == was[j]
      {
        if l == Some(letters[k]) {
          mass := mass[k := Some(if mass[k].None? then rows[i].p else mass[k].value + rows[i].p)];
        }
      }
    }
    assert rows[..|rows|] == rows;
  }

  function Listed(rows: seq<Row>): real {
    if rows == [] then 0.0 else Listed(rows[..|rows| - 1]) + rows[|rows| - 1].p
  }

  // p is the smallest positive listed probability.
  ghost predicate IsFloor(rows: seq<Row>, p: real) {
    && (exists i :: 0 <= i < |rows| && rows[i].p == p)
    && p > 0.0
    && forall i :: 0 <= i < |rows| && rows[i].p > 0.0 ==> p <= rows[i].p
  }

  method ListedAndFloor(rows: seq<Row>) returns (listed: real, pmin: real)
    requires exists i :: 0 <= i < |rows| && rows[i].p > 0.0
    ensures listed == Listed(rows) && IsFloor(rows, pmin)
  {
    listed := 0.0;
    var floor: Option<real> := None;
    for i := 0 to |rows|
      invariant listed == Listed(rows[..i])
      invariant floor.None? ==> forall j :: 0 <= j < i ==> rows[j].p <= 0.0
      invariant floor.Some? ==> IsFloor(rows[..i], floor.value)
    {
      assert rows[..i + 1][..i] == rows[..i];
      listed := listed + rows[i].p;
      if rows[i].p > 0.0 && (floor.None? || rows[i].p < floor.value) {
        floor := Some(rows[i].p);
      }
    }
    assert rows[..|rows|] == rows;
    pmin := if floor.Some? then floor.value else 0.0;
  }

  // ---------------------------------------------------------------- distributions

  // The masses of the listed letters, in letter order.
  function Known(mass: seq<Option<real>>): (r: seq<real>)
    ensures |r| <= |mass|
  {
    if mass == [] then []
    else
      var k, m := Known(mass[..|mass| - 1]), mass[|mass| - 1];
      if m.Some? then k + [m.value] else k
  }

  function Absent(mass: seq<Option<real>>): (n: nat)
    ensures n + |Known(mass)| == |mass|
  {
    if mass == [] then 0 else Absent(mass[..|mass| - 1]) + if mass[|mass| - 1].None? then 1 else 0
  }

  // The masses with the absent letters holding xs, in order.
  function Fill(mass: seq<Option<real>>, xs: seq<real>): (r: seq<real>)
    requires |xs| == Absent(mass)
    ensures |r| == |mass|
    decreases |mass|
  {
    if mass == [] then []
    else
      var n := |mass| - 1;
      if mass[n].Some? then Fill(mass[..n], xs) + [mass[n].value]
      else Fill(mass[..n], xs[..|xs| - 1]) + [xs[|xs| - 1]]
  }

  function Zeros(n: nat): (r: seq<real>)
    ensures |r| == n && forall i :: 0 <= i < n ==> r[i] == 0.0
  {
    seq(n, _ => 0.0)
  }

  function Share(f: real -> real, w: seq<real>, i: nat): real
    requires i < |w|
  {
    var z := SumOf(f, w);
    if z == 0.0 then 0.0 else f(w[i]) / z
  }

  function Shares(f: real -> real, w: seq<real>): (r: seq<real>)
    ensures |r| == |w| && forall i :: 0 <= i < |w| ==> r[i] == Share(f, w, i)
  {
    seq(|w|, i requires 0 <= i < |w| => Share(f, w, i))
  }

  // The normalisation loop: f(m) over the total for the letters that hold mass, 0 for the others.
  method Distribution(f: real -> real, w: seq<real>) returns (r: Result<seq<real>, ReadoutError>)
    requires Weighing(f) && NonNegative(w)
    ensures r.Ok? <==> exists i :: 0 <= i < |w| && w[i] > 0.0
    ensures r.Ok? ==> SumOf(f, w) > 0.0 && r.value == Shares(f, w)
  {
    var z, any := 0.0, false;
    for i := 0 to |w|
      invariant z == SumOf(f, w[..i]) && z >= 0.0
      invariant any <==> exists j :: 0 <= j < i && w[j] > 0.0
      invariant any <==> z > 0.0
    {
      assert w[..i + 1][..i] == w[..i];
      if w[i] > 0.0 {
        any := true;
        z := z + f(w[i]);
      } else {
        assert w[i] == 0.0;
      }
    }
    assert w[..|w|] == w;
    if !any { return Err(Failed); }
    var out: seq<real> := [];
    for i := 0 to |w|
      invariant |out| == i && forall j :: 0 <= j < i ==> out[j] == Share(f, w, j)
    {
      if w[i] == 0.0 { assert Share(f, w, i) == 0.0; }
      out := out + [if w[i] > 0.0 then f(w[i]) / z else 0.0];
    }
    r := Ok(out);
  }

  // ---------------------------------------------------------------- the readout

  // What is left for unlisted tokens, with the round-off cut.
  function Unlisted(listed: real): real {
    var u := Max(0.0, 1.0 - listed);
    if u < UNLISTED_EPSILON then 0.0 else u
  }

  function Bound(spellings: int, pmin: real, unlisted: real): real { Min(spellings as real * pmin, unlisted) }

  // y is no better than alloc, if it is an allocation with each letter at most b and all at most total.
  ghost predicate Beaten(f: real -> real, b: real, total: real, alloc: seq<real>, y: seq<real>) {
    |y| == |alloc| && Sum(y) <= total && (forall i :: 0 <= i < |y| ==> 0.0 <= y[i] <= b) ==>
      SumOf(f, y) <= SumOf(f, alloc)
  }

  ghost predicate Worst(f: real -> real, b: real, total: real, alloc: seq<real>) {
    && (forall i :: 0 <= i < |alloc| ==> 0.0 <= alloc[i] <= b)
    && Sum(alloc) <= total
    && forall y: seq<real> :: Beaten(f, b, total, alloc, y)
  }

  function BoundedShare(f: real -> real, mass: seq<Option<real>>, b: real): real {
    var z := SumOf(f, Known(mass)) + f(b);
    if z == 0.0 then 0.0 else f(b) / z
  }

  // c normalises the listed masses together with a worst allocation of the absent ones.
  ghost predicate ConservativeOf(c: seq<real>, mass: seq<Option<real>>, b: real, total: real, f: real -> real) {
    && SumOf(f, Known(mass)) > 0.0
    && exists alloc: seq<real> ::
         |alloc| == Absent(mass) && Worst(f, b, total, alloc) && c == Shares(f, Fill(mass, alloc))
  }

  // v for every absent letter, nothing for the others.
  ghost predicate BoundsAre(bounds: seq<Option<real>>, mass: seq<Option<real>>, v: real) {
    |bounds| == |mass| && forall i :: 0 <= i < |mass| ==> bounds[i] == if mass[i].None? then Some(v) else None
  }

  // What a successful readout reports for the masses and the listing it was computed from.
  ghost predicate Reports(ro: Readout, mass: seq<Option<real>>, listed: real, pmin: real, spellings: int,
      f: real -> real)
  {
    var b := Bound(spellings, pmin, Unlisted(listed));
    && ro.mass == Sum(Known(mass)) && ro.listed == listed && ro.pmin == pmin && ro.unlisted == Unlisted(listed)
    && BoundsAre(ro.upperBounds, mass, b)
    && BoundsAre(ro.normalisedBounds, mass, BoundedShare(f, mass, b))
    && ro.probabilities == Shares(f, Fill(mass, Zeros(Absent(mass))))
    && ConservativeOf(ro.conservative, mass, b, Unlisted(listed), f)
  }

  // A readout of the list top: it reports the masses of its rows.
  ghost predicate Reads(ro: Readout, top: seq<Entry>, letters: seq<char>, spellings: int, f: real -> real) {
    && (forall i :: 0 <= i < |top| ==> top[i].Entry?)
    && IsFloor(RowsOf(top), ro.pmin)
    && Reports(ro, MassesOf(RowsOf(top), letters), Listed(RowsOf(top)), ro.pmin, spellings, f)
  }

  predicate GoodArguments(letters: seq<char>, threshold: real, temperature: real, spellings: int) {
    && spellings >= 1 && |letters| >= 2
    && (forall i :: 0 <= i < |letters| ==> 'A' <= letters[i] <= 'Z')
    && (forall i, j :: 0 <= i < j < |letters| ==> letters[i] != letters[j])
    && 0.0 < threshold <= 1.0 && temperature > 0.0
  }

  // Why a list is refused, in the order of the checks; None when it is read.
  ghost function Refusal(top: seq<Entry>, letters: seq<char>, threshold: real, temperature: real,
      spellings: int): Option<ReadoutError>
  {
    if !GoodArguments(letters, threshold, temperature, spellings) then Some(BadArgument)
    else if top == [] then Some(Backend)
    else if FirstError(top, 0).Some? then FirstError(top, 0)
    else
      NoErrorMeansEntries(top, 0);
      if AllZero(RowsOf(top)) || Sum(Known(MassesOf(RowsOf(top), letters))) < threshold then Some(Failed) else None
  }

  lemma {:induction false} NoErrorMeansEntries(top: seq<Entry>, i: nat)
    requires i <= |top| && FirstError(top, i).None?
    ensures forall j :: i <= j < |top| ==> top[j].Entry?
    decreases |top| - i
  {
    if i < |top| { NoErrorMeansEntries(top, i + 1); }
  }

  ghost predicate AllZero(rows: seq<Row>) { forall i :: 0 <= i < |rows| ==> rows[i].p == 0.0 }

  ghost predicate Probabilities(top: seq<Entry>) {
    forall i :: 0 <= i < |top| && top[i].Entry? ==> top[i].p >= 0.0
  }

  method ComputeRawSpellings(top: seq<Entry>, letters: seq<char>, threshold: real, temperature: real, spellings: int,
      f: real -> real)
    returns (r: Result<Readout, ReadoutError>)
    requires Probabilities(top) && (temperature > 0.0 ==> Power(f, 1.0 / temperature))
    ensures Refusal(top, letters, threshold, temperature, spellings) == if r.Ok? then None else Some(r.error)
    ensures r.Ok? ==> Reads(r.value, top, letters, spellings, f)
  {
    if !GoodArguments(letters, threshold, temperature, spellings) {
      return Err(BadArgument);
    }
    if top == [] {
      return Err(Backend);
    }
    var read := ReadRows(top);
    if read.Err? {
      return Err(read.error);
    }
    var rows := read.value;
    RowsNonNegative(top);
    if forall i :: 0 <= i < |rows| ==> rows[i].p == 0.0 {
      return Err(Failed);
    }
    var mass := SumMasses(rows, letters);
    MassesNonNegative(rows, letters);
    var total := TotalMass(mass);
    if total < threshold {
      return Err(Failed);
    }
    var listed, pmin := ListedAndFloor(rows);
    var ro := Conservative(mass, listed, pmin, spellings, temperature, f);
    r := Ok(ro);
  }

  method TotalMass(mass: seq<Option<real>>) returns (total: real)
    ensures total == Sum(Known(mass))
  {
    total := 0.0;
    for i := 0 to |mass|
      invariant total == Sum(Known(mass[..i]))
    {
      assert mass[..i + 1][..i] == mass[..i];
      if mass[i].Some? {
        SumSnoc(x => x, Known(mass[..i]), mass[i].value);
        total := total + mass[i].value;
      }
    }
    assert mass[..|mass|] == mass;
  }

  ghost predicate MassesOk(mass: seq<Option<real>>) {
    forall i :: 0 <= i < |mass| && mass[i].Some? ==> mass[i].value >= 0.0
  }

  // From the masses on: bounds, worst-case allocation, the two distributions.
  method Conservative(mass: seq<Option<real>>, listed: real, pmin: real, spellings: int, temperature: real,
      f: real -> real)
    returns (ro: Readout)
    requires MassesOk(mass) && Sum(Known(mass)) > 0.0
    requires pmin > 0.0 && spellings >= 1 && temperature > 0.0 && Power(f, 1.0 / temperature)
    ensures Reports(ro, mass, listed, pmin, spellings, f)
  {
    var unlisted := Unlisted(listed);
    var bound := Bound(spellings, pmin, unlisted);
    assert bound >= 0.0;
    KnownPositive(f, mass);
    var probs := FilledDistribution(f, mass, Zeros(Absent(mass)));
    var alloc := WorstMasses(f, Absent(mass), bound, unlisted, 1.0 / temperature);
    var cons := FilledDistribution(f, mass, alloc);
    var ubs, nbs := Bounds(f, mass, bound, unlisted, alloc, cons);
    ro := Readout(probs, Sum(Known(mass)), ubs, cons, nbs, listed, pmin, unlisted);
  }

  method FilledDistribution(f: real -> real, mass: seq<Option<real>>, xs: seq<real>) returns (r: seq<real>)
    requires Weighing(f)
    requires MassesOk(mass) && |xs| == Absent(mass) && NonNegative(xs) && SumOf(f, Known(mass)) > 0.0
    ensures r == Shares(f, Fill(mass, xs))
  {
    FillNonNegative(mass, xs);
    SumOfFill(f, mass, xs);
    SumOfNonNegative(f, xs);
    SomePositive(f, Fill(mass, xs));
    var d := Distribution(f, Fill(mass, xs));
    r := d.value;
  }

  method WorstMasses(f: real -> real, missing: nat, bound: real, unlisted: real, a: real) returns (alloc: seq<real>)
    requires bound >= 0.0 && unlisted >= 0.0 && Power(f, a)
    ensures |alloc| == missing && Worst(f, bound, unlisted, alloc)
  {
    var caps := seq(missing, _ => bound);
    ghost var level;
    alloc, level := WorstAllocation(caps, unlisted, a);
    AllocationWorst(f, bound, unlisted, a, caps, alloc, level);
  }

  method Bounds(f: real -> real, mass: seq<Option<real>>, bound: real, unlisted: real, alloc: seq<real>,
      cons: seq<real>)
    returns (ubs: seq<Option<real>>, nbs: seq<Option<real>>)
    requires Weighing(f) && Growing(f) && bound >= 0.0
    requires SumOf(f, Known(mass)) > 0.0 && |alloc| == Absent(mass) && Worst(f, bound, unlisted, alloc)
    requires cons == Shares(f, Fill(mass, alloc))
    ensures BoundsAre(ubs, mass, bound) && BoundsAre(nbs, mass, BoundedShare(f, mass, bound))
  {
    ubs, nbs := [], [];
    var share := BoundedShare(f, mass, bound);
    AllBelowBound(f, mass, bound, alloc, cons);
    for i := 0 to |mass|
      invariant |ubs| == |nbs| == i
      invariant forall j :: 0 <= j < i ==> ubs[j] == (if mass[j].None? then Some(bound) else None)
      invariant forall j :: 0 <= j < i ==> nbs[j] == (if mass[j].None? then Some(share) else None)
    {
      if mass[i].None? {
        ubs, nbs := ubs + [Some(bound)], nbs + [Some(Max(share, cons[i]))];  // the maximum is always share
      } else {
        ubs, nbs := ubs + [None], nbs + [None];
      }
    }
  }

  // ---------------------------------------------------------------- facts about rows and masses

  lemma {:induction false} MergeNonNegative(rows: seq<Row>, e: Entry)
    requires e.Entry? && e.p >= 0.0 && forall i :: 0 <= i < |rows| ==> rows[i].p >= 0.0
    ensures forall i :: 0 <= i < |Merge(rows, e)| ==> Merge(rows, e)[i].p >= 0.0
    decreases |rows|
  {
    if rows != [] && rows[0].id != e.id { MergeNonNegative(rows[1..], e); }
  }

  lemma {:induction false} RowsNonNegative(top: seq<Entry>)
    requires Probabilities(top) && forall i :: 0 <= i < |top| ==> top[i].Entry?
    ensures forall i :: 0 <= i < |RowsOf(top)| ==> RowsOf(top)[i].p >= 0.0
    decreases |top|
  {
    if top != [] {
      RowsNonNegative(top[..|top| - 1]);
      MergeNonNegative(RowsOf(top[..|top| - 1]), top[|top| - 1]);
    }
  }

  lemma {:induction false} MassNonNegative(rows: seq<Row>, l: char)
    requires forall i :: 0 <= i < |rows| ==> rows[i].p >= 0.0
    ensures MassOf(rows, l).Some? ==> MassOf(rows, l).value >= 0.0
    decreases |rows|
  {
    if rows != [] { MassNonNegative(rows[..|rows| - 1], l); }
  }

  lemma MassesNonNegative(rows: seq<Row>, letters: seq<char>)
    requires forall i :: 0 <= i < |rows| ==> rows[i].p >= 0.0
    ensures MassesOk(MassesOf(rows, letters))
  {
    forall k | 0 <= k < |letters| ensures MassOf(rows, letters[k]).Some? ==> MassOf(rows, letters[k]).value >= 0.0 {
      MassNonNegative(rows, letters[k]);
    }
  }

  lemma {:induction false} KnownNonNegative(mass: seq<Option<real>>)
    requires MassesOk(mass)
    ensures NonNegative(Known(mass))
    decreases |mass|
  {
    if mass != [] { KnownNonNegative(mass[..|mass| - 1]); }
  }

  lemma {:induction false} SumOfNonNegative(f: real -> real, xs: seq<real>)
    requires Weighing(f) && NonNegative(xs)
    ensures SumOf(f, xs) >= 0.0 && (Sum(xs) > 0.0 ==> SumOf(f, xs) > 0.0)
    ensures forall i :: 0 <= i < |xs| ==> f(xs[i]) <= SumOf(f, xs)
    decreases |xs|
  {
    if xs != [] {
      var n := |xs| - 1;
      SumOfNonNegative(f, xs[..n]);
      assert f(xs[n]) >= 0.0;
      forall i | 0 <= i < |xs| ensures f(xs[i]) <= SumOf(f, xs) {
        if i < n { assert xs[..n][i] == xs[i]; }
      }
    }
  }

  lemma KnownPositive(f: real -> real, mass: seq<Option<real>>)
    requires Weighing(f) && MassesOk(mass) && Sum(Known(mass)) > 0.0
    ensures SumOf(f, Known(mass)) > 0.0
  {
    KnownNonNegative(mass);
    SumOfNonNegative(f, Known(mass));
  }

  lemma {:induction false} SumOfZeroWeights(f: real -> real, xs: seq<real>)
    requires f(0.0) == 0.0 && forall i :: 0 <= i < |xs| ==> xs[i] == 0.0
    ensures SumOf(f, xs) == 0.0
    decreases |xs|
  {
    if xs != [] { SumOfZeroWeights(f, xs[..|xs| - 1]); }
  }

  lemma {:induction false} SomePositive(f: real -> real, w: seq<real>)
    requires f(0.0) == 0.0 && NonNegative(w) && SumOf(f, w) > 0.0
    ensures exists i :: 0 <= i < |w| && w[i] > 0.0
  {
    if forall i :: 0 <= i < |w| ==> w[i] == 0.0 { SumOfZeroWeights(f, w); }
  }

  lemma {:induction false} FillNonNegative(mass: seq<Option<real>>, xs: seq<real>)
    requires MassesOk(mass) && |xs| == Absent(mass) && NonNegative(xs)
    ensures NonNegative(Fill(mass, xs))
    decreases |mass|
  {
    if mass != [] {
      var n := |mass| - 1;
      FillNonNegative(mass[..n], if mass[n].Some? then xs else xs[..|xs| - 1]);
    }
  }

  // The denominator splits into the listed letters and the allocation.
  lemma {:induction false} SumOfFill(f: real -> real, mass: seq<Option<real>>, xs: seq<real>)
    requires |xs| == Absent(mass)
    ensures SumOf(f, Fill(mass, xs)) == SumOf(f, Known(mass)) + SumOf(f, xs)
    decreases |mass|
  {
    if mass != [] {
      var n := |mass| - 1;
      if mass[n].Some? {
        SumOfFill(f, mass[..n], xs);
        SumSnoc(f, Fill(mass[..n], xs), mass[n].value);
        SumSnoc(f, Known(mass[..n]), mass[n].value);
      } else {
        SumOfFill(f, mass[..n], xs[..|xs| - 1]);
        SumSnoc(f, Fill(mass[..n], xs[..|xs| - 1]), xs[|xs| - 1]);
      }
    }
  }

  lemma {:induction false} FillListed(mass: seq<Option<real>>, xs: seq<real>, i: nat)
    requires |xs| == Absent(mass) && i < |mass| && mass[i].Some?
    ensures Fill(mass, xs)[i] == mass[i].value
    decreases |mass|
  {
    var n := |mass| - 1;
    if i < n { FillListed(mass[..n], if mass[n].Some? then xs else xs[..|xs| - 1], i); }
  }

  lemma {:induction false} FillAbsent(mass: seq<Option<real>>, xs: seq<real>, i: nat) returns (j: nat)
    requires |xs| == Absent(mass) && i < |mass| && mass[i].None?
    ensures j < |xs| && Fill(mass, xs)[i] == xs[j]
    decreases |mass|
  {
    var n := |mass| - 1;
    if i < n { j := FillAbsent(mass[..n], if mass[n].Some? then xs else xs[..|xs| - 1], i); } else { j := |xs| - 1; }
  }

  // Both branches of the allocation are worst for the function they are used with.
  lemma AllocationWorst(f: real -> real, b: real, total: real, a: real, caps: seq<real>, alloc: seq<real>, level: real)
    requires Power(f, a) && b >= 0.0 && total >= 0.0 && forall i :: 0 <= i < |caps| ==> caps[i] == b
    requires Feasible(caps, total, alloc) && Sum(alloc) == Min(total, Sum(caps))
    requires a <= 1.0 ==> level >= 0.0 && WaterFilled(caps, level, alloc)
    requires a > 1.0 ==> Ordered(caps, Order(caps, |caps|)) && FilledFromTop(caps, Order(caps, |caps|), total, alloc)
    ensures Worst(f, b, total, alloc)
  {
    forall y: seq<real> ensures Beaten(f, b, total, alloc, y) {
      if |y| == |alloc| && Sum(y) <= total && forall i :: 0 <= i < |y| ==> 0.0 <= y[i] <= b {
        BeatsOne(f, b, total, a, caps, alloc, level, y);
      }
    }
  }

  lemma BeatsOne(f: real -> real, b: real, total: real, a: real, caps: seq<real>, alloc: seq<real>, level: real,
      y: seq<real>)
    requires Power(f, a) && b >= 0.0 && total >= 0.0 && forall i :: 0 <= i < |caps| ==> caps[i] == b
    requires Feasible(caps, total, alloc) && Sum(alloc) == Min(total, Sum(caps))
    requires a <= 1.0 ==> level >= 0.0 && WaterFilled(caps, level, alloc)
    requires a > 1.0 ==> Ordered(caps, Order(caps, |caps|)) && FilledFromTop(caps, Order(caps, |caps|), total, alloc)
    requires |y| == |alloc| && Sum(y) <= total && forall i :: 0 <= i < |y| ==> 0.0 <= y[i] <= b
    ensures SumOf(f, y) <= SumOf(f, alloc)
  {
    if a <= 1.0 {
      WaterFillingOptimal(f, caps, total, level, alloc, y);
    } else {
      LargestFirstOptimal(f, caps, total, alloc, y);
    }
  }

  /** The share an absent letter is given never exceeds its reported bound. */
  lemma ConservativeBelowBound(f: real -> real, mass: seq<Option<real>>, b: real, alloc: seq<real>, i: nat)
    requires Weighing(f) && Growing(f) && b >= 0.0
    requires SumOf(f, Known(mass)) > 0.0 && |alloc| == Absent(mass)
      && forall j :: 0 <= j < |alloc| ==> 0.0 <= alloc[j] <= b
    requires i < |mass| && mass[i].None?
    ensures Share(f, Fill(mass, alloc), i) <= BoundedShare(f, mass, b)
  {
    var j := FillAbsent(mass, alloc, i);
    AmountBelow(f, alloc, b, j);
    SumOfFill(f, mass, alloc);
    ShareBelow(f, Fill(mass, alloc), SumOf(f, Known(mass)), SumOf(f, alloc), i, b);
  }

  lemma AllBelowBound(f: real -> real, mass: seq<Option<real>>, b: real, alloc: seq<real>, cons: seq<real>)
    requires Weighing(f) && Growing(f) && b >= 0.0
    requires SumOf(f, Known(mass)) > 0.0 && |alloc| == Absent(mass)
      && forall j :: 0 <= j < |alloc| ==> 0.0 <= alloc[j] <= b
    requires cons == Shares(f, Fill(mass, alloc))
    ensures forall i :: 0 <= i < |mass| && mass[i].None? ==> cons[i] <= BoundedShare(f, mass, b)
  {
    forall i | 0 <= i < |mass| && mass[i].None? ensures cons[i] <= BoundedShare(f, mass, b) {
      ConservativeBelowBound(f, mass, b, alloc, i);
    }
  }

  lemma AmountBelow(f: real -> real, xs: seq<real>, b: real, j: nat)
    requires Weighing(f) && Growing(f)
    requires (forall i :: 0 <= i < |xs| ==> 0.0 <= xs[i] <= b) && j < |xs|
    ensures 0.0 <= f(xs[j]) <= f(b) && f(xs[j]) <= SumOf(f, xs)
  {
    SumOfNonNegative(f, xs);
    assert GrowingAt(f, xs[j], b);
  }

  lemma ShareBelow(f: real -> real, w: seq<real>, k: real, rest: real, i: nat, b: real)
    requires i < |w| && SumOf(f, w) == k + rest && k > 0.0
    requires 0.0 <= f(w[i]) <= f(b) && f(w[i]) <= rest
    ensures Share(f, w, i) <= f(b) / (k + f(b))
  {
    BoundedRatio(k, f(w[i]), f(b), rest);
  }

  lemma BoundedRatio(k: real, x: real, fb: real, rest: real)
    requires k > 0.0 && 0.0 <= x <= fb && x <= rest
    ensures x / (k + rest) <= fb / (k + fb)
  {
    assert x * k <= fb * k;
    assert x * fb <= rest * fb;
    assert x * (k + fb) == x * k + x * fb;
    assert fb * (k + rest) == fb * k + rest * fb;
    Ratio(x, k + rest, fb, k + fb);
  }
}
