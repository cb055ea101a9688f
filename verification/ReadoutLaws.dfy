module ReadoutLaws
  /**
    What the rows, masses and shares of a readout mean (internal/readout/readout.go): the spellings of a letter,
    one row for each token id, which lists are read, and what the two reported distributions and the normalised
    bounds stand for.
  */
{
  import opened Numeric
  import opened Wrappers
  import opened Allocation
  import opened Readout

  // ---------------------------------------------------------------- what the rows and masses are

  /** Three tokens spell a letter: bare, after a space, after the word mark. */
  lemma SpellingsOf(tok: string, l: char)
    ensures LetterOf(tok) == Some(l) <==>
      'A' <= l <= 'Z' && (tok == [l] || tok == [' ', l] || tok == [SENTENCEPIECE, l])
  {
    if LetterOf(tok) == Some(l) {
      if |tok| == 1 { assert tok == [l]; } else { assert tok == [tok[0]] + tok[1..] == [tok[0], l]; }
    }
    assert [' ', l][1..] == [l] && [SENTENCEPIECE, l][1..] == [l];
  }

  ghost predicate DistinctIds(rows: seq<Row>) {
    forall i, j :: 0 <= i < j < |rows| && rows[i].id.Some? ==> rows[i].id != rows[j].id
  }

  // Some entry has the row's id and probability.
  ghost predicate FromEntry(top: seq<Entry>, r: Row) {
    exists t :: 0 <= t < |top| && top[t].Entry? && top[t].id == r.id && top[t].p == r.p
  }

  // A row stands for the entry, with at least its probability.
  ghost predicate InRow(rows: seq<Row>, e: Entry)
    requires e.Entry?
  {
    exists i :: 0 <= i < |rows| && rows[i].id == e.id && e.p <= rows[i].p
  }

  // The rows without an id, in order.
  function Nameless(rows: seq<Row>): seq<Row> {
    if rows == [] then []
    else Nameless(rows[..|rows| - 1]) + if rows[|rows| - 1].id.None? then [rows[|rows| - 1]] else []
  }

  function NamelessEntries(top: seq<Entry>): seq<Row> {
    if top == [] then []
    else
      var e := top[|top| - 1];
      NamelessEntries(top[..|top| - 1]) + if e.Entry? && e.id.None? then [Row(e.tok, e.id, e.p)] else []
  }

  lemma FindId(rows: seq<Row>, id: Option<int>) returns (at: nat)
    ensures at <= |rows| && (at < |rows| ==> rows[at].id == id) && forall i :: 0 <= i < at ==> rows[i].id != id
  {
    at := 0;
    while at < |rows| && rows[at].id != id
      invariant at <= |rows| && forall i :: 0 <= i < at ==> rows[i].id != id
    {
      at := at + 1;
    }
  }

  lemma {:induction false} NamelessUpdate(rows: seq<Row>, at: nat, r: Row)
    requires at < |rows| && rows[at].id.Some? && r.id.Some?
    ensures Nameless(rows[at := r]) == Nameless(rows)
    decreases |rows|
  {
    var n := |rows| - 1;
    if at < n {
      NamelessUpdate(rows[..n], at, r);
      assert rows[at := r][..n] == rows[..n][at := r];
    } else {
      assert rows[at := r][..n] == rows[..n];
    }
  }

  lemma StillFrom(top: seq<Entry>, e: Entry, r: Row)
    requires FromEntry(top, r)
    ensures FromEntry(top + [e], r)
  {
    var t :| 0 <= t < |top| && top[t].Entry? && top[t].id == r.id && top[t].p == r.p;
    assert (top + [e])[t] == top[t];
  }

  lemma LastFrom(top: seq<Entry>, e: Entry)
    requires e.Entry?
    ensures FromEntry(top + [e], Row(e.tok, e.id, e.p))
  {
    assert (top + [e])[|top|] == e;
  }

  ghost predicate AllFrom(rows: seq<Row>, top: seq<Entry>) {
    forall i :: 0 <= i < |rows| ==> FromEntry(top, rows[i])
  }

  ghost predicate AllIn(rows: seq<Row>, top: seq<Entry>) {
    forall t :: 0 <= t < |top| && top[t].Entry? ==> InRow(rows, top[t])
  }

  // Some row has become rows' without losing its id or any probability.
  ghost predicate Kept(rows: seq<Row>, rows': seq<Row>) {
    |rows| <= |rows'| && forall i :: 0 <= i < |rows| ==> rows'[i].id == rows[i].id && rows[i].p <= rows'[i].p
  }

  lemma KeptIn(rows: seq<Row>, rows': seq<Row>, top: seq<Entry>, e: Entry)
    requires AllIn(rows, top) && Kept(rows, rows') && e.Entry? && InRow(rows', e)
    ensures AllIn(rows', top + [e])
  {
    forall t | 0 <= t < |top + [e]| && (top + [e])[t].Entry? ensures InRow(rows', (top + [e])[t]) {
      if t < |top| {
        assert InRow(rows, top[t]);
        var i :| 0 <= i < |rows| && rows[i].id == top[t].id && top[t].p <= rows[i].p;
        assert rows'[i].id == top[t].id && top[t].p <= rows'[i].p;
      }
    }
  }

  // e has become row r: appended at the end, or the one row of its id raised.
  ghost predicate Added(rows: seq<Row>, e: Entry, at: nat, r: Row, rows': seq<Row>) {
    && e.Entry? && at <= |rows| && r.id == e.id && r.p >= e.p
    && rows' == (if at < |rows| then rows[at := r] else rows + [r])
    && (at < |rows| ==> e.id.Some? && rows[at].id == e.id && r.p == Max(rows[at].p, e.p))
    && (at == |rows| ==> r == Row(e.tok, e.id, e.p))
    && (at == |rows| && e.id.Some? ==> forall i :: 0 <= i < |rows| ==> rows[i].id != e.id)
  }

  lemma AddRowIs(rows: seq<Row>, e: Entry) returns (at: nat, r: Row)
    requires e.Entry?
    ensures Added(rows, e, at, r, AddRow(rows, e))
  {
    if e.id.None? {
      at, r := |rows|, Row(e.tok, e.id, e.p);
    } else {
      at := FindId(rows, e.id);
      MergeAt(rows, e, at);
      r := if at < |rows| then rows[at].(p := Max(rows[at].p, e.p)) else Row(e.tok, e.id, e.p);
    }
  }

  lemma LastEntry(top: seq<Entry>) returns (rows: seq<Row>, at: nat, r: Row, rows': seq<Row>)
    requires top != [] && forall i :: 0 <= i < |top| ==> top[i].Entry?
    ensures rows == RowsOf(top[..|top| - 1]) && rows' == RowsOf(top) && top == top[..|top| - 1] + [top[|top| - 1]]
    ensures Added(rows, top[|top| - 1], at, r, rows')
  {
    rows, rows' := RowsOf(top[..|top| - 1]), RowsOf(top);
    at, r := AddRowIs(rows, top[|top| - 1]);
  }

  lemma {:induction false} IdsDistinct(top: seq<Entry>)
    requires forall i :: 0 <= i < |top| ==> top[i].Entry?
    ensures DistinctIds(RowsOf(top))
    decreases |top|
  {
    if top != [] {
      IdsDistinct(top[..|top| - 1]);
      var rows, at, r, rows' := LastEntry(top);
    }
  }

  lemma FromStep(rows: seq<Row>, top: seq<Entry>, e: Entry, at: nat, r: Row, rows': seq<Row>)
    requires AllFrom(rows, top) && Added(rows, e, at, r, rows')
    ensures AllFrom(rows', top + [e])
  {
    forall i | 0 <= i < |rows'| ensures FromEntry(top + [e], rows'[i]) {
      if i != at {
        assert FromEntry(top, rows[i]);
        StillFrom(top, e, rows[i]);
      } else if at < |rows| && r.p == rows[at].p {
        assert FromEntry(top, rows[at]);
        StillFrom(top, e, rows[at]);
        SameFrom(top + [e], rows[at], r);
      } else {
        LastFrom(top, e);
        SameFrom(top + [e], Row(e.tok, e.id, e.p), r);
      }
    }
  }

  lemma SameFrom(top: seq<Entry>, q: Row, r: Row)
    requires FromEntry(top, q) && q.id == r.id && q.p == r.p
    ensures FromEntry(top, r)
  {
  }

  lemma {:induction false} RowsFrom(top: seq<Entry>)
    requires forall i :: 0 <= i < |top| ==> top[i].Entry?
    ensures AllFrom(RowsOf(top), top)
    decreases |top|
  {
    if top != [] {
      var n := |top| - 1;
      RowsFrom(top[..n]);
      var rows, at, r, rows' := LastEntry(top);
      FromStep(rows, top[..n], top[n], at, r, rows');
    }
  }

  lemma KeptStep(rows: seq<Row>, at: nat, r: Row, rows': seq<Row>, e: Entry)
    requires Added(rows, e, at, r, rows')
    ensures Kept(rows, rows') && InRow(rows', e)
  {
    assert rows'[at] == r;
  }

  lemma {:induction false} RowsCover(top: seq<Entry>)
    requires forall i :: 0 <= i < |top| ==> top[i].Entry?
    ensures AllIn(RowsOf(top), top)
    decreases |top|
  {
    if top != [] {
      var n := |top| - 1;
      RowsCover(top[..n]);
      var rows, at, r, rows' := LastEntry(top);
      KeptStep(rows, at, r, rows', top[n]);
      KeptIn(rows, rows', top[..n], top[n]);
    }
  }

  lemma {:induction false} RowsNameless(top: seq<Entry>)
    requires forall i :: 0 <= i < |top| ==> top[i].Entry?
    ensures Nameless(RowsOf(top)) == NamelessEntries(top)
    decreases |top|
  {
    if top != [] {
      var n := |top| - 1;
      RowsNameless(top[..n]);
      var rows, at, r, rows' := LastEntry(top);
      if at < |rows| { NamelessUpdate(rows, at, r); } else { assert (rows + [r])[..|rows|] == rows; }
    }
  }

  /** A token id listed more than once is one row, with its highest probability; entries without an id are rows of
      their own. */
  lemma RowsAreBest(top: seq<Entry>)
    requires forall i :: 0 <= i < |top| ==> top[i].Entry?
    ensures DistinctIds(RowsOf(top)) && AllFrom(RowsOf(top), top) && AllIn(RowsOf(top), top)
    ensures Nameless(RowsOf(top)) == NamelessEntries(top)
  {
    IdsDistinct(top);
    RowsFrom(top);
    RowsCover(top);
    RowsNameless(top);
  }

  function OfLetter(rows: seq<Row>, l: char): seq<Row> {
    if rows == [] then []
    else
      var r := rows[|rows| - 1];
      OfLetter(rows[..|rows| - 1], l) + if LetterOf(r.tok) == Some(l) then [r] else []
  }

  lemma ListedSnoc(rows: seq<Row>, r: Row)
    ensures Listed(rows + [r]) == Listed(rows) + r.p
  {
    assert (rows + [r])[..|rows|] == rows;
  }

  /** A letter's mass is what the rows that spell it hold together. */
  lemma {:induction false} MassIsListed(rows: seq<Row>, l: char)
    ensures MassOf(rows, l) == if OfLetter(rows, l) == [] then None else Some(Listed(OfLetter(rows, l)))
    decreases |rows|
  {
    if rows != [] {
      var n := |rows| - 1;
      MassIsListed(rows[..n], l);
      OneMoreRow(OfLetter(rows[..n], l), OfLetter(rows, l), rows[n], l, MassOf(rows[..n], l), MassOf(rows, l));
    }
  }

  lemma OneMoreRow(before: seq<Row>, after: seq<Row>, r: Row, l: char, m: Option<real>, m': Option<real>)
    requires after == before + if LetterOf(r.tok) == Some(l) then [r] else []
    requires m' == if LetterOf(r.tok) != Some(l) then m else if m.None? then Some(r.p) else Some(m.value + r.p)
    requires m == if before == [] then None else Some(Listed(before))
    ensures m' == if after == [] then None else Some(Listed(after))
  {
    if LetterOf(r.tok) == Some(l) {
      ListedSnoc(before, r);
      assert before == [] ==> Listed(before) == 0.0;
    } else {
      assert after == before;
    }
  }

  /** The first entry that cannot be used decides the error: a malformed one is the engine's. */
  lemma {:induction false} FirstUnusable(top: seq<Entry>, i: nat, from: nat)
    requires from <= i < |top| && !top[i].Entry? && forall j :: from <= j < i ==> top[j].Entry?
    ensures FirstError(top, from) == Some(if top[i].Malformed? then Backend else Failed)
    decreases i - from
  {
    if from < i { FirstUnusable(top, i, from + 1); }
  }

  ghost predicate FirstBad(top: seq<Entry>, i: nat) {
    i < |top| && !top[i].Entry? && forall j :: 0 <= j < i ==> top[j].Entry?
  }

  lemma {:induction false} SomeBad(top: seq<Entry>, n: nat) returns (i: nat)
    requires n < |top| && !top[n].Entry?
    ensures FirstBad(top, i)
    decreases n
  {
    i := n;
    if j: nat :| j < n && !top[j].Entry? { i := SomeBad(top, j); }
  }

  lemma {:induction false} NothingListed(rows: seq<Row>, l: char)
    requires AllZero(rows)
    ensures MassOf(rows, l).Some? ==> MassOf(rows, l).value == 0.0
    decreases |rows|
  {
    if rows != [] { NothingListed(rows[..|rows| - 1], l); }
  }

  lemma {:induction false} NoMass(mass: seq<Option<real>>)
    requires forall i :: 0 <= i < |mass| && mass[i].Some? ==> mass[i].value == 0.0
    ensures Sum(Known(mass)) == 0.0
    decreases |mass|
  {
    if mass != [] {
      var n := |mass| - 1;
      NoMass(mass[..n]);
      if mass[n].Some? { SumSnoc(x => x, Known(mass[..n]), 0.0); }
    }
  }

  /** A readable list is read exactly when the option letters hold the threshold. */
  lemma ReadWhen(top: seq<Entry>, letters: seq<char>, threshold: real, temperature: real, spellings: int)
    requires GoodArguments(letters, threshold, temperature, spellings) && top != []
    requires forall i :: 0 <= i < |top| ==> top[i].Entry?
    ensures Refusal(top, letters, threshold, temperature, spellings).None? <==>
      Sum(Known(MassesOf(RowsOf(top), letters))) >= threshold
  {
    if AllZero(RowsOf(top)) { ZeroMass(RowsOf(top), letters); }
    NoneUnusable(top, 0);
    RefusalIs(top, letters, threshold, temperature, spellings, Sum(Known(MassesOf(RowsOf(top), letters))));
  }

  lemma RefusalIs(top: seq<Entry>, letters: seq<char>, threshold: real, temperature: real, spellings: int, total: real)
    requires GoodArguments(letters, threshold, temperature, spellings) && top != [] && FirstError(top, 0).None?
    requires forall i :: 0 <= i < |top| ==> top[i].Entry?
    requires total == Sum(Known(MassesOf(RowsOf(top), letters)))
    ensures Refusal(top, letters, threshold, temperature, spellings).None? <==>
      !AllZero(RowsOf(top)) && total >= threshold
  {
  }

  lemma ZeroMass(rows: seq<Row>, letters: seq<char>)
    requires AllZero(rows)
    ensures Sum(Known(MassesOf(rows, letters))) == 0.0
  {
    var mass := MassesOf(rows, letters);
    forall k | 0 <= k < |mass| && mass[k].Some? ensures mass[k].value == 0.0 { NothingListed(rows, letters[k]); }
    NoMass(mass);
  }

  lemma {:induction false} NoneUnusable(top: seq<Entry>, i: nat)
    requires i <= |top| && forall j :: i <= j < |top| ==> top[j].Entry?
    ensures FirstError(top, i).None?
    decreases |top| - i
  {
    if i < |top| { NoneUnusable(top, i + 1); }
  }

  // Every entry can be used, and the option letters hold the threshold.
  ghost predicate Readable(top: seq<Entry>, letters: seq<char>, threshold: real) {
    && (forall i :: 0 <= i < |top| ==> top[i].Entry?)
    && Sum(Known(MassesOf(RowsOf(top), letters))) >= threshold
  }

  /** Which list is refused, and as what: bad arguments come first, the engine is at fault for an empty list and for a
      malformed entry before any other bad one, and everything else that cannot be read is a failed readout. */
  lemma RefusedAs(top: seq<Entry>, letters: seq<char>, threshold: real, temperature: real, spellings: int)
    ensures var r, good := Refusal(top, letters, threshold, temperature, spellings),
        GoodArguments(letters, threshold, temperature, spellings);
      && (r == Some(BadArgument) <==> !good)
      && (r == Some(Backend) <==> good && (top == [] || exists i: nat :: FirstBad(top, i) && top[i].Malformed?))
      && (r.None? <==> good && top != [] && Readable(top, letters, threshold))
  {
    if GoodArguments(letters, threshold, temperature, spellings) && top != [] {
      if n: nat :| n < |top| && !top[n].Entry? {
        var i := SomeBad(top, n);
        FirstUnusable(top, i, 0);
      } else {
        NoneUnusable(top, 0);
        ReadWhen(top, letters, threshold, temperature, spellings);
      }
    }
  }

  // ---------------------------------------------------------------- what the reported shares are

  // b on absent letter i, nothing on the other absent letters.
  lemma {:induction false} FillOne(mass: seq<Option<real>>, i: nat, b: real) returns (y: seq<real>, j: nat)
    requires i < |mass| && mass[i].None?
    ensures |y| == Absent(mass) && j < |y| && y == Zeros(|y|)[j := b] && Fill(mass, y)[i] == b
    decreases |mass|
  {
    var n := |mass| - 1;
    if i == n {
      j := Absent(mass) - 1;
      y := Zeros(Absent(mass))[j := b];
    } else {
      var z;
      z, j := FillOne(mass[..n], i, b);
      y := Zeros(Absent(mass))[j := b];
      assert (if mass[n].Some? then y else y[..|y| - 1]) == z;
    }
  }

  lemma OneWeight(f: real -> real, n: nat, j: nat, b: real)
    requires Weighing(f) && j < n
    ensures SumOf(f, Zeros(n)[j := b]) == f(b) && Sum(Zeros(n)[j := b]) == b
  {
    SumOfZeroWeights(f, Zeros(n));
    SumOfUpdate(f, Zeros(n), j, b);
    SumOfZeros(Zeros(n));
    SumUpdate(Zeros(n), j, b);
  }

  // Each absent letter holds at most b.
  ghost predicate Capped(mass: seq<Option<real>>, b: real, y: seq<real>) {
    |y| == Absent(mass) && forall j :: 0 <= j < |y| ==> 0.0 <= y[j] <= b
  }

  ghost predicate ShareAtMost(f: real -> real, mass: seq<Option<real>>, b: real, i: nat, z: seq<real>, most: real)
    requires i < |mass|
  {
    Capped(mass, b, z) ==> Share(f, Fill(mass, z), i) <= most
  }

  /** The normalised bound of an absent letter is the largest share any allocation within the limits can give it. */
  lemma BoundIsLargest(f: real -> real, mass: seq<Option<real>>, b: real, total: real, i: nat) returns (y: seq<real>)
    requires Weighing(f) && Growing(f) && 0.0 <= b <= total && SumOf(f, Known(mass)) > 0.0
      && i < |mass| && mass[i].None?
    ensures Capped(mass, b, y) && Sum(y) <= total && Share(f, Fill(mass, y), i) == BoundedShare(f, mass, b)
    ensures forall z: seq<real> :: ShareAtMost(f, mass, b, i, z, BoundedShare(f, mass, b))
  {
    y := BoundReached(f, mass, b, i);
    forall z: seq<real> ensures ShareAtMost(f, mass, b, i, z, BoundedShare(f, mass, b)) {
      if Capped(mass, b, z) { ConservativeBelowBound(f, mass, b, z, i); }
    }
  }

  lemma BoundReached(f: real -> real, mass: seq<Option<real>>, b: real, i: nat) returns (y: seq<real>)
    requires Weighing(f) && Growing(f) && 0.0 <= b && SumOf(f, Known(mass)) > 0.0 && i < |mass| && mass[i].None?
    ensures Capped(mass, b, y) && Sum(y) == b && Share(f, Fill(mass, y), i) == BoundedShare(f, mass, b)
  {
    var j;
    y, j := FillOne(mass, i, b);
    OneWeight(f, |y|, j, b);
    SumOfFill(f, mass, y);
  }

  lemma FillZero(mass: seq<Option<real>>, i: nat)
    requires i < |mass| && mass[i].None?
    ensures Fill(mass, Zeros(Absent(mass)))[i] == 0.0
  {
    var j := FillAbsent(mass, Zeros(Absent(mass)), i);
  }

  lemma Proportional(x: real, y: real, z: real)
    requires z != 0.0
    ensures (x / z) * y == (y / z) * x
  {
  }

  lemma FillShare(f: real -> real, mass: seq<Option<real>>, xs: seq<real>, i: nat, w: real)
    requires Weighing(f) && MassesOk(mass) && |xs| == Absent(mass) && NonNegative(xs) && SumOf(f, Known(mass)) > 0.0
    requires i < |mass| && mass[i].Some? && w == SumOf(f, Known(mass)) + SumOf(f, xs)
    ensures SumOf(f, xs) >= 0.0 && Share(f, Fill(mass, xs), i) == f(mass[i].value) / w
  {
    SumOfNonNegative(f, xs);
    SumOfFill(f, mass, xs);
    FillListed(mass, xs, i);
    ShareIs(f, Fill(mass, xs), i, f(mass[i].value), w);
  }

  lemma ShareIs(f: real -> real, held: seq<real>, i: nat, x: real, w: real)
    requires i < |held| && f(held[i]) == x && SumOf(f, held) == w && w > 0.0
    ensures Share(f, held, i) == x / w
  {
  }

  // Part of a larger whole.
  lemma SmallerPart(x: real, z: real, w: real)
    requires x >= 0.0 && z > 0.0 && w >= 0.0
    ensures x / (z + w) <= x / z
  {
    Ratio(x, z + w, x, z);
  }

  // a and b stand in the ratio of x and y.
  ghost predicate InRatio(a: real, b: real, x: real, y: real) { a * y == b * x }

  /** In both reported distributions two listed options stand in the ratio of their powered masses; an absent one has
      probability 0, and what the conservative one takes for the absent options it takes from every listed one. */
  lemma SharesAre(ro: Readout, mass: seq<Option<real>>, listed: real, pmin: real, spellings: int, f: real -> real,
      i: nat, j: nat)
    requires Weighing(f) && MassesOk(mass) && Reports(ro, mass, listed, pmin, spellings, f) && i < |mass| && j < |mass|
    ensures |ro.probabilities| == |ro.conservative| == |mass|
    ensures mass[i].None? ==> ro.probabilities[i] == 0.0
    ensures mass[i].Some? && mass[j].Some? ==>
      && InRatio(ro.probabilities[i], ro.probabilities[j], f(mass[i].value), f(mass[j].value))
      && InRatio(ro.conservative[i], ro.conservative[j], f(mass[i].value), f(mass[j].value))
    ensures mass[i].Some? ==> ro.conservative[i] <= ro.probabilities[i]
  {
    var alloc := AllocationOf(ro.conservative, mass, Bound(spellings, pmin, Unlisted(listed)), Unlisted(listed), f);
    if mass[i].None? {
      AbsentShare(f, mass, i);
    } else {
      ListedPair(f, mass, alloc, i, if mass[j].Some? then j else i, ro.probabilities, ro.conservative);
    }
  }

  lemma AbsentShare(f: real -> real, mass: seq<Option<real>>, i: nat)
    requires f(0.0) == 0.0 && i < |mass| && mass[i].None?
    ensures Share(f, Fill(mass, Zeros(Absent(mass))), i) == 0.0
  {
    FillZero(mass, i);
    var z := SumOf(f, Fill(mass, Zeros(Absent(mass))));
    assert z != 0.0 ==> 0.0 / z == 0.0;
  }

  lemma ListedPair(f: real -> real, mass: seq<Option<real>>, alloc: seq<real>, i: nat, j: nat,
      p: seq<real>, c: seq<real>)
    requires Weighing(f) && MassesOk(mass) && SumOf(f, Known(mass)) > 0.0 && i < |mass| && j < |mass|
    requires |alloc| == Absent(mass) && NonNegative(alloc) && mass[i].Some? && mass[j].Some?
    requires p == Shares(f, Fill(mass, Zeros(Absent(mass)))) && c == Shares(f, Fill(mass, alloc))
    ensures InRatio(p[i], p[j], f(mass[i].value), f(mass[j].value))
    ensures InRatio(c[i], c[j], f(mass[i].value), f(mass[j].value)) && c[i] <= p[i]
  {
    InProportion(f, mass, alloc, i, j);
  }

  lemma AllocationOf(c: seq<real>, mass: seq<Option<real>>, b: real, total: real, f: real -> real)
    returns (alloc: seq<real>)
    requires ConservativeOf(c, mass, b, total, f)
    ensures |alloc| == Absent(mass) && NonNegative(alloc) && c == Shares(f, Fill(mass, alloc))
    ensures SumOf(f, Known(mass)) > 0.0
  {
    alloc :| |alloc| == Absent(mass) && Worst(f, b, total, alloc) && c == Shares(f, Fill(mass, alloc));
  }

  lemma InProportion(f: real -> real, mass: seq<Option<real>>, alloc: seq<real>, i: nat, j: nat)
    requires Weighing(f) && MassesOk(mass) && SumOf(f, Known(mass)) > 0.0 && i < |mass| && j < |mass|
    requires |alloc| == Absent(mass) && NonNegative(alloc) && mass[i].Some? && mass[j].Some?
    ensures var u, v := Fill(mass, Zeros(Absent(mass))), Fill(mass, alloc);
      && InRatio(Share(f, u, i), Share(f, u, j), f(mass[i].value), f(mass[j].value))
      && InRatio(Share(f, v, i), Share(f, v, j), f(mass[i].value), f(mass[j].value))
      && Share(f, v, i) <= Share(f, u, i)
  {
    var u, v := Fill(mass, Zeros(Absent(mass))), Fill(mass, alloc);
    var x, y, z, w := TwoShares(f, mass, alloc, i, j, Share(f, u, i), Share(f, u, j), Share(f, v, i), Share(f, v, j));
    Parts(x, y, z, w, Share(f, u, i), Share(f, u, j), Share(f, v, i), Share(f, v, j));
  }

  lemma TwoShares(f: real -> real, mass: seq<Option<real>>, alloc: seq<real>, i: nat, j: nat, p: real, q: real, c: real,
      d: real) returns (x: real, y: real, z: real, w: real)
    requires Weighing(f) && MassesOk(mass) && SumOf(f, Known(mass)) > 0.0 && i < |mass| && j < |mass|
    requires |alloc| == Absent(mass) && NonNegative(alloc) && mass[i].Some? && mass[j].Some?
    requires p == Share(f, Fill(mass, Zeros(Absent(mass))), i) && q == Share(f, Fill(mass, Zeros(Absent(mass))), j)
    requires c == Share(f, Fill(mass, alloc), i) && d == Share(f, Fill(mass, alloc), j)
    ensures x == f(mass[i].value) >= 0.0 && y == f(mass[j].value) && 0.0 < z <= w
    ensures p == x / z && q == y / z && c == x / w && d == y / w
  {
    x, y := f(mass[i].value), f(mass[j].value);
    z, w := ListedShares(f, mass, alloc, i);
    var _, _ := ListedShares(f, mass, alloc, j);
  }

  lemma Parts(x: real, y: real, z: real, w: real, p: real, q: real, c: real, d: real)
    requires x >= 0.0 && 0.0 < z <= w && p == x / z && q == y / z && c == x / w && d == y / w
    ensures InRatio(p, q, x, y) && InRatio(c, d, x, y) && c <= p
  {
    Proportional(x, y, z);
    Proportional(x, y, w);
    SmallerPart(x, z, w - z);
  }

  // A listed letter's plain and conservative share have the same numerator.
  lemma ListedShares(f: real -> real, mass: seq<Option<real>>, alloc: seq<real>, i: nat) returns (z: real, w: real)
    requires Weighing(f) && MassesOk(mass) && SumOf(f, Known(mass)) > 0.0 && i < |mass| && mass[i].Some?
    requires |alloc| == Absent(mass) && NonNegative(alloc)
    ensures z == SumOf(f, Known(mass)) > 0.0 && w == z + SumOf(f, alloc) >= z && f(mass[i].value) >= 0.0
    ensures Share(f, Fill(mass, Zeros(Absent(mass))), i) == f(mass[i].value) / z
    ensures Share(f, Fill(mass, alloc), i) == f(mass[i].value) / w
  {
    z, w := SumOf(f, Known(mass)), SumOf(f, Known(mass)) + SumOf(f, alloc);
    SumOfZeroWeights(f, Zeros(Absent(mass)));
    FillShare(f, mass, Zeros(Absent(mass)), i, z);
    FillShare(f, mass, alloc, i, w);
  }
}
