module Answer
  /**
    The typed answer and the confidence the client compares: internal/contract/response.go,
    internal/gateway/calibration.go (Apply) and internal/client/output.go. Maps keyed by option are
    sequences in option order; the two options of a noul question are yes (0) and no (1).
  */
{
  import opened Numeric
  import opened Wrappers

  datatype Kind = Noul | Choice | Score

  datatype Answer = Answer(
    kind: Kind,
    noul: real,
    choice: nat,
    score: real,
    probabilities: seq<real>,
    confidence: real,
    flagged: bool,
    bounds: seq<Option<real>>,  // Some for an option the readout did not list
    calibrated: bool,
    confidenceRaw: real)

  datatype AnswerError = Invalid

  const SUM_TOLERANCE: real := 0.000001

  const UNIT: real := 1000000000.0

  // ---------------------------------------------------------------- rounding

  // Nearest integer, a half to the even one.
  function RoundHalfEven(t: real): int {
    var n := t.Floor;
    var r := t - n as real;
    if r < 0.5 || (r == 0.5 && n % 2 == 0) then n else n + 1
  }

  function Round9(x: real): real { RoundHalfEven(x * UNIT) as real / UNIT }

  lemma RoundMonotone(t: real, u: real)
    requires t <= u
    ensures RoundHalfEven(t) <= RoundHalfEven(u)
  {
    assert t.Floor <= u.Floor;
  }

  lemma Round9Monotone(x: real, y: real)
    requires x <= y
    ensures Round9(x) <= Round9(y)
  {
    RoundMonotone(x * UNIT, y * UNIT);
  }

  lemma Round9Close(x: real)
    ensures Round9(x) - 0.0000000005 <= x <= Round9(x) + 0.0000000005
  {
  }

  /** Rounding gives the nearest multiple of 1e-9, at a tie the even one. */
  lemma Round9Nearest(x: real) returns (k: int)
    ensures Round9(x) * UNIT == k as real && Abs(x * UNIT - k as real) <= 0.5
    ensures Abs(x * UNIT - k as real) == 0.5 ==> k % 2 == 0
  {
    k := RoundHalfEven(x * UNIT);
  }

  lemma Round9Again(x: real)
    ensures Round9(Round9(x)) == Round9(x)
  {
    assert Round9(x) * UNIT == RoundHalfEven(x * UNIT) as real;
  }

  // ---------------------------------------------------------------- building

  function Clamp(x: real): real { Max(0.0, Min(1.0, x)) }

  // The excess over chance, rescaled to [0,1].
  function Shape(p: real, n: nat): real
    requires n >= 2
  {
    Clamp((p - 1.0 / n as real) / (1.0 - 1.0 / n as real))
  }

  /** The shaped confidence is 0 up to chance, 1 at certainty, and linear between. */
  lemma ShapeIs(p: real, n: nat)
    requires n >= 2
    ensures p <= 1.0 / n as real ==> Shape(p, n) == 0.0
    ensures p >= 1.0 ==> Shape(p, n) == 1.0
    ensures 1.0 / n as real <= p <= 1.0 ==> Shape(p, n) * (n - 1) as real == n as real * p - 1.0
  {
    var c := 1.0 / n as real;
    assert c * n as real == 1.0;
    Excess(p, c, n as real, (p - c) / (1.0 - c));
  }

  lemma Excess(p: real, c: real, n: real, q: real)
    requires n >= 2.0 && c * n == 1.0 && q == (p - c) / (1.0 - c)
    ensures 0.0 < c <= 0.5 && (p <= c ==> q <= 0.0) && (p >= 1.0 ==> q >= 1.0)
    ensures c <= p <= 1.0 ==> 0.0 <= q <= 1.0
    ensures q * (n - 1.0) == n * p - 1.0
  {
    assert c == 1.0 / n;
    assert q * (1.0 - c) == p - c;
    Over(q, c, n, p);
  }

  lemma Over(q: real, c: real, n: real, p: real)
    requires c * n == 1.0 && q * (1.0 - c) == p - c
    ensures q * (n - 1.0) == n * p - 1.0
  {
    assert (q * (1.0 - c)) * n == q * n - q * (c * n);
    assert (p - c) * n == p * n - c * n;
  }

  lemma ShapeMonotone(p: real, q: real, n: nat)
    requires n >= 2 && p <= q
    ensures Shape(p, n) <= Shape(q, n)
  {
    var c := 1.0 / n as real;
    assert c <= 0.5 by { assert c * n as real == 1.0; }
    var d := 1.0 - c;
    assert (q - c) / d - (p - c) / d == (q - p) / d;
  }

  ghost predicate Listed(bounds: seq<Option<real>>, i: nat)
    requires i < |bounds|
  {
    bounds[i].None?
  }

  // The first of the largest probabilities among the listed options.
  ghost predicate Winner(p: seq<real>, bounds: seq<Option<real>>, w: nat)
    requires |p| == |bounds|
  {
    && w < |p| && Listed(bounds, w)
    && (forall i :: 0 <= i < |p| && Listed(bounds, i) ==> p[i] <= p[w])
    && (forall i :: 0 <= i < w && Listed(bounds, i) ==> p[i] < p[w])
  }

  function Moment(p: seq<real>): real {
    if p == [] then 0.0 else Moment(p[..|p| - 1]) + (|p| - 1) as real * p[|p| - 1]
  }

  // A distribution over the options, exactly.
  ghost predicate Distribution(p: seq<real>) {
    && (forall i :: 0 <= i < |p| ==> 0.0 <= p[i] <= 1.0)
    && Sum(p) == 1.0
  }

  ghost predicate AcceptedProbs(p: seq<real>) {
    && (forall i :: 0 <= i < |p| ==> 0.0 <= p[i] <= 1.0 + 0.000000001)
    && Abs(Sum(Capped(p)) - 1.0) <= SUM_TOLERANCE
  }

  function Capped(p: seq<real>): (r: seq<real>)
    ensures |r| == |p| && forall i :: 0 <= i < |p| ==> r[i] == Min(p[i], 1.0)
  {
    seq(|p|, i requires 0 <= i < |p| => Min(p[i], 1.0))
  }

  lemma CappedIsSame(p: seq<real>)
    requires forall i :: 0 <= i < |p| ==> p[i] <= 1.0
    ensures Capped(p) == p
  {
  }

  method CheckProbs(probs: seq<real>, n: nat) returns (r: Result<seq<real>, AnswerError>)
    ensures r.Ok? <==> |probs| == n && AcceptedProbs(probs)
    ensures r.Ok? ==> r.value == Capped(probs)
  {
    if |probs| != n { return Err(Invalid); }
    var out: seq<real> := [];
    var sum := 0.0;
    for i := 0 to n
      invariant out == Capped(probs[..i]) && sum == Sum(out)
      invariant forall j :: 0 <= j < i ==> 0.0 <= probs[j] <= 1.0 + 0.000000001
    {
      if probs[i] < 0.0 || probs[i] > 1.0 + 0.000000001 { return Err(Invalid); }
      SumSnoc(x => x, out, Min(probs[i], 1.0));
      out := out + [Min(probs[i], 1.0)];
      sum := sum + Min(probs[i], 1.0);
    }
    assert probs[..n] == probs;
    if Abs(sum - 1.0) > SUM_TOLERANCE { return Err(Invalid); }
    r := Ok(out);
  }

  // What BuildAnswerBounded reports for the probabilities p (already capped at 1).
  ghost predicate Builds(a: Answer, kind: Kind, p: seq<real>, bounds: seq<Option<real>>)
    requires |p| == |bounds| >= 2
  {
    && a.kind == kind && a.bounds == RoundedBounds(bounds)
    && a.flagged == (exists i :: 0 <= i < |bounds| && bounds[i].Some?)
    && !a.calibrated
    && (kind.Noul? ==> a.noul == Round9(p[0]))
    && (!kind.Noul? ==>
          && |a.probabilities| == |p| && (forall i :: 0 <= i < |p| ==> a.probabilities[i] == Round9(p[i]))
          && exists w: nat ::
               Winner(p, bounds, w) && a.confidence == Round9(Shape(p[w], |p|)) && (kind.Choice? ==> a.choice == w))
    && (kind.Score? ==> a.score == Round9(Moment(p)))
  }

  function RoundedBounds(bounds: seq<Option<real>>): (r: seq<Option<real>>)
    ensures |r| == |bounds|
    ensures forall i :: 0 <= i < |r| ==> r[i] == (if bounds[i].None? then None else Some(Round9(bounds[i].value)))
  {
    seq(|bounds|, i requires 0 <= i < |bounds| => if bounds[i].None? then None else Some(Round9(bounds[i].value)))
  }

  ghost predicate BoundsOk(bounds: seq<Option<real>>) {
    forall i :: 0 <= i < |bounds| && bounds[i].Some? ==> 0.0 <= bounds[i].value <= 1.0
  }

  method FindWinner(p: seq<real>, bounds: seq<Option<real>>) returns (best: int)
    requires |p| == |bounds|
    ensures best < 0 <==> forall i :: 0 <= i < |p| ==> bounds[i].Some?
    ensures best >= 0 ==> Winner(p, bounds, best)
  {
    best := -1;
    for i := 0 to |p|
      invariant -1 <= best < i
      invariant best < 0 ==> forall j :: 0 <= j < i ==> bounds[j].Some?
      invariant best >= 0 ==> Listed(bounds, best)
      invariant best >= 0 ==> forall j :: 0 <= j < i && Listed(bounds, j) ==> p[j] <= p[best]
      invariant best >= 0 ==> forall j :: 0 <= j < best && Listed(bounds, j) ==> p[j] < p[best]
    {
      if bounds[i].None? && (best < 0 || p[i] > p[best]) {
        best := i;
      }
    }
  }

  method CheckBounds(bounds: seq<Option<real>>) returns (ok: bool, flagged: bool)
    ensures ok <==> BoundsOk(bounds)
    ensures flagged <==> exists i :: 0 <= i < |bounds| && bounds[i].Some?
  {
    ok, flagged := true, false;
    for i := 0 to |bounds|
      invariant flagged <==> exists j :: 0 <= j < i && bounds[j].Some?
      invariant ok <==> forall j :: 0 <= j < i && bounds[j].Some? ==> 0.0 <= bounds[j].value <= 1.0
    {
      if bounds[i].Some? {
        flagged := true;
        if bounds[i].value < 0.0 || bounds[i].value > 1.0 { ok := false; }
      }
    }
  }

  /** Fails exactly on bad probabilities, bad bounds, or when no option is listed (except for a noul). */
  method BuildAnswerBounded(kind: Kind, probs: seq<real>, bounds: seq<Option<real>>)
    returns (r: Result<Answer, AnswerError>)
    requires |bounds| >= 2
    ensures r.Ok? <==>
      |probs| == |bounds| && AcceptedProbs(probs) && BoundsOk(bounds) && (kind.Noul? || SomeListed(bounds))
    ensures r.Ok? ==> Builds(r.value, kind, Capped(probs), bounds)
  {
    var n := |bounds|;
    var checked := CheckProbs(probs, n);
    if checked.Err? { return Err(Invalid); }
    var p := checked.value;
    var ok, flagged := CheckBounds(bounds);
    var a := Answer(kind, 0.0, 0, 0.0, [], 0.0, flagged, RoundedBounds(bounds), false, 0.0);
    if kind.Noul? {
      a := a.(noul := Round9(p[0]));
    } else {
      var best := FindWinner(p, bounds);
      if best < 0 { return Err(Invalid); }
      var rounded := Rounded(p);
      var s := ScoreOf(p);
      a := a.(confidence := Round9(Shape(p[best], n)), probabilities := rounded);
      a := if kind.Choice? then a.(choice := best) else a.(score := Round9(s));
      assert Winner(p, bounds, best);
    }
    if !ok { return Err(Invalid); }
    r := Ok(a);
  }

  ghost predicate SomeListed(bounds: seq<Option<real>>) {
    exists i :: 0 <= i < |bounds| && bounds[i].None?
  }

  method Rounded(p: seq<real>) returns (r: seq<real>)
    ensures |r| == |p| && forall i :: 0 <= i < |p| ==> r[i] == Round9(p[i])
  {
    r := [];
    for i := 0 to |p|
      invariant |r| == i && forall j :: 0 <= j < i ==> r[j] == Round9(p[j])
    {
      r := r + [Round9(p[i])];
    }
  }

  method ScoreOf(p: seq<real>) returns (s: real)
    ensures s == Moment(p)
  {
    s := 0.0;
    for i := 0 to |p|
      invariant s == Moment(p[..i])
    {
      assert p[..i + 1][..i] == p[..i];
      s := s + i as real * p[i];
    }
    assert p[..|p|] == p;
  }

  // The probabilities of a score of at least 1, 2, up to k, added up.
  function TailMass(p: seq<real>, k: nat): real
    requires k <= |p|
  {
    if k == 0 then 0.0 else TailMass(p, k - 1) + Sum(p[k..])
  }

  lemma {:induction false} TailSnoc(p: seq<real>, x: real, k: nat)
    requires k <= |p|
    ensures TailMass(p + [x], k) == TailMass(p, k) + k as real * x
    decreases k
  {
    if k > 0 {
      TailSnoc(p, x, k - 1);
      TailSum(p, x, k);
      OneTimeMore(k - 1, x);
    }
  }

  lemma TailSum(p: seq<real>, x: real, k: nat)
    requires k <= |p|
    ensures Sum((p + [x])[k..]) == Sum(p[k..]) + x
  {
    SumSnoc(y => y, p[k..], x);
    assert (p + [x])[k..] == p[k..] + [x];
  }

  lemma OneTimeMore(k: nat, x: real)
    ensures (k + 1) as real * x == k as real * x + x
  {
    assert (k as real + 1.0) * x == k as real * x + x;
  }

  /** The score is the expected one: the sum of the probabilities of at least 1, at least 2, and so on. */
  lemma {:induction false} MomentIsTailMass(p: seq<real>)
    requires p != []
    ensures Moment(p) == TailMass(p, |p| - 1)
    decreases |p|
  {
    var n := |p| - 1;
    var q, x := p[..n], p[n];
    assert p == q + [x];
    TailSnoc(q, x, n);
    if n > 0 {
      MomentIsTailMass(q);
      assert q[n..] == [];
    }
  }

  // ---------------------------------------------------------------- calibration and the client

  // The largest reported probability of a listed option, None when none is listed.
  function BestListed(p: seq<real>, bounds: seq<Option<real>>): Option<real>
    requires |p| == |bounds|
  {
    if p == [] then None
    else
      var n := |p| - 1;
      var b := BestListed(p[..n], bounds[..n]);
      if bounds[n].Some? then b
      else if b.None? || p[n] > b.value then Some(p[n]) else b
  }

  method FindBestListed(p: seq<real>, bounds: seq<Option<real>>) returns (b: Option<real>)
    requires |p| == |bounds|
    ensures b == BestListed(p, bounds)
  {
    b := None;
    for i := 0 to |p|
      invariant b == BestListed(p[..i], bounds[..i])
    {
      assert p[..i + 1][..i] == p[..i] && bounds[..i + 1][..i] == bounds[..i];
      if bounds[i].None? && (b.None? || p[i] > b.value) {
        b := Some(p[i]);
      }
    }
    assert p[..|p|] == p && bounds[..|p|] == bounds;
  }

  predicate WellFormed(a: Answer) {
    |a.bounds| >= 2 && (!a.kind.Noul? ==> |a.probabilities| == |a.bounds|)
  }

  /** CalibrationSet.Apply: cal is the profile's calibrator (None without one), its result None when not finite. */
  function Calibrated(cal: Option<real -> Option<real>>, a: Answer): Answer
    requires WellFormed(a)
  {
    if a.kind.Noul? || cal.None? then a
    else
      var pmax := BestListed(a.probabilities, a.bounds);
      if pmax.None? || cal.value(pmax.value).None? then a
      else
        var v := Clamp(cal.value(pmax.value).value);
        var w := if a.flagged && v > pmax.value then pmax.value else v;
        a.(confidenceRaw := a.confidence, confidence := Round9(w), calibrated := true)
  }

  method Apply(cal: Option<real -> Option<real>>, a: Answer) returns (r: Answer)
    requires WellFormed(a)
    ensures r == Calibrated(cal, a)
    ensures r.(confidence := a.confidence, confidenceRaw := a.confidenceRaw, calibrated := a.calibrated) == a
  {
    if a.kind.Noul? || cal.None? { return a; }
    var pmax := FindBestListed(a.probabilities, a.bounds);
    if pmax.None? { return a; }
    var out := cal.value(pmax.value);
    if out.None? { return a; }
    var v := Clamp(out.value);
    if a.flagged && v > pmax.value { v := pmax.value; }
    r := a.(confidenceRaw := a.confidence, confidence := Round9(v), calibrated := true);
  }

  /** AnswerConfidence: what the client compares with its threshold. */
  function ClientConfidence(a: Answer): real
    requires WellFormed(a)
  {
    match a.kind
    case Noul =>
      var yes, no := a.bounds[0].Some?, a.bounds[1].Some?;
      var p := if !a.flagged then Max(a.noul, 1.0 - a.noul)
               else if yes && !no then 1.0 - a.noul
               else if no && !yes then a.noul
               else 0.0;
      Clamp((p - 0.5) / 0.5)
    case _ =>
      var best := BestListed(a.probabilities, a.bounds);
      if !a.flagged then a.confidence
      else if best.None? then 0.0
      else if a.calibrated then a.confidence
      else Min(a.confidence, Round9(Shape(Max(0.0, best.value), |a.bounds|)))
  }

  method AnswerConfidence(a: Answer) returns (c: real)
    requires WellFormed(a)
    ensures c == ClientConfidence(a)
  {
    if a.kind.Noul? {
      var p := Max(a.noul, 1.0 - a.noul);
      if a.flagged {
        if a.bounds[0].Some? && a.bounds[1].None? { p := 1.0 - a.noul; }
        else if a.bounds[1].Some? && a.bounds[0].None? { p := a.noul; }
        else { p := 0.0; }
      }
      return Clamp((p - 0.5) / 0.5);
    }
    c := a.confidence;
    if a.flagged {
      var best := FindBestListed(a.probabilities, a.bounds);
      if best.None? { return 0.0; }
      if !a.calibrated {
        c := Min(c, Round9(Shape(Max(0.0, best.value), |a.bounds|)));
      }
    }
  }

  /** MinConfidence: the answer that decides the gate. */
  method MinConfidence(answers: seq<Answer>) returns (m: real)
    requires forall i :: 0 <= i < |answers| ==> WellFormed(answers[i])
    ensures m <= 1.0 && forall i :: 0 <= i < |answers| ==> m <= ClientConfidence(answers[i])
    ensures m == 1.0 || exists i :: 0 <= i < |answers| && m == ClientConfidence(answers[i])
  {
    m := 1.0;
    for i := 0 to |answers|
      invariant m <= 1.0 && forall j :: 0 <= j < i ==> m <= ClientConfidence(answers[j])
      invariant m == 1.0 || exists j :: 0 <= j < i && m == ClientConfidence(answers[j])
    {
      var c := AnswerConfidence(answers[i]);
      if c < m { m := c; }
    }
  }

  lemma {:induction false} BestListedIs(p: seq<real>, bounds: seq<Option<real>>)
    requires |p| == |bounds|
    ensures BestListed(p, bounds).None? <==> forall i :: 0 <= i < |p| ==> bounds[i].Some?
    ensures BestListed(p, bounds).Some? ==>
      (exists i :: 0 <= i < |p| && bounds[i].None? && p[i] == BestListed(p, bounds).value)
      && forall i :: 0 <= i < |p| && bounds[i].None? ==> p[i] <= BestListed(p, bounds).value
    decreases |p|
  {
    if p != [] {
      var n := |p| - 1;
      var q, bs := p[..n], bounds[..n];
      BestListedIs(q, bs);
      forall i | 0 <= i < n ensures p[i] == q[i] && bounds[i] == bs[i] { }
      if BestListed(q, bs).Some? {
        var i :| 0 <= i < n && bs[i].None? && q[i] == BestListed(q, bs).value;
        assert bounds[i].None? && p[i] == q[i];
      }
    }
  }

  lemma RoundedAt(a: Answer, kind: Kind, p: seq<real>, bounds: seq<Option<real>>, i: nat)
    requires |p| == |bounds| >= 2 && !kind.Noul? && Builds(a, kind, p, bounds) && i < |p|
    ensures |a.probabilities| == |a.bounds| == |p| && a.probabilities[i] == Round9(p[i])
      && (a.bounds[i].None? <==> Listed(bounds, i))
  {
  }

  // The best of the rounded listed values is the rounded best.
  lemma BestOfRounded(q: seq<real>, bs: seq<Option<real>>, w: nat, v: real)
    requires |q| == |bs| && w < |q| && bs[w].None? && q[w] == v && forall i :: 0 <= i < |q| && bs[i].None? ==> q[i] <= v
    ensures BestListed(q, bs) == Some(v)
  {
    BestListedIs(q, bs);
  }

  // Rounding and taking the best listed option commute.
  lemma BestIsWinner(a: Answer, kind: Kind, p: seq<real>, bounds: seq<Option<real>>, w: nat)
    requires |p| == |bounds| >= 2 && !kind.Noul? && Builds(a, kind, p, bounds) && Winner(p, bounds, w)
    ensures |a.probabilities| == |a.bounds| && BestListed(a.probabilities, a.bounds) == Some(Round9(p[w]))
  {
    RoundedAt(a, kind, p, bounds, w);
    forall i | 0 <= i < |p| && a.bounds[i].None? ensures a.probabilities[i] <= Round9(p[w]) {
      RoundedAt(a, kind, p, bounds, i);
      Round9Monotone(p[i], p[w]);
    }
    BestOfRounded(a.probabilities, a.bounds, w, Round9(p[w]));
  }

  // ---------------------------------------------------------------- what the compared confidence is

  ghost predicate Near(x: real, y: real, e: real) { -e <= x - y <= e }

  lemma ShapeNear(x: real, y: real, n: nat, e: real)
    requires n >= 2 && Near(x, y, e)
    ensures Near(Shape(x, n), Shape(y, n), 2.0 * e)
  {
    var c := 1.0 / n as real;
    assert c * n as real == 1.0;
    var w := 1.0 - c;
    ExcessNear(x - c, y - c, w, e, (x - c) / w, (y - c) / w);
  }

  lemma ExcessNear(x: real, y: real, w: real, e: real, q: real, r: real)
    requires w >= 0.5 && Near(x, y, e) && q == x / w && r == y / w
    ensures Near(q, r, 2.0 * e)
  {
    ExcessBelow(x, y, w, e, q, r);
    ExcessBelow(y, x, w, e, r, q);
  }

  lemma ExcessBelow(x: real, y: real, w: real, e: real, q: real, r: real)
    requires w >= 0.5 && x - y <= e && e >= 0.0 && q == x / w && r == y / w
    ensures q - r <= 2.0 * e
  {
    var g := q - r;
    assert q * w == x && r * w == y;
    assert g * w == x - y;
    if g > 2.0 * e { Numeric.Scaled(0.5, w, g); }
  }

  /** An unflagged noul is compared by its distance from one half, whichever side it is on. */
  lemma NoulIsSymmetric(a: Answer)
    requires WellFormed(a) && a.kind.Noul? && !a.flagged && 0.0 <= a.noul <= 1.0
    ensures ClientConfidence(a) == Abs(2.0 * a.noul - 1.0)
    ensures ClientConfidence(a.(noul := 1.0 - a.noul)) == ClientConfidence(a)
  {
    HalfIs(a.noul);
    HalfIs(1.0 - a.noul);
  }

  lemma HalfIs(p: real)
    ensures (p - 0.5) / 0.5 == 2.0 * p - 1.0
  {
  }

  lemma HalfNear(q: real, share: real)
    requires Near(q, share, 0.0000000005)
    ensures Near(Clamp((q - 0.5) / 0.5), Shape(share, 2), 0.000000001)
  {
    HalfIs(q);
    HalfIs(share);
    assert 1.0 / 2 as real == 0.5;
  }

  lemma PairSums(p: seq<real>)
    requires |p| == 2
    ensures Sum(p) == p[0] + p[1]
  {
    assert p[..1][..0] == [];
    assert Sum(p[..1]) == p[0];
  }

  lemma NoulIs(a: Answer, p: seq<real>, bounds: seq<Option<real>>, w: nat)
    requires |p| == |bounds| == 2 && Builds(a, Noul, p, bounds) && Distribution(p) && Winner(p, bounds, w)
    ensures Near(ClientConfidence(a), Shape(p[w], 2), 0.000000001)
  {
    PairSums(p);
    Round9Close(p[0]);
    assert a.bounds[0].Some? <==> bounds[0].Some?;
    assert a.bounds[1].Some? <==> bounds[1].Some?;
    assert Listed(bounds, w);
    if !a.flagged {
      assert Listed(bounds, 0) && Listed(bounds, 1);
      HalfNear(Max(a.noul, 1.0 - a.noul), p[w]);
    } else {
      HalfNear(if w == 0 then a.noul else 1.0 - a.noul, p[w]);
    }
  }

  lemma SameWinner(p: seq<real>, bounds: seq<Option<real>>, v: nat, w: nat)
    requires |p| == |bounds| && Winner(p, bounds, v) && Winner(p, bounds, w)
    ensures v == w
  {
  }

  lemma ListedIs(a: Answer, kind: Kind, p: seq<real>, bounds: seq<Option<real>>, w: nat)
    requires |p| == |bounds| >= 2 && !kind.Noul? && Builds(a, kind, p, bounds)
      && Distribution(p) && Winner(p, bounds, w)
    ensures Near(ClientConfidence(a), Shape(p[w], |p|), 0.0000000015)
    ensures !a.flagged ==> ClientConfidence(a) == Round9(Shape(p[w], |p|))
  {
    var n, r := |p|, Round9(p[w]);
    var v: nat :| Winner(p, bounds, v) && a.confidence == Round9(Shape(p[v], n));
    SameWinner(p, bounds, v, w);
    BestIsWinner(a, kind, p, bounds, w);
    Round9Close(p[w]);
    Round9Close(Shape(p[w], n));
    Round9Close(Shape(Max(0.0, r), n));
    ShapeNear(Max(0.0, r), p[w], n, 0.0000000005);
  }

  /** What the client compares for a fresh answer is the winner's share, shaped, up to the rounding: for each kind,
      with all options listed or only some. */
  lemma ConfidenceIs(a: Answer, kind: Kind, p: seq<real>, bounds: seq<Option<real>>, w: nat)
    requires |p| == |bounds| >= 2 && (kind.Noul? ==> |p| == 2) && Builds(a, kind, p, bounds) && Distribution(p)
    requires Winner(p, bounds, w)
    ensures -0.0000000015 <= ClientConfidence(a) - Shape(p[w], |p|) <= 0.0000000015
  {
    if kind.Noul? { NoulIs(a, p, bounds, w); } else { ListedIs(a, kind, p, bounds, w); }
  }

  /** An answer of which no option was listed is never confident. */
  lemma NothingListed(a: Answer)
    requires WellFormed(a) && a.flagged && forall i :: 0 <= i < |a.bounds| ==> a.bounds[i].Some?
    ensures ClientConfidence(a) == 0.0
  {
    HalfIs(0.0);
    if !a.kind.Noul? { BestListedIs(a.probabilities, a.bounds); }
  }

  lemma RoundedShare(p: real)
    requires 0.0 <= p <= 1.0
    ensures 0.0 <= Round9(p) <= 1.0
  {
    Round9Monotone(0.0, p);
    Round9Monotone(p, 1.0);
  }

  /** A calibrated answer is compared by what the calibrator makes of the winner's rounded share, cut off at 0 and at 1,
      and for a flagged answer at that share itself. */
  lemma CalibratedIs(cal: real -> Option<real>, a: Answer, kind: Kind, p: seq<real>, bounds: seq<Option<real>>, w: nat)
    requires |p| == |bounds| >= 2 && !kind.Noul? && Builds(a, kind, p, bounds)
      && Winner(p, bounds, w) && Distribution(p)
    ensures var out, q := Calibrated(Some(cal), a), cal(Round9(p[w]));
      var cap := if a.flagged then Round9(p[w]) else 1.0;
      && (q.None? ==> out == a)
      && (q.Some? ==>
           out.calibrated
           && ClientConfidence(out) == Round9(if q.value < 0.0 then 0.0 else if q.value > cap then cap else q.value))
  {
    BestIsWinner(a, kind, p, bounds, w);
    RoundedShare(p[w]);
    CalibratedFrom(cal, a, Round9(p[w]));
  }

  lemma CalibratedFrom(cal: real -> Option<real>, a: Answer, r: real)
    requires WellFormed(a) && !a.kind.Noul? && BestListed(a.probabilities, a.bounds) == Some(r) && 0.0 <= r <= 1.0
    requires !a.calibrated
    ensures var out, q := Calibrated(Some(cal), a), cal(r);
      var cap := if a.flagged then r else 1.0;
      && (q.None? ==> out == a)
      && (q.Some? ==>
           out.calibrated
           && ClientConfidence(out) == Round9(if q.value < 0.0 then 0.0 else if q.value > cap then cap else q.value))
  {
  }
}
