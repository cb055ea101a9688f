module WorstCase
  /**
    From the first-token list to the number the client compares: a flagged answer never claims more than
    the winner's share in any hidden distribution the list leaves open
    (internal/readout/readout.go, internal/gateway/letter.go, internal/contract/response.go,
    internal/gateway/calibration.go, internal/client/output.go).
  */
{
  import opened Numeric
  import opened Wrappers
  import opened Allocation
  import opened Answer
  import opened Worlds
  import opened LowerBound
  import opened LowTemperature
  import R = Readout

  // ---------------------------------------------------------------- the answer is never refused

  lemma {:induction false} SharesSum(f: real -> real, w: seq<real>, z: real, k: nat)
    requires k <= |w| && z != 0.0 && z == SumOf(f, w)
    ensures Sum(R.Shares(f, w)[..k]) == SumOf(f, w[..k]) / z
    decreases k
  {
    if k > 0 {
      SharesSum(f, w, z, k - 1);
      PrefixSnoc(f, w, k);
      PrefixSnoc(f, R.Shares(f, w), k);
      assert R.Shares(f, w)[k - 1] == f(w[k - 1]) / z;
      AddShares(SumOf(f, w[..k - 1]), f(w[k - 1]), z);
    }
  }

  lemma AddShares(x: real, y: real, z: real)
    requires z != 0.0
    ensures x / z + y / z == (x + y) / z
  {
  }

  lemma SharesDistribute(f: real -> real, w: seq<real>)
    requires R.Weighing(f) && NonNegative(w) && SumOf(f, w) > 0.0
    ensures Distribution(R.Shares(f, w))
  {
    SharesSumToOne(f, w);
    SharesInUnit(f, w);
  }

  lemma SharesSumToOne(f: real -> real, w: seq<real>)
    requires SumOf(f, w) > 0.0
    ensures Sum(R.Shares(f, w)) == 1.0
  {
    var z, s := SumOf(f, w), R.Shares(f, w);
    SharesSum(f, w, z, |w|);
    assert w[..|w|] == w && s[..|w|] == s;
    assert z / z == 1.0;
  }

  lemma SharesInUnit(f: real -> real, w: seq<real>)
    requires R.Weighing(f) && NonNegative(w) && SumOf(f, w) > 0.0
    ensures forall i :: 0 <= i < |w| ==> 0.0 <= R.Shares(f, w)[i] <= 1.0
  {
    var z, s := SumOf(f, w), R.Shares(f, w);
    R.SumOfNonNegative(f, w);
    forall i | 0 <= i < |w| ensures 0.0 <= s[i] <= 1.0 {
      assert 0.0 <= f(w[i]) <= z;
      UnitQuotient(f(w[i]), z);
    }
  }

  // What the gateway passes on: the conservative distribution as soon as a letter is absent.
  function GatewayProbs(ro: R.Readout): seq<real> {
    if exists i :: 0 <= i < |ro.normalisedBounds| && ro.normalisedBounds[i].Some? then ro.conservative
    else ro.probabilities
  }

  lemma {:induction false} AllListedOrAbsent(mass: seq<Option<real>>)
    ensures R.Absent(mass) == 0 <==> forall i :: 0 <= i < |mass| ==> mass[i].Some?
    ensures R.Known(mass) == [] <==> forall i :: 0 <= i < |mass| ==> mass[i].None?
    decreases |mass|
  {
    if mass != [] { AllListedOrAbsent(mass[..|mass| - 1]); }
  }

  /** Every readout gives probabilities and bounds that the answer builder accepts. */
  lemma ReadoutIsAccepted(ro: R.Readout, mass: seq<Option<real>>, listed: real, pmin: real, spellings: int,
      f: real -> real, a: real)
    requires R.Power(f, a) && R.MassesOk(mass) && pmin > 0.0 && spellings >= 1
    requires R.Reports(ro, mass, listed, pmin, spellings, f)
    ensures |GatewayProbs(ro)| == |mass| && Distribution(GatewayProbs(ro)) && Distribution(ro.conservative)
    ensures AcceptedProbs(GatewayProbs(ro)) && Capped(GatewayProbs(ro)) == GatewayProbs(ro)
    ensures BoundsOk(ro.normalisedBounds) && SomeListed(ro.normalisedBounds)
  {
    ProbsAreDistributions(ro, mass, listed, pmin, spellings, f, a);
    DistributionAccepted(GatewayProbs(ro));
    ReadoutBoundsAccepted(ro, mass, listed, pmin, spellings, f, a);
  }

  lemma ProbsAreDistributions(ro: R.Readout, mass: seq<Option<real>>, listed: real, pmin: real, spellings: int,
      f: real -> real, a: real)
    requires R.Power(f, a) && R.MassesOk(mass) && pmin > 0.0 && spellings >= 1
    requires R.Reports(ro, mass, listed, pmin, spellings, f)
    ensures |ro.conservative| == |ro.probabilities| == |mass| && Distribution(ro.conservative)
      && Distribution(ro.probabilities)
  {
    ConservativeDistributes(ro.conservative, mass, R.Bound(spellings, pmin, R.Unlisted(listed)), R.Unlisted(listed), f);
    FilledDistribution(f, mass, R.Zeros(R.Absent(mass)));
  }

  lemma ReadoutBoundsAccepted(ro: R.Readout, mass: seq<Option<real>>, listed: real, pmin: real, spellings: int,
      f: real -> real, a: real)
    requires R.Power(f, a) && R.MassesOk(mass) && pmin > 0.0 && spellings >= 1
    requires R.Reports(ro, mass, listed, pmin, spellings, f)
    ensures BoundsOk(ro.normalisedBounds) && SomeListed(ro.normalisedBounds)
  {
    var b := R.Bound(spellings, pmin, R.Unlisted(listed));
    BoundedShareUnit(f, mass, b);
    BoundsAccepted(ro.normalisedBounds, mass, R.BoundedShare(f, mass, b));
  }

  lemma ConservativeDistributes(c: seq<real>, mass: seq<Option<real>>, b: real, total: real, f: real -> real)
    requires R.Weighing(f) && R.MassesOk(mass)
    requires R.ConservativeOf(c, mass, b, total, f)
    ensures |c| == |mass| && Distribution(c)
  {
    var alloc: seq<real> :| |alloc| == R.Absent(mass) && R.Worst(f, b, total, alloc)
      && c == R.Shares(f, R.Fill(mass, alloc));
    FilledDistribution(f, mass, alloc);
  }

  lemma BoundedShareUnit(f: real -> real, mass: seq<Option<real>>, b: real)
    requires R.Weighing(f) && b >= 0.0 && SumOf(f, R.Known(mass)) > 0.0
    ensures 0.0 <= R.BoundedShare(f, mass, b) <= 1.0
  {
    assert f(b) >= 0.0;
    UnitQuotient(f(b), SumOf(f, R.Known(mass)) + f(b));
  }

  lemma DistributionAccepted(p: seq<real>)
    requires Distribution(p)
    ensures AcceptedProbs(p) && Capped(p) == p
  {
    CappedIsSame(p);
  }

  lemma BoundsAccepted(bounds: seq<Option<real>>, mass: seq<Option<real>>, v: real)
    requires R.BoundsAre(bounds, mass, v) && 0.0 <= v <= 1.0 && R.Known(mass) != []
    ensures BoundsOk(bounds) && SomeListed(bounds)
  {
    AllListedOrAbsent(mass);
    var i :| 0 <= i < |mass| && mass[i].Some?;
    assert bounds[i].None?;
  }

  lemma FilledDistribution(f: real -> real, mass: seq<Option<real>>, xs: seq<real>)
    requires R.Weighing(f)
    requires R.MassesOk(mass) && |xs| == R.Absent(mass) && NonNegative(xs) && SumOf(f, R.Known(mass)) > 0.0
    ensures Distribution(R.Shares(f, R.Fill(mass, xs)))
  {
    R.FillNonNegative(mass, xs);
    R.SumOfFill(f, mass, xs);
    R.SumOfNonNegative(f, xs);
    SharesDistribute(f, R.Fill(mass, xs));
  }

  // ---------------------------------------------------------------- end to end

  // The winner of a flagged answer: the best listed option, or the one listed option of a noul.
  ghost predicate AnswerWinner(kind: Kind, p: seq<real>, bounds: seq<Option<real>>, i: nat)
    requires |p| == |bounds|
  {
    Winner(p, bounds, i) && (kind.Noul? ==> |p| == 2)
  }

  // What makes option i's conservative share hold in the world: it hides no other listed option, or the condition
  // for every world holds, or below temperature 1 the corner choices weigh no more.
  ghost predicate Protected(mass: seq<Option<real>>, listed: real, pmin: real, spellings: int, room: seq<nat>,
      f: real -> real, a: real, w: World, i: nat)
    requires i < |mass| == |room| && mass[i].Some?
  {
    || HidesNoOther(w, mass, i)
    || (StrictPower(f, a) && Covered(mass, room, pmin, listed, spellings, a, i))
    || (a > 1.0 && CornersWithin(mass, pmin, Left(listed), room, f, i, GreedyWeight(mass, listed, pmin, spellings, f)))
  }

  /** For every hidden world that spells no other listed option, and for every world at all where the condition
      for that holds, with or without a calibrator: the confidence the client compares for a flagged answer is
      at most what the winner's share in that world gives. */
  lemma NeverMoreThanTheWorld(
      ro: R.Readout, mass: seq<Option<real>>, listed: real, pmin: real, spellings: int, room: seq<nat>,
      f: real -> real, a: real,
      kind: Kind, ans: Answer, cal: Option<real -> Option<real>>, w: World, i: nat)
    requires R.Power(f, a) && R.MassesOk(mass) && pmin > 0.0 && spellings >= 1 && |mass| >= 2
    requires R.Reports(ro, mass, listed, pmin, spellings, f) && RoomOf(room, mass, spellings)
    requires Consistent(w, pmin, R.Unlisted(listed), room) && R.Absent(mass) > 0
    requires Builds(ans, kind, ro.conservative, ro.normalisedBounds) && WellFormed(ans)
    requires AnswerWinner(kind, ro.conservative, ro.normalisedBounds, i)
    requires i < |mass| && mass[i].Some? ==> Protected(mass, listed, pmin, spellings, room, f, a, w, i)
    ensures var share, out := WorldShare(f, mass, w, i), Calibrated(cal, ans);
      ClientConfidence(out) <= (
        if kind.Noul? then Shape(share, 2) + 0.000000001
        else if out.calibrated then Round9(share)
        else Round9(Shape(share, |mass|)))
  {
    assert Listed(ro.normalisedBounds, i);
    WinnerHolds(ro.conservative, mass, listed, pmin, spellings, room, f, a, w, i);
    ReadoutIsAccepted(ro, mass, listed, pmin, spellings, f, a);
    var k := SomeAbsent(mass);
    assert ro.normalisedBounds[k].Some? && ans.flagged;
    if kind.Noul? {
      NoulConfidence(ans, ro.conservative, ro.normalisedBounds, i, WorldShare(f, mass, w, i));
    } else {
      ListedConfidence(ans, kind, ro.conservative, ro.normalisedBounds, i, WorldShare(f, mass, w, i), cal);
    }
  }

  lemma WinnerHolds(c: seq<real>, mass: seq<Option<real>>, listed: real, pmin: real, spellings: int, room: seq<nat>,
      f: real -> real, a: real, w: World, i: nat)
    requires R.Power(f, a) && R.MassesOk(mass) && pmin > 0.0 && spellings >= 1 && RoomOf(room, mass, spellings)
    requires R.ConservativeOf(c, mass, R.Bound(spellings, pmin, R.Unlisted(listed)), R.Unlisted(listed), f)
    requires Consistent(w, pmin, R.Unlisted(listed), room) && i < |mass| && mass[i].Some?
    requires |c| == |mass| && Protected(mass, listed, pmin, spellings, room, f, a, w, i)
    ensures c[i] <= WorldShare(f, mass, w, i)
  {
    if HidesNoOther(w, mass, i) {
      ConservativeIsWorst(c, mass, pmin, R.Unlisted(listed), spellings, room, f, w, i);
    } else if StrictPower(f, a) && Covered(mass, room, pmin, listed, spellings, a, i) {
      CoveredHolds(c, mass, room, listed, pmin, spellings, f, a, i);
      assert Consistent(w, pmin, Left(listed), room);
    } else {
      ColdCorners(c, mass, room, listed, pmin, spellings, f, i);
      assert Consistent(w, pmin, Left(listed), room);
    }
  }

  lemma TwoShares(p: seq<real>)
    requires |p| == 2 && Distribution(p)
    ensures p[0] + p[1] == 1.0
  {
    assert p[..1][..0] == [] && p[..2] == p;
    assert Sum(p[..1]) == p[0];
  }

  lemma NoulConfidence(ans: Answer, p: seq<real>, bounds: seq<Option<real>>, i: nat, share: real)
    requires |p| == |bounds| == 2 && Builds(ans, Noul, p, bounds) && Winner(p, bounds, i) && ans.flagged
    requires Distribution(p) && p[i] <= share
    ensures ClientConfidence(ans) <= Shape(share, 2) + 0.000000001
  {
    TwoShares(p);
    Round9Close(p[0]);
    assert Listed(bounds, i);
    assert ans.bounds[i].None?;
    var q := if i == 0 then ans.noul else 1.0 - ans.noul;
    assert q <= share + 0.0000000005;
    HalfShape(q, share);
  }

  lemma HalfShape(q: real, share: real)
    requires q <= share + 0.0000000005
    ensures Clamp((q - 0.5) / 0.5) <= Shape(share, 2) + 0.000000001 && Clamp(-1.0) == 0.0 <= Shape(share, 2)
  {
    assert (q - 0.5) / 0.5 == 2.0 * q - 1.0;
    assert (share - 1.0 / 2 as real) / (1.0 - 1.0 / 2 as real) == 2.0 * share - 1.0;
  }

  lemma ListedConfidence(ans: Answer, kind: Kind, p: seq<real>, bounds: seq<Option<real>>, i: nat, share: real,
      cal: Option<real -> Option<real>>)
    requires |p| == |bounds| >= 2 && !kind.Noul? && Builds(ans, kind, p, bounds) && Winner(p, bounds, i) && ans.flagged
    requires Distribution(p) && p[i] <= share && WellFormed(ans)
    ensures var out := Calibrated(cal, ans);
      ClientConfidence(out) <= if out.calibrated then Round9(share) else Round9(Shape(share, |p|))
  {
    var out := Calibrated(cal, ans);
    BestIsWinner(ans, kind, p, bounds, i);
    var v: nat :| Winner(p, bounds, v) && ans.confidence == Round9(Shape(p[v], |p|))
      && (kind.Choice? ==> ans.choice == v);
    assert v == i;
    ShapeMonotone(p[i], share, |p|);
    Round9Monotone(Shape(p[i], |p|), Shape(share, |p|));
    Round9Monotone(p[i], share);
    if out.calibrated {
      var pmax := Round9(p[i]);
      var c := Clamp(cal.value(pmax).value);
      Round9Monotone(Min(c, pmax), pmax);
      Round9Again(p[i]);
    }
  }
}
