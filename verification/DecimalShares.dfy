/**
 The two allocators in decimal places: what they return, times the power of ten asked for. Said
 without the unit they compute with.
 */
module DecimalShares {
  import opened Wrappers
  import opened Sums
  import opened CoreMoney
  import opened Decimals
  import opened LargestRemainder
  import opened Allocation
  import opened AllocationLaws
  import opened Pricing
  import opened ApportionLaws

  predicate IsInteger(x: real) {
    x.Floor as real == x
  }

  /** An amount counted in the smallest of so many decimal places. */
  function Minor(amount: real, places: nat): real {
    amount * Pow10(places) as real
  }

  /** A weight's exact share of the total, in the smallest amounts of `places` decimal places. */
  function Quota(total: real, w: real, weights: real, places: nat): real
    requires weights > 0.0
  {
    Minor(total, places) * w / weights
  }

  /** The integer next to `q` toward zero. */
  predicate IsTruncated(d: int, q: real) {
    if q >= 0.0 then d as real <= q < d as real + 1.0 else d as real - 1.0 < q <= d as real
  }

  // ---------------------------------------------------------------------------
  // Units and decimal places
  // ---------------------------------------------------------------------------

  lemma {:induction false} MinorOfUnits(x: real, places: nat)
    ensures Minor(InUnits(x, Unit(places)), places) == x
  {
    UnitIsInverse(places);
    Regrouped(x, Unit(places), Pow10(places) as real);
  }

  lemma Regrouped(x: real, u: real, p: real)
    requires u * p == 1.0
    ensures x * u * p == x
  {
    assert x * u * p == x * (u * p);
  }

  /** Dividing by the unit is multiplying by the power. */
  lemma {:induction false} PerUnit(x: real, places: nat)
    ensures x / Unit(places) == Minor(x, places)
  {
    var u := x / Unit(places);
    UnitsBack(x, Unit(places));
    MinorOfUnits(u, places);
  }

  lemma {:induction false} QuotaIsShare(total: real, ws: seq<real>, places: nat, i: nat)
    requires Sum(ws) > 0.0 && i < |ws|
    ensures Shares(Minor(total, places), ws)[i] == Quota(total, ws[i], Sum(ws), places)
  {
  }

  lemma TruncatedTowardZero(q: real)
    ensures IsTruncated(ToZero(q), q)
  {
  }

  // ---------------------------------------------------------------------------
  // The reference rule
  // ---------------------------------------------------------------------------

  /** Within one of the exact share. */
  predicate Near(x: real, q: real) {
    -1.0 < x - q < 1.0
  }

  lemma {:induction false} SplitIsNear(n: nat, ws: seq<real>, u: real, j: nat)
    requires ValidWeights(ws) && j < |ws| && u == n as real
    ensures |Split(n, ws)| == |ws| && Near(Split(n, ws)[j] as real, Shares(u, ws)[j])
  {
    SplitConserves(n, ws);
    SplitIsWithinQuota(n, ws, j);
  }

  lemma NearOpposite(x: int, q: real, p: real)
    requires Near(x as real, q) && p == -q
    ensures Near((-x) as real, p)
  {
    assert (-x) as real == -(x as real);
  }

  lemma {:induction false} OppositeSplitIsNear(size: nat, ws: seq<real>, u: real, j: nat)
    requires ValidWeights(ws) && j < |ws| && u == -(size as real)
    ensures |Split(size, ws)| == |ws| && Near((-Split(size, ws)[j]) as real, Shares(u, ws)[j])
  {
    SplitIsNear(size, ws, -u, j);
    ShareOfOpposite(u, ws, j);
    NearOpposite(Split(size, ws)[j], Shares(-u, ws)[j], Shares(u, ws)[j]);
  }

  lemma {:induction false} SignedSplitIsNear(units: int, ws: seq<real>, u: real, j: nat)
    requires ValidWeights(ws) && j < |ws| && u == units as real
    ensures |SignedSplit(units, ws)| == |ws| && Near(SignedSplit(units, ws)[j] as real, Shares(u, ws)[j])
  {
    if units < 0 {
      OppositeSplitIsNear(-units, ws, u, j);
      assert SignedSplit(units, ws) == Negated(Split(-units, ws));
    } else {
      SplitIsNear(units, ws, u, j);
    }
  }

  /** A part of a total that has no more places than asked for. */
  ghost predicate IsWholePart(part: real, split: int, total: real, w: real, weights: real, places: nat)
    requires weights > 0.0
  {
    Minor(part, places) == split as real && Near(Minor(part, places), Quota(total, w, weights, places))
  }

  lemma {:induction false} PartIsWhole(total: real, ws: seq<real>, places: nat, units: int, i: nat)
    requires ValidWeights(ws) && i < |ws| && units as real == Minor(total, places)
    ensures |SignedSplit(units, ws)| == |ws|
    ensures IsWholePart(
              Amounts(SignedSplit(units, ws), Unit(places))[i], SignedSplit(units, ws)[i],
              total, ws[i], Sum(ws), places)
  {
    SignedSplitIsNear(units, ws, Minor(total, places), i);
    QuotaIsShare(total, ws, places, i);
    MinorOfUnits(SignedSplit(units, ws)[i] as real, places);
  }

  /**
   On valid weights and a scale up to 28 it succeeds exactly when the total has no more places than
   the scale; every part then has no more either, lies within one smallest amount of its exact share,
   and is the signed whole-unit split's.
   */
  lemma {:induction false} AllocatedInDecimals(total: real, ws: seq<real>, scale: nat)
    requires ValidWeights(ws) && scale <= 28
    ensures Allocated(total, ws, scale).Success? <==> IsInteger(Minor(total, scale))
    ensures Allocated(total, ws, scale).Success? ==>
              var parts, split := Allocated(total, ws, scale).value, SignedSplit(Minor(total, scale).Floor, ws);
              && |parts| == |split| == |ws| && Sum(parts) == total
              && forall i :: 0 <= i < |ws| ==> IsWholePart(parts[i], split[i], total, ws[i], Sum(ws), scale)
  {
    PerUnit(total, scale);
    AllocatesExactlyWholeUnits(total, ws, scale);
    if Allocated(total, ws, scale).Success? {
      var units := Minor(total, scale).Floor;
      AllocatedOfValid(total, ws, scale);
      PartsSumToTheWhole(total, ws, scale);
      SignedSplitConserves(units, ws);
      forall i | 0 <= i < |ws|
        ensures IsWholePart(
                  Allocated(total, ws, scale).value[i], SignedSplit(units, ws)[i], total, ws[i], Sum(ws), scale)
      {
        PartIsWhole(total, ws, scale, units, i);
      }
    }
  }

  /** The weights checked first: each refusal for its own reason. */
  lemma {:induction false} AllocationIsRefused(total: real, ws: seq<real>, scale: nat)
    ensures ws == [] ==> Allocated(total, ws, scale) == Failure(NoWeights)
    ensures ws != [] && scale > 28 ==> Allocated(total, ws, scale) == Failure(ScaleTooLarge(scale))
    ensures ws != [] && scale <= 28 && NonNegative(ws) && Sum(ws) == 0.0 ==>
              Allocated(total, ws, scale) == Failure(ZeroWeight)
  {
  }

  lemma {:induction false} NegativeWeightIsNamed(total: real, ws: seq<real>, scale: nat, i: nat)
    requires scale <= 28 && i < |ws| && ws[i] < 0.0 && NonNegative(ws[..i])
    ensures Allocated(total, ws, scale) == Failure(NegativeWeight(ws[i]))
  {
    assert ws[..i + 1][..i] == ws[..i];
    assert FirstNegative(ws[..i + 1]) == Some(ws[i]);
    PrefixDecides(ws, i + 1);
  }

  lemma {:induction false} FinerTotalOverflows(total: real, ws: seq<real>, scale: nat)
    requires ValidWeights(ws) && scale <= 28 && !IsInteger(Minor(total, scale))
    ensures Allocated(total, ws, scale) == Failure(Overflow)
  {
    PerUnit(total, scale);
    AllocatedOfValid(total, ws, scale);
  }

  // ---------------------------------------------------------------------------
  // The apportionment
  // ---------------------------------------------------------------------------

  /** How many smallest amounts are handed out of what is left, one each: none of a negative rest. */
  function HandedOut(left: real): int {
    if left < 1.0 then 0 else left.Floor
  }

  /** A share of `d`, one more if it is among the first, and the residue if it is the first. */
  function WithItsPart(d: int, rank: nat, left: real): real {
    (d + if rank < HandedOut(left) then 1 else 0) as real + if rank == 0 then left - HandedOut(left) as real else 0.0
  }

  lemma {:induction false} FinishedAt(ds: seq<int>, rs: seq<real>, left: real, unit: real, i: nat)
    requires |ds| == |rs| && i < |rs|
    ensures |Finished(ds, rs, left, unit)| == |rs|
    ensures Finished(ds, rs, left, unit)[i] == InUnits(WithItsPart(ds[i], Rank(rs, i), left), unit)
  {
    var first, k := Order(rs)[0], HandedOut(left);
    RankOfOrder(rs, 0);
    RankOrders(rs, i, first);
    UnitsAdd((ds[i] + if Rank(rs, i) < k then 1 else 0) as real, left - k as real, unit);
  }

  lemma {:induction false} ApportionedAt(total: real, ws: seq<real>, places: nat, i: nat)
    requires ValidWeights(ws) && i < |ws|
    ensures var u := Minor(total, places);
            var es := Shares(u, ws);
            && |ApportionedUnits(u, ws, Unit(places))| == |ws|
            && Minor(ApportionedUnits(u, ws, Unit(places))[i], places)
               == WithItsPart(Truncated(es)[i], Rank(SignedCuts(es), i), LeftOf(u, ws))
  {
    var u := Minor(total, places);
    var es := Shares(u, ws);
    FinishedAt(Truncated(es), SignedCuts(es), LeftOf(u, ws), Unit(places), i);
    MinorOfUnits(WithItsPart(Truncated(es)[i], Rank(SignedCuts(es), i), LeftOf(u, ws)), places);
  }

  lemma {:induction false} ApportionedValue(total: Money, ws: seq<real>, places: nat) returns (parts: seq<real>)
    requires ValidWeights(ws)
    ensures parts == ApportionedUnits(Minor(total.amount, places), ws, Unit(places))
    ensures Apportioned(total, ws, places) == Success(InCurrency(parts, total.currency))
  {
    PerUnit(total.amount, places);
    parts := ApportionedUnits(total.amount / Unit(places), ws, Unit(places));
  }

  lemma {:induction false} CutOfQuota(total: real, ws: seq<real>, places: nat, i: nat)
    requires Sum(ws) > 0.0 && i < |ws|
    ensures var es, q := Shares(Minor(total, places), ws), Quota(total, ws[i], Sum(ws), places);
            IsTruncated(Truncated(es)[i], q) && SignedCuts(es)[i] == q - Truncated(es)[i] as real
  {
    QuotaIsShare(total, ws, places, i);
    TruncatedTowardZero(Quota(total, ws[i], Sum(ws), places));
  }

  /** The exact shares truncated toward zero, and what each lost, with its sign. */
  ghost predicate AreCut(total: real, ws: seq<real>, places: nat, ds: seq<int>, cuts: seq<real>)
    requires Sum(ws) > 0.0
  {
    && |ds| == |cuts| == |ws|
    && forall i :: 0 <= i < |ws| ==>
         var q := Quota(total, ws[i], Sum(ws), places);
         IsTruncated(ds[i], q) && cuts[i] == q - ds[i] as real
  }

  ghost predicate ArePlaced(parts: seq<real>, ds: seq<int>, cuts: seq<real>, left: real, places: nat) {
    && |parts| == |ds| == |cuts|
    && forall i :: 0 <= i < |parts| ==> Minor(parts[i], places) == WithItsPart(ds[i], Rank(cuts, i), left)
  }

  /** The truncated shares of a total, and what truncation took. */
  ghost predicate CutFrom(total: real, ws: seq<real>, places: nat, ds: seq<int>, cuts: seq<real>)
    requires Sum(ws) > 0.0
  {
    ds == Truncated(Shares(Minor(total, places), ws)) && cuts == SignedCuts(Shares(Minor(total, places), ws))
  }

  lemma {:induction false} TotalIsCut(total: real, ws: seq<real>, places: nat) returns (ds: seq<int>, cuts: seq<real>)
    requires ValidWeights(ws)
    ensures CutFrom(total, ws, places, ds, cuts)
  {
    ds, cuts := Truncated(Shares(Minor(total, places), ws)), SignedCuts(Shares(Minor(total, places), ws));
  }

  lemma {:induction false} SharesAreCut(total: real, ws: seq<real>, places: nat, ds: seq<int>, cuts: seq<real>)
    requires ValidWeights(ws) && CutFrom(total, ws, places, ds, cuts)
    ensures AreCut(total, ws, places, ds, cuts)
  {
    forall i | 0 <= i < |ws|
      ensures var q := Quota(total, ws[i], Sum(ws), places);
              IsTruncated(ds[i], q) && cuts[i] == q - ds[i] as real
    {
      CutOfQuota(total, ws, places, i);
    }
  }

  lemma {:induction false} SharesArePlaced(
      total: real, ws: seq<real>, places: nat, ds: seq<int>, cuts: seq<real>, parts: seq<real>)
    requires ValidWeights(ws) && CutFrom(total, ws, places, ds, cuts)
    requires parts == ApportionedUnits(Minor(total, places), ws, Unit(places))
    ensures ArePlaced(parts, ds, cuts, Minor(total, places) - SumInt(ds) as real, places)
  {
    ApportionedAt(total, ws, places, 0);
    forall i | 0 <= i < |ws|
      ensures Minor(parts[i], places)
              == WithItsPart(ds[i], Rank(cuts, i), Minor(total, places) - SumInt(ds) as real)
    {
      ApportionedAt(total, ws, places, i);
    }
  }

  /**
   For any total, of any sign and any precision: each share is its exact share truncated toward zero,
   one smallest amount more for as many as were left over, those that lost most first, and the rest of
   what was left, of either sign, on the one that lost most.
   */
  lemma {:induction false} ApportionedInDecimals(total: Money, ws: seq<real>, places: nat)
    returns (parts: seq<real>, ds: seq<int>, cuts: seq<real>)
    requires ValidWeights(ws)
    ensures Apportioned(total, ws, places) == Success(InCurrency(parts, total.currency))
    ensures AreCut(total.amount, ws, places, ds, cuts)
    ensures ArePlaced(parts, ds, cuts, Minor(total.amount, places) - SumInt(ds) as real, places)
  {
    parts := ApportionedValue(total, ws, places);
    ds, cuts := TotalIsCut(total.amount, ws, places);
    SharesAreCut(total.amount, ws, places, ds, cuts);
    SharesArePlaced(total.amount, ws, places, ds, cuts, parts);
  }

  /** A total that is not negative and has no more places gets the whole-unit split, within one each. */
  lemma {:induction false} ApportionedWholeInDecimals(total: Money, ws: seq<real>, places: nat)
    requires ValidWeights(ws) && total.amount >= 0.0 && IsInteger(Minor(total.amount, places))
    ensures Minor(total.amount, places) >= 0.0
    ensures var split := Split(Minor(total.amount, places).Floor, ws);
            && Apportioned(total, ws, places).Success?
            && |Apportioned(total, ws, places).value| == |split| == |ws|
            && forall i :: 0 <= i < |ws| ==>
                 var share := Apportioned(total, ws, places).value[i];
                 share.currency == total.currency
                 && IsWholePart(share.amount, split[i], total.amount, ws[i], Sum(ws), places)
  {
    var u := Minor(total.amount, places);
    var parts := ApportionedValue(total, ws, places);
    PerUnit(total.amount, places);
    UnitsOfTotal(total.amount, Unit(places));
    ApportionedWhole(u.Floor, ws, Unit(places), u);
    forall i | 0 <= i < |ws|
      ensures |Split(u.Floor, ws)| == |ws|
      ensures IsWholePart(
                Amounts(Split(u.Floor, ws), Unit(places))[i], Split(u.Floor, ws)[i],
                total.amount, ws[i], Sum(ws), places)
    {
      PartIsWhole(total.amount, ws, places, u.Floor, i);
    }
  }

  /** Each refusal for its own reason. */
  lemma {:induction false} ApportionmentIsRefused(total: Money, ws: seq<real>, places: nat)
    ensures ws == [] ==> Apportioned(total, ws, places) == Failure(NoApportionmentWeights)
    ensures ws != [] && (Sum(ws) <= 0.0 || exists i :: 0 <= i < |ws| && ws[i] < 0.0) ==>
              Apportioned(total, ws, places) == Failure(InvalidWeights)
  {
  }
}
