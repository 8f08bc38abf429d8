/** What the reference rule promises: the parts are the whole, in every sign, and when it errors. */
module AllocationLaws {
  import opened Wrappers
  import opened Sums
  import opened Decimals
  import opened LargestRemainder
  import opened Allocation

  /** Errors are exactly bad weights, a scale beyond 28, and totals finer than the scale. */
  lemma AllocatesExactlyWholeUnits(total: real, ws: seq<real>, scale: nat)
    ensures Allocated(total, ws, scale).Success?
            <==> ValidWeights(ws) && scale <= 28 && Whole(total, Unit(scale))
    ensures ValidWeights(ws) && scale <= 28 && !Whole(total, Unit(scale))
            ==> Allocated(total, ws, scale) == Failure(Overflow)
  {
    if NonNegative(ws) {
      SumNonNegative(ws);
    }
  }

  lemma SignedSplitConserves(units: int, ws: seq<real>)
    requires ValidWeights(ws)
    ensures |SignedSplit(units, ws)| == |ws| && SumInt(SignedSplit(units, ws)) == units
  {
    var n: nat := if units < 0 then -units else units;
    SplitConserves(n, ws);
    NegatedSum(Split(n, ws));
  }

  /** The parts sum to the whole, for every total the rule accepts. */
  lemma {:induction false} PartsSumToTheWhole(total: real, ws: seq<real>, scale: nat)
    requires Allocated(total, ws, scale).Success?
    ensures |Allocated(total, ws, scale).value| == |ws|
    ensures Sum(Allocated(total, ws, scale).value) == total
  {
    var unit := Unit(scale);
    AllocatesExactlyWholeUnits(total, ws, scale);
    SignedSplitConserves((total / unit).Floor, ws);
    AmountsSum(SignedSplit((total / unit).Floor, ws), unit);
    assert InUnits(total / unit, unit) == total;
  }

  function Opposites(parts: seq<real>): seq<real> {
    seq(|parts|, i requires 0 <= i < |parts| => -parts[i])
  }

  lemma OppositeAmounts(us: seq<int>, unit: real)
    ensures Amounts(Negated(us), unit) == Opposites(Amounts(us, unit))
  {
    forall i | 0 <= i < |us| ensures Amounts(Negated(us), unit)[i] == Opposites(Amounts(us, unit))[i] {
      UnitsAdd(us[i] as real, 0.0, unit);
      assert (-us[i]) as real == -(us[i] as real);
    }
  }

  lemma NegatedTwice(us: seq<int>)
    ensures Negated(Negated(us)) == us
  {
  }

  lemma {:induction false} NothingSplit(ws: seq<real>)
    requires ValidWeights(ws)
    ensures Negated(Split(0, ws)) == Split(0, ws)
  {
    SplitConserves(0, ws);
    forall i: nat | i < |ws| ensures Split(0, ws)[i] == 0 {
      NothingToSplit(ws, i);
    }
  }

  lemma {:induction false} SignedSplitIsOdd(units: int, ws: seq<real>)
    requires ValidWeights(ws)
    ensures SignedSplit(-units, ws) == Negated(SignedSplit(units, ws))
  {
    if units == 0 {
      NothingSplit(ws);
    } else if units < 0 {
      NegatedTwice(Split(-units, ws));
    }
  }

  lemma OppositeUnits(total: real, unit: real)
    requires unit > 0.0
    ensures Whole(-total, unit) <==> Whole(total, unit)
    ensures Whole(total, unit) ==> (-total / unit).Floor == -((total / unit).Floor)
  {
    var u := total / unit;
    DivideIs(-total, unit, -u);
    var f, g := u.Floor, (-u).Floor;
    assert f as real == u ==> (-f) as real == -u;
    assert g as real == -u ==> (-g) as real == u;
  }

  /** Past the checks on weights and scale only the precision of the total matters. */
  lemma {:induction false} AllocatedOfValid(total: real, ws: seq<real>, scale: nat)
    requires ValidWeights(ws) && scale <= 28
    ensures Whole(total, Unit(scale)) ==>
              Allocated(total, ws, scale)
              == Success(Amounts(SignedSplit((total / Unit(scale)).Floor, ws), Unit(scale)))
    ensures !Whole(total, Unit(scale)) ==> Allocated(total, ws, scale) == Failure(Overflow)
  {
  }

  lemma {:induction false} ValidAllocationIsOdd(total: real, ws: seq<real>, scale: nat)
    requires ValidWeights(ws) && scale <= 28 && Whole(total, Unit(scale))
    ensures Allocated(total, ws, scale).Success?
    ensures Allocated(-total, ws, scale) == Success(Opposites(Allocated(total, ws, scale).value))
  {
    var units := (total / Unit(scale)).Floor;
    OppositeUnits(total, Unit(scale));
    AllocatedOfValid(total, ws, scale);
    AllocatedOfValid(-total, ws, scale);
    SignedSplitIsOdd(units, ws);
    OppositeAmounts(SignedSplit(units, ws), Unit(scale));
  }

  /** Negating the total negates every part; an error stays the same error. */
  lemma {:induction false} AllocationIsOdd(total: real, ws: seq<real>, scale: nat)
    ensures Allocated(-total, ws, scale)
            == match Allocated(total, ws, scale)
               case Success(parts) => Success(Opposites(parts))
               case Failure(error) => Failure(error)
  {
    if ValidWeights(ws) && scale <= 28 {
      OppositeUnits(total, Unit(scale));
      if Whole(total, Unit(scale)) {
        ValidAllocationIsOdd(total, ws, scale);
      } else {
        AllocatedOfValid(total, ws, scale);
        AllocatedOfValid(-total, ws, scale);
      }
    } else if NonNegative(ws) {
      SumNonNegative(ws);
    }
  }

  // ---------------------------------------------------------------------------
  // Equal weights
  // ---------------------------------------------------------------------------

  lemma {:induction false} OnesSum(n: nat)
    ensures Sum(Ones(n)) == n as real
  {
    if n > 0 {
      OnesSum(n - 1);
      assert Ones(n)[..n - 1] == Ones(n - 1);
    }
  }

  lemma EvenShare(units: nat, n: nat)
    requires n > 0
    ensures Share(units as real, 1.0, n as real).Floor == units / n
  {
    var e, q, r := Share(units as real, 1.0, n as real), units / n, units % n;
    assert units == q * n + r;
    assert e * n as real == units as real;
    assert (q * n) as real == q as real * n as real;
    var d := e - q as real;
    assert d * n as real == r as real;
    assert 0.0 <= d < 1.0;
  }

  lemma {:induction false} SumOfEqual(s: seq<int>, q: int)
    requires forall i :: 0 <= i < |s| ==> s[i] == q
    ensures SumInt(s) == |s| * q
  {
    if s != [] {
      SumOfEqual(s[..|s| - 1], q);
    }
  }

  function IndexesBelow(i: nat): (s: set<nat>)
    ensures |s| == i && forall k: nat :: k in s <==> k < i
  {
    if i == 0 then {} else IndexesBelow(i - 1) + {i - 1}
  }

  lemma EqualRemaindersRankByIndex(rs: seq<real>, i: nat)
    requires i < |rs| && forall k :: 0 <= k < |rs| ==> rs[k] == rs[0]
    ensures Rank(rs, i) == i
  {
    assert Ahead(rs, i) == IndexesBelow(i);
  }

  lemma EvenFloors(units: nat, n: nat)
    requires n > 0 && Sum(Ones(n)) > 0.0
    ensures Floors(Shares(units as real, Ones(n))) == seq(n, i requires 0 <= i < n => units / n)
  {
    OnesSum(n);
    EvenShare(units, n);
  }

  lemma EvenRemainders(units: nat, n: nat, i: nat)
    requires i < n && Sum(Ones(n)) > 0.0
    ensures Rank(Remainders(Shares(units as real, Ones(n))), i) == i
  {
    EqualRemaindersRankByIndex(Remainders(Shares(units as real, Ones(n))), i);
  }

  lemma EvenRest(units: nat, n: nat)
    requires n > 0 && Sum(Ones(n)) > 0.0
    ensures units - SumInt(Floors(Shares(units as real, Ones(n)))) == units % n
  {
    EvenFloors(units, n);
    SumOfEqual(Floors(Shares(units as real, Ones(n))), units / n);
    assert units - n * (units / n) == units % n;
  }

  /** Split evenly, the first `units % n` parts get one unit more than the rest. */
  lemma {:induction false} EvenSplit(units: nat, n: nat, i: nat)
    requires i < n
    ensures ValidWeights(Ones(n))
    ensures Split(units, Ones(n))[i] == units / n + if i < units % n then 1 else 0
  {
    OnesSum(n);
    EvenFloors(units, n);
    EvenRest(units, n);
    EvenRemainders(units, n, i);
  }
}
