/**
 Amounts at a decimal precision: exact numbers, truncated toward zero to a multiple of `unit`, the
 smallest amount at that precision.
 */
module Decimals {
  import opened Sums

  /** One minor unit: `1 / 10^scale`. */
  function Unit(scale: nat): (u: real)
    ensures 0.0 < u <= 1.0
  {
    if scale == 0 then 1.0 else Unit(scale - 1) / 10.0
  }

  /** `Decimal::new`: so many minor units at a scale. */
  function DecimalOf(minor: nat, scale: nat): (d: real)
    ensures d >= 0.0 && (d == 0.0 <==> minor == 0)
  {
    if scale == 0 then minor as real else DecimalOf(minor, scale - 1) / 10.0
  }

  function Pow10(n: nat): (p: nat)
    ensures p >= 1
  {
    if n == 0 then 1 else 10 * Pow10(n - 1)
  }

  /** What makes it the power of ten: ten for one place, and the product for places together. */
  lemma {:induction false} PowersOfTen(m: nat, n: nat)
    ensures Pow10(0) == 1 && Pow10(1) == 10 && Pow10(m + n) == Pow10(m) * Pow10(n)
  {
    if m > 0 {
      PowersOfTen(m - 1, n);
      assert Pow10(m + n) == 10 * Pow10(m - 1 + n);
    }
  }

  /** `10^scale` minor units make one. */
  lemma {:induction false} UnitIsInverse(scale: nat)
    ensures Unit(scale) * Pow10(scale) as real == 1.0
  {
    if scale > 0 {
      UnitIsInverse(scale - 1);
      assert Pow10(scale) as real == 10.0 * Pow10(scale - 1) as real;
      TenthsOfTens(Unit(scale - 1), Pow10(scale - 1) as real);
    }
  }

  lemma TenthsOfTens(x: real, p: real)
    ensures (x / 10.0) * (10.0 * p) == x * p
  {
  }

  /** At a scale, `minor` is the amount in minor units. */
  lemma {:induction false} DecimalIsMinorUnits(minor: nat, scale: nat)
    ensures DecimalOf(minor, scale) * Pow10(scale) as real == minor as real
  {
    if scale > 0 {
      DecimalIsMinorUnits(minor, scale - 1);
      assert Pow10(scale) as real == 10.0 * Pow10(scale - 1) as real;
      TenthsOfTens(DecimalOf(minor, scale - 1), Pow10(scale - 1) as real);
    }
  }

  function Abs(x: real): real {
    if x < 0.0 then -x else x
  }

  function ToZero(x: real): int {
    if x >= 0.0 then x.Floor else -((-x).Floor)
  }

  /** The amount of so many units. */
  function InUnits(units: real, unit: real): real {
    units * unit
  }

  /** `round_dp_with_strategy(scale, ToZero)`. */
  function RoundToZero(x: real, unit: real): real
    requires unit > 0.0
  {
    InUnits(ToZero(x / unit) as real, unit)
  }

  /** The amount is a whole number of units. */
  predicate Whole(amount: real, unit: real)
    requires unit > 0.0
  {
    (amount / unit).Floor as real == amount / unit
  }

  /** Whole units as amounts. */
  function Amounts(us: seq<int>, unit: real): seq<real> {
    seq(|us|, i requires 0 <= i < |us| => InUnits(us[i] as real, unit))
  }

  // ---------------------------------------------------------------------------
  // Arithmetic in units
  // ---------------------------------------------------------------------------

  lemma DivideIs(x: real, p: real, q: real)
    requires p > 0.0 && q * p == x
    ensures x / p == q
  {
  }

  lemma UnitsBack(amount: real, unit: real)
    requires unit > 0.0
    ensures InUnits(amount / unit, unit) == amount
  {
  }

  lemma UnitsAdd(x: real, y: real, unit: real)
    ensures InUnits(x + y, unit) == InUnits(x, unit) + InUnits(y, unit)
    ensures InUnits(x - y, unit) == InUnits(x, unit) - InUnits(y, unit)
    ensures InUnits(-x, unit) == -InUnits(x, unit)
  {
  }

  lemma UnitsOfWhole(x: real, unit: real) returns (units: int)
    requires unit > 0.0 && Whole(x, unit)
    ensures x == InUnits(units as real, unit)
  {
    units := (x / unit).Floor;
    UnitsBack(x, unit);
  }

  lemma UnitsAreWhole(units: int, unit: real)
    requires unit > 0.0
    ensures Whole(InUnits(units as real, unit), unit)
  {
    DivideIs(InUnits(units as real, unit), unit, units as real);
  }

  lemma WholeAdd(x: real, y: real, unit: real)
    requires unit > 0.0 && Whole(x, unit) && Whole(y, unit)
    ensures Whole(x + y, unit)
  {
    var p := UnitsOfWhole(x, unit);
    var q := UnitsOfWhole(y, unit);
    UnitsAdd(p as real, q as real, unit);
    assert (p + q) as real == p as real + q as real;
    UnitsAreWhole(p + q, unit);
  }

  /** Counting in units keeps order and sign. */
  lemma UnitsOrder(x: real, y: real, unit: real)
    requires unit > 0.0
    ensures InUnits(x, unit) < InUnits(y, unit) <==> x < y
    ensures InUnits(x, unit) == InUnits(y, unit) <==> x == y
  {
    UnitsAdd(x, y, unit);
    if x < y {
      assert (y - x) * unit > 0.0;
    } else if y < x {
      assert (x - y) * unit > 0.0;
    }
  }

  lemma UnitsSign(x: real, unit: real)
    requires unit > 0.0
    ensures InUnits(x, unit) < 0.0 <==> x < 0.0
    ensures InUnits(x, unit) == 0.0 <==> x == 0.0
    ensures Abs(InUnits(x, unit)) == InUnits(Abs(x), unit)
  {
    UnitsOrder(x, 0.0, unit);
    UnitsAdd(x, x, unit);
  }

  /** Truncating an amount is truncating its units. */
  lemma RoundInUnits(x: real, e: real, unit: real)
    requires unit > 0.0 && x == InUnits(e, unit)
    ensures RoundToZero(x, unit) == InUnits(ToZero(e) as real, unit)
  {
    DivideIs(x, unit, e);
  }

  lemma AmountsPrefix(us: seq<int>, n: nat, unit: real)
    requires n <= |us|
    ensures Amounts(us, unit)[..n] == Amounts(us[..n], unit)
  {
    forall i | 0 <= i < n ensures Amounts(us, unit)[..n][i] == Amounts(us[..n], unit)[i] {
      assert us[..n][i] == us[i];
    }
  }

  lemma {:induction false} AmountsSum(us: seq<int>, unit: real)
    ensures Sum(Amounts(us, unit)) == InUnits(SumInt(us) as real, unit)
  {
    if us != [] {
      var n := |us| - 1;
      AmountsSum(us[..n], unit);
      AmountsPrefix(us, n, unit);
      UnitsAdd(SumInt(us[..n]) as real, us[n] as real, unit);
    }
  }
}
