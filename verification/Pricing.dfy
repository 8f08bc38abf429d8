/** Effective cost of an invoice line, and apportionment of a cost across weights. */
module Pricing {
  import opened Wrappers
  import opened Sums
  import opened CoreMoney
  import opened Decimals
  import opened LargestRemainder
  import opened Allocation

  datatype Discount = Negotiated(rate: real) | Volume(rate: real)

  datatype CommitmentCoverage = CommitmentCoverage(
    coveredQuantity: real,
    committedUnitPrice: real,
    prepaid: bool)

  datatype PricingInputs = PricingInputs(
    listUnitPrice: real,
    quantity: real,
    currency: Currency,
    discounts: seq<Discount>,
    commitment: Option<CommitmentCoverage>)

  datatype CostAmounts = CostAmounts(listCost: Money, billedCost: Money, effectiveCost: Money)

  datatype PricingError =
    | DiscountRateOutOfRange(rate: real)
    | NegativeQuantity(quantity: real)
    | NegativeUnitPrice(price: real)
    | NegativeCoverage(covered: real)
    | NoApportionmentWeights
    | InvalidWeights
    | CurrencyError(mismatch: CurrencyMismatch)

  // ---------------------------------------------------------------------------
  // The cost computation
  // ---------------------------------------------------------------------------

  predicate InRange(rate: real) {
    0.0 <= rate <= 1.0
  }

  function FirstOutOfRange(discounts: seq<Discount>): (r: Option<real>)
    ensures r == None <==> forall i :: 0 <= i < |discounts| ==> InRange(discounts[i].rate)
    ensures r.Some? ==> !InRange(r.value)
  {
    if discounts == [] then None
    else
      var front := FirstOutOfRange(discounts[..|discounts| - 1]);
      if front.Some? then front
      else if InRange(discounts[|discounts| - 1].rate) then None
      else Some(discounts[|discounts| - 1].rate)
  }

  /** An exact product. */
  function Times(x: real, y: real): real {
    x * y
  }

  /** Discounts compose multiplicatively. */
  function Retained(discounts: seq<Discount>): real {
    if discounts == [] then 1.0
    else Times(Retained(discounts[..|discounts| - 1]), 1.0 - discounts[|discounts| - 1].rate)
  }

  function Least(x: real, y: real): real {
    if x < y then x else y
  }

  function Compute(inputs: PricingInputs): Result<CostAmounts, PricingError> {
    if inputs.quantity < 0.0 then Failure(NegativeQuantity(inputs.quantity))
    else if inputs.listUnitPrice < 0.0 then Failure(NegativeUnitPrice(inputs.listUnitPrice))
    else if FirstOutOfRange(inputs.discounts).Some? then
      Failure(DiscountRateOutOfRange(FirstOutOfRange(inputs.discounts).value))
    else if inputs.commitment.Some? && inputs.commitment.value.coveredQuantity < 0.0 then
      Failure(NegativeCoverage(inputs.commitment.value.coveredQuantity))
    else
      var discountedUnitPrice := Times(inputs.listUnitPrice, Retained(inputs.discounts));
      var c := if inputs.commitment.Some? then inputs.commitment.value else CommitmentCoverage(0.0, 0.0, false);
      var coveredQuantity := Least(c.coveredQuantity, inputs.quantity);
      var listCost := Money(Times(inputs.listUnitPrice, inputs.quantity), inputs.currency);
      var onDemandCost := Money(Times(inputs.quantity - coveredQuantity, discountedUnitPrice), inputs.currency);
      var coveredCost := Money(Times(coveredQuantity, c.committedUnitPrice), inputs.currency);
      var total := onDemandCost.CheckedAdd(coveredCost);
      if total.Failure? then Failure(CurrencyError(total.error))
      else Success(CostAmounts(listCost, if c.prepaid then onDemandCost else total.value, total.value))
  }

  // ---------------------------------------------------------------------------
  // Apportionment: what it returns
  // ---------------------------------------------------------------------------

  /** What truncation took from each share, with its sign. */
  function SignedCuts(es: seq<real>): seq<real> {
    seq(|es|, i requires 0 <= i < |es| => es[i] - ToZero(es[i]) as real)
  }

  /** How many whole units are handed out: none for a negative leftover. */
  function TopUps(left: real): nat {
    if left >= 1.0 then left.Floor else 0
  }

  /** One part more, at one place. */
  function AddedAt(parts: seq<real>, i: nat, x: real): seq<real>
    requires i < |parts|
  {
    parts[i := parts[i] + x]
  }

  /**
   The truncated shares, topped up by rank of the signed cut, and whatever is then left, of either
   sign, put on the share ranked first.
   */
  function Finished(ds: seq<int>, rs: seq<real>, left: real, unit: real): seq<real>
    requires |ds| == |rs| && rs != []
  {
    AddedAt(
      Amounts(Topped(ds, rs, TopUps(left), 1), unit), Order(rs)[0], InUnits(left - TopUps(left) as real, unit))
  }

  /** `u` units split over the weights. */
  function ApportionedUnits(u: real, ws: seq<real>, unit: real): seq<real>
    requires Sum(ws) > 0.0 && ws != []
  {
    Finished(Truncated(Shares(u, ws)), SignedCuts(Shares(u, ws)), LeftOf(u, ws), unit)
  }

  function InCurrency(parts: seq<real>, c: Currency): seq<Money> {
    seq(|parts|, i requires 0 <= i < |parts| => Money(parts[i], c))
  }

  function Apportioned(total: Money, ws: seq<real>, dp: nat): Result<seq<Money>, PricingError> {
    if ws == [] then Failure(NoApportionmentWeights)
    else if !NonNegative(ws) then Failure(InvalidWeights)
    else if Sum(ws) <= 0.0 then Failure(InvalidWeights)
    else Success(InCurrency(ApportionedUnits(total.amount / Unit(dp), ws, Unit(dp)), total.currency))
  }

  // ---------------------------------------------------------------------------
  // Apportionment: how it gets there
  // ---------------------------------------------------------------------------

  lemma SignedCutAt(es: seq<real>, unit: real, i: nat, exact: real)
    requires unit > 0.0 && i < |es| && exact == InUnits(es[i], unit)
    ensures RoundToZero(exact, unit) == Amounts(Truncated(es), unit)[i]
    ensures Cut(i, exact - RoundToZero(exact, unit)) == Cuts(Scaled(SignedCuts(es), unit))[i]
  {
    CutOf(exact, es[i], unit);
  }

  /** First loop: floor every share to the precision, and note what it lost. */
  method FloorShares(amount: real, ws: seq<real>, unit: real, ghost u: real)
    returns (floored: seq<real>, remainders: seq<Cut>)
    requires Sum(ws) > 0.0 && unit > 0.0 && amount == InUnits(u, unit)
    ensures floored == Amounts(Truncated(Shares(u, ws)), unit)
    ensures remainders == Cuts(Scaled(SignedCuts(Shares(u, ws)), unit))
  {
    ghost var es := Shares(u, ws);
    ghost var downs, cuts := Amounts(Truncated(es), unit), Cuts(Scaled(SignedCuts(es), unit));
    var weightSum := Sum(ws);
    floored, remainders := [], [];
    for i := 0 to |ws|
      invariant floored == downs[..i] && remainders == cuts[..i]
    {
      var exact := Share(amount, ws[i], weightSum);
      var down := RoundToZero(exact, unit);
      ShareInUnits(amount, u, ws[i], weightSum, unit);
      SignedCutAt(es, unit, i, exact);
      remainders := remainders + [Cut(i, exact - down)];
      floored := floored + [down];
    }
  }

  /** The hand-out stops after `k` turns: there was a step to give before each, and is none after. */
  ghost predicate StopsAt(leftover: real, step: real, n: nat, k: nat) {
    && k <= n
    && (forall j: nat :: j < k ==> AfterTurns(leftover, step, j) >= step)
    && (k < n ==> AfterTurns(leftover, step, k) < step)
  }

  /** Second loop: a step each, in the given order, while a step is left. */
  method TopUp(
      floored0: seq<real>, order: seq<nat>, leftover0: real, step: real,
      ghost stages: seq<seq<real>>, ghost k: nat)
    returns (floored: seq<real>, leftover: real)
    requires Stages(stages, order, step) && floored0 == stages[0]
    requires StopsAt(leftover0, step, |order|, k)
    ensures floored == stages[k] && leftover == AfterTurns(leftover0, step, k)
  {
    floored, leftover := floored0, leftover0;
    var idx := 0;
    while leftover >= step && idx < |order|
      invariant 0 <= idx <= k
      invariant floored == stages[idx] && leftover == AfterTurns(leftover0, step, idx)
      decreases |order| - idx
    {
      var target := order[idx];
      floored := floored[target := floored[target] + step];
      leftover := leftover - step;
      idx := idx + 1;
    }
  }

  lemma {:induction false} AfterUnits(left: real, unit: real, k: nat)
    ensures AfterTurns(InUnits(left, unit), unit, k) == InUnits(left - k as real, unit)
  {
    if k > 0 {
      AfterUnits(left, unit, k - 1);
      UnitsAdd(left - (k - 1) as real, 1.0, unit);
    }
  }

  lemma TopUpsStop(left: real, unit: real, n: nat)
    requires unit > 0.0 && left < n as real
    ensures StopsAt(InUnits(left, unit), unit, n, TopUps(left))
    ensures AfterTurns(InUnits(left, unit), unit, TopUps(left)) == InUnits(left - TopUps(left) as real, unit)
  {
    forall j: nat
      ensures AfterTurns(InUnits(left, unit), unit, j) >= unit <==> left - j as real >= 1.0
    {
      AfterUnits(left, unit, j);
      UnitsOrder(left - j as real, 1.0, unit);
    }
    AfterUnits(left, unit, TopUps(left));
  }

  /** The course of the hand-out: its stages, where it stops, and what is left then. */
  lemma Course(ds: seq<int>, rs: seq<real>, left: real, unit: real)
    requires |ds| == |rs| && rs != [] && unit > 0.0 && left < |rs| as real
    ensures var stages, order, k := StagesOf(ds, rs, 1, unit), Order(Scaled(rs, unit)), TopUps(left);
            && Stages(stages, order, unit) && stages[0] == Amounts(ds, unit)
            && StopsAt(InUnits(left, unit), unit, |rs|, k)
            && stages[k] == Amounts(Topped(ds, rs, k, 1), unit)
            && AfterTurns(InUnits(left, unit), unit, k) == InUnits(left - k as real, unit)
            && order[0] == Order(rs)[0]
  {
    StagesAreToppings(ds, rs, 1, unit);
    assert InUnits(1 as real, unit) == unit;
    TopUpsStop(left, unit, |rs|);
    ScaledOrder(rs, unit, 0);
  }

  /** What is still left goes on one share. */
  method PlaceResidue(floored: seq<real>, target: nat, leftover: real) returns (parts: seq<real>)
    requires target < |floored|
    ensures parts == AddedAt(floored, target, leftover)
  {
    parts := floored;
    if leftover != 0.0 {
      parts := parts[target := parts[target] + leftover];
    }
  }

  /** Hand out what is left, and place the residue. */
  method Distribute(
      floored: seq<real>, remainders: seq<Cut>, leftover0: real, step: real,
      ghost ds: seq<int>, ghost rs: seq<real>, ghost left: real)
    returns (parts: seq<real>)
    requires |ds| == |rs| && rs != [] && step > 0.0 && left < |rs| as real
    requires floored == Amounts(ds, step) && remainders == Cuts(Scaled(rs, step)) && leftover0 == InUnits(left, step)
    ensures parts == Finished(ds, rs, left, step)
  {
    var order := SortedIndexes(remainders, Scaled(rs, step));
    Course(ds, rs, left, step);
    var topped, leftover := TopUp(floored, order, leftover0, step, StagesOf(ds, rs, 1, step), TopUps(left));
    parts := PlaceResidue(topped, order[0], leftover);
  }

  lemma LeftBelowCount(u: real, ws: seq<real>)
    requires ValidWeights(ws)
    ensures LeftOf(u, ws) < |ws| as real
  {
    SignedLeftover(u, ws);
  }

  /** The loops after the weights are checked. */
  method ApportionValid(amount: real, ws: seq<real>, step: real, ghost u: real) returns (parts: seq<real>)
    requires ValidWeights(ws) && step > 0.0 && amount == InUnits(u, step)
    ensures parts == ApportionedUnits(u, ws, step)
  {
    var floored, remainders := FloorShares(amount, ws, step, u);
    LeftoverInUnits(amount, u, ws, step);
    LeftBelowCount(u, ws);
    parts := Distribute(
      floored, remainders, amount - Sum(floored), step,
      Truncated(Shares(u, ws)), SignedCuts(Shares(u, ws)), LeftOf(u, ws));
  }

  method Apportion(total: Money, ws: seq<real>, dp: nat) returns (r: Result<seq<Money>, PricingError>)
    requires dp <= 19
    ensures r == Apportioned(total, ws, dp)
  {
    if ws == [] {
      return Failure(NoApportionmentWeights);
    }
    if exists i :: 0 <= i < |ws| && ws[i] < 0.0 {
      return Failure(InvalidWeights);
    }
    if Sum(ws) <= 0.0 {
      return Failure(InvalidWeights);
    }
    var parts := ApportionValid(total.amount, ws, Unit(dp), total.amount / Unit(dp));
    r := Success(InCurrency(parts, total.currency));
  }
}
