/** Laws of the cost computation: the order of the discounts, and the order of the three measures. */
module PricingLaws {
  import opened Wrappers
  import opened CoreMoney
  import opened Pricing

  // ---------------------------------------------------------------------------
  // The order of the discounts
  // ---------------------------------------------------------------------------

  function Rates(discounts: seq<Discount>): seq<real> {
    seq(|discounts|, i requires 0 <= i < |discounts| => discounts[i].rate)
  }

  function RetainedOf(rates: seq<real>): real {
    if rates == [] then 1.0 else Times(RetainedOf(rates[..|rates| - 1]), 1.0 - rates[|rates| - 1])
  }

  lemma {:induction false} RetainedByRates(discounts: seq<Discount>)
    ensures Retained(discounts) == RetainedOf(Rates(discounts))
  {
    if discounts != [] {
      RetainedByRates(discounts[..|discounts| - 1]);
      assert Rates(discounts)[..|discounts| - 1] == Rates(discounts[..|discounts| - 1]);
    }
  }

  lemma Regroup(a: real, b: real, c: real)
    ensures Times(Times(a, b), c) == Times(Times(a, c), b)
  {
  }

  function Without(rates: seq<real>, i: nat): seq<real>
    requires i < |rates|
  {
    rates[..i] + rates[i + 1..]
  }

  /** Any factor may be taken out first. */
  lemma {:induction false} TakeOut(rates: seq<real>, i: nat)
    requires i < |rates|
    ensures RetainedOf(rates) == Times(RetainedOf(Without(rates, i)), 1.0 - rates[i])
  {
    var n := |rates| - 1;
    if i == n {
      assert Without(rates, i) == rates[..n];
    } else {
      TakeOut(rates[..n], i);
      assert Without(rates, i)[..n - 1] == Without(rates[..n], i);
      assert Without(rates, i)[n - 1] == rates[n];
      Regroup(RetainedOf(Without(rates[..n], i)), 1.0 - rates[i], 1.0 - rates[n]);
    }
  }

  lemma WithoutLeaves(rates: seq<real>, i: nat)
    requires i < |rates|
    ensures multiset(Without(rates, i)) == multiset(rates) - multiset{rates[i]}
  {
    assert rates == rates[..i] + [rates[i]] + rates[i + 1..];
  }

  lemma {:induction false} RetainedIgnoresOrder(a: seq<real>, b: seq<real>)
    requires multiset(a) == multiset(b)
    ensures RetainedOf(a) == RetainedOf(b)
    decreases |a|
  {
    if a == [] {
      assert |multiset(b)| == 0;
    } else {
      var n := |a| - 1;
      assert a[n] in multiset(b);
      var i :| 0 <= i < |b| && b[i] == a[n];
      assert Without(a, n) == a[..n];
      WithoutLeaves(a, n);
      WithoutLeaves(b, i);
      TakeOut(b, i);
      RetainedIgnoresOrder(a[..n], Without(b, i));
    }
  }

  lemma RangesIgnoreOrder(a: seq<Discount>, b: seq<Discount>)
    requires multiset(Rates(a)) == multiset(Rates(b))
    ensures FirstOutOfRange(a) == None <==> FirstOutOfRange(b) == None
  {
    forall i | 0 <= i < |a| ensures a[i].rate in Rates(b) {
      assert Rates(a)[i] in multiset(Rates(b));
    }
    forall i | 0 <= i < |b| ensures b[i].rate in Rates(a) {
      assert Rates(b)[i] in multiset(Rates(a));
    }
  }

  /** The same computation, or both refused over a discount: only which bad rate is named can differ. */
  predicate SameOutcome(r: Result<CostAmounts, PricingError>, s: Result<CostAmounts, PricingError>) {
    r == s || (r.Failure? && s.Failure? && r.error.DiscountRateOutOfRange? && s.error.DiscountRateOutOfRange?)
  }

  /** Reordering the discounts, or relabelling them, changes nothing. */
  lemma DiscountOrderDoesNotMatter(inputs: PricingInputs, reordered: seq<Discount>)
    requires multiset(Rates(inputs.discounts)) == multiset(Rates(reordered))
    ensures SameOutcome(Compute(inputs), Compute(inputs.(discounts := reordered)))
  {
    var again := inputs.(discounts := reordered);
    assert Rates(again.discounts) == Rates(reordered);
    RangesIgnoreOrder(inputs.discounts, reordered);
    RetainedByRates(inputs.discounts);
    RetainedByRates(reordered);
    RetainedIgnoresOrder(Rates(inputs.discounts), Rates(reordered));
  }

  // ---------------------------------------------------------------------------
  // The order of the measures
  // ---------------------------------------------------------------------------

  lemma {:induction false} RetainedIsAFraction(discounts: seq<Discount>)
    requires FirstOutOfRange(discounts) == None
    ensures 0.0 <= Retained(discounts) <= 1.0
  {
    if discounts != [] {
      RetainedIsAFraction(discounts[..|discounts| - 1]);
      ProductBounds(Retained(discounts[..|discounts| - 1]), 1.0 - discounts[|discounts| - 1].rate, 1.0);
      TimesOne(Retained(discounts[..|discounts| - 1]));
    }
  }

  lemma ProductNonNegative(x: real, y: real)
    requires 0.0 <= x && 0.0 <= y
    ensures 0.0 <= Times(x, y)
  {
  }

  lemma ProductBounds(x: real, y: real, top: real)
    requires 0.0 <= x && 0.0 <= y <= top
    ensures 0.0 <= Times(x, y) <= Times(x, top)
  {
    ProductNonNegative(x, y);
    ProductNonNegative(x, top - y);
  }

  /** How much of the quantity a commitment absorbs, and at what cost. */
  function Covered(inputs: PricingInputs): real {
    if inputs.commitment.Some? then Least(inputs.commitment.value.coveredQuantity, inputs.quantity)
    else Least(0.0, inputs.quantity)
  }

  function CoveredCost(inputs: PricingInputs): real {
    if inputs.commitment.Some? then Times(Covered(inputs), inputs.commitment.value.committedUnitPrice) else 0.0
  }

  /** What the rest costs at the discounted price. */
  function OnDemandCost(inputs: PricingInputs): real {
    Times(inputs.quantity - Covered(inputs), Times(inputs.listUnitPrice, Retained(inputs.discounts)))
  }

  predicate Prepaid(inputs: PricingInputs) {
    inputs.commitment.Some? && inputs.commitment.value.prepaid
  }

  /** The committed price is what committing is for: not negative, and not above list. */
  predicate CommittedAtOrBelowList(inputs: PricingInputs) {
    inputs.commitment.Some? ==> 0.0 <= inputs.commitment.value.committedUnitPrice <= inputs.listUnitPrice
  }

  /** No negative quantity, price or coverage, and no rate outside 0 to 1. */
  predicate ValidInputs(inputs: PricingInputs) {
    && inputs.quantity >= 0.0 && inputs.listUnitPrice >= 0.0
    && (forall i :: 0 <= i < |inputs.discounts| ==> InRange(inputs.discounts[i].rate))
    && (inputs.commitment.Some? ==> inputs.commitment.value.coveredQuantity >= 0.0)
  }

  /** It fails on nothing else: the two costs it adds are always in one currency. */
  lemma ComputesExactlyValidInputs(inputs: PricingInputs)
    ensures Compute(inputs).Success? <==> ValidInputs(inputs)
    ensures Compute(inputs).Failure? ==> !Compute(inputs).error.CurrencyError?
  {
  }

  /** Billed and effective cost differ by what is prepaid, and in nothing else. */
  lemma {:induction false} MeasuresOf(inputs: PricingInputs)
    requires ValidInputs(inputs)
    ensures Compute(inputs).Success?
    ensures var r := Compute(inputs).value;
            var onDemand := OnDemandCost(inputs);
            && r.listCost.amount == Times(inputs.listUnitPrice, inputs.quantity)
            && r.effectiveCost.amount == onDemand + CoveredCost(inputs)
            && r.billedCost.amount == onDemand + (if Prepaid(inputs) then 0.0 else CoveredCost(inputs))
            && 0.0 <= Covered(inputs) <= inputs.quantity
            && r.listCost.currency == r.effectiveCost.currency == r.billedCost.currency == inputs.currency
  {
  }

  lemma TimesOne(x: real)
    ensures Times(x, 1.0) == x
  {
  }

  lemma ListCostSplits(price: real, quantity: real, covered: real)
    ensures Times(price, quantity) == Times(quantity - covered, price) + Times(covered, price)
  {
  }

  /** Nothing costs less than zero, or more than list, when the committed price is sane. */
  lemma {:induction false} CostsAreBounded(inputs: PricingInputs)
    requires ValidInputs(inputs) && CommittedAtOrBelowList(inputs)
    ensures Compute(inputs).Success?
    ensures var r := Compute(inputs).value;
            0.0 <= r.billedCost.amount <= r.effectiveCost.amount <= r.listCost.amount
  {
    var price, covered := inputs.listUnitPrice, Covered(inputs);
    MeasuresOf(inputs);
    RetainedIsAFraction(inputs.discounts);
    ProductBounds(price, Retained(inputs.discounts), 1.0);
    TimesOne(price);
    ProductBounds(inputs.quantity - covered, Times(price, Retained(inputs.discounts)), price);
    if inputs.commitment.Some? {
      ProductBounds(covered, inputs.commitment.value.committedUnitPrice, price);
    } else {
      ProductBounds(covered, 0.0, price);
    }
    ListCostSplits(price, inputs.quantity, covered);
  }

  /** The bill is the whole cost exactly when nothing that costs anything was prepaid. */
  lemma {:induction false} BilledIsEffectiveIff(inputs: PricingInputs)
    requires ValidInputs(inputs)
    ensures Compute(inputs).Success?
    ensures Compute(inputs).value.billedCost == Compute(inputs).value.effectiveCost
            <==> !Prepaid(inputs) || CoveredCost(inputs) == 0.0
    ensures Compute(inputs).value.billedCost.amount <= Compute(inputs).value.effectiveCost.amount
            <==> !Prepaid(inputs) || CoveredCost(inputs) >= 0.0
  {
    MeasuresOf(inputs);
  }

  /** One more discount never makes a line dearer. */
  lemma {:induction false} AnotherDiscountNeverCostsMore(inputs: PricingInputs, d: Discount)
    requires ValidInputs(inputs) && InRange(d.rate)
    ensures Compute(inputs).Success?
    ensures var more := inputs.(discounts := inputs.discounts + [d]);
            && Compute(more).Success?
            && Compute(more).value.listCost == Compute(inputs).value.listCost
            && Compute(more).value.billedCost.amount <= Compute(inputs).value.billedCost.amount
            && Compute(more).value.effectiveCost.amount <= Compute(inputs).value.effectiveCost.amount
  {
    var more := inputs.(discounts := inputs.discounts + [d]);
    assert more.discounts[..|inputs.discounts|] == inputs.discounts;
    ComputesExactlyValidInputs(inputs);
    ComputesExactlyValidInputs(more);
    MeasuresOf(inputs);
    MeasuresOf(more);
    RetainedIsAFraction(inputs.discounts);
    var kept, price := Retained(inputs.discounts), inputs.listUnitPrice;
    ProductBounds(kept, 1.0 - d.rate, 1.0);
    TimesOne(kept);
    ProductBounds(price, Times(kept, 1.0 - d.rate), kept);
    ProductBounds(inputs.quantity - Covered(inputs), Times(price, Times(kept, 1.0 - d.rate)), Times(price, kept));
  }

  // ---------------------------------------------------------------------------
  // What a line costs, in plain arithmetic
  // ---------------------------------------------------------------------------

  /** The product of one minus each rate. */
  function Kept(discounts: seq<Discount>): real {
    if discounts == [] then 1.0 else (1.0 - discounts[0].rate) * Kept(discounts[1..])
  }

  lemma ProductsAssociate(x: real, y: real, z: real)
    ensures Times(x * y, z) == x * Times(y, z)
  {
  }

  lemma {:induction false} RetainedIsKept(discounts: seq<Discount>)
    ensures Retained(discounts) == Kept(discounts)
  {
    if discounts != [] {
      var n := |discounts| - 1;
      RetainedIsKept(discounts[..n]);
      KeptLast(discounts);
    }
  }

  lemma {:induction false} KeptLast(discounts: seq<Discount>)
    requires discounts != []
    ensures Kept(discounts) == Times(Kept(discounts[..|discounts| - 1]), 1.0 - discounts[|discounts| - 1].rate)
  {
    var n := |discounts| - 1;
    if n > 0 {
      var rest, last := discounts[1..], 1.0 - discounts[n].rate;
      KeptLast(rest);
      assert rest[..n - 1] == discounts[..n][1..] && rest[n - 1] == discounts[n];
      ProductsAssociate(1.0 - discounts[0].rate, Kept(rest[..n - 1]), last);
    } else {
      assert discounts[1..] == [] && discounts[..0] == [];
    }
  }

  /** What `quantity` costs at the list price less every discount. */
  function Discounted(inputs: PricingInputs, quantity: real): real {
    quantity * (inputs.listUnitPrice * Kept(inputs.discounts))
  }

  lemma {:induction false} OnDemandIsDiscounted(inputs: PricingInputs, covered: real)
    requires covered == Covered(inputs)
    ensures OnDemandCost(inputs) == Discounted(inputs, inputs.quantity - covered)
  {
    RetainedIsKept(inputs.discounts);
  }

  /** With a price paid for a part of the quantity, and another for the rest. */
  lemma {:induction false} CostOfParts(inputs: PricingInputs, covered: real)
    requires ValidInputs(inputs) && covered == Covered(inputs)
    ensures Compute(inputs).Success?
    ensures var r, onDemand := Compute(inputs).value, Discounted(inputs, inputs.quantity - covered);
            && r.listCost == Money(Times(inputs.listUnitPrice, inputs.quantity), inputs.currency)
            && r.effectiveCost == Money(onDemand + CoveredCost(inputs), inputs.currency)
            && r.billedCost == if Prepaid(inputs) then Money(onDemand, inputs.currency) else r.effectiveCost
  {
    MeasuresOf(inputs);
    OnDemandIsDiscounted(inputs, covered);
  }

  lemma TimesIs(x: real, y: real)
    ensures Times(x, y) == x * y
  {
  }

  /** Without a commitment: list price, discounted by each rate in turn, for the whole quantity. */
  lemma {:induction false} CostWithoutCommitment(inputs: PricingInputs)
    requires ValidInputs(inputs) && inputs.commitment == None
    ensures Compute(inputs).Success?
    ensures var r := Compute(inputs).value;
            && r.listCost == Money(inputs.listUnitPrice * inputs.quantity, inputs.currency)
            && r.billedCost == r.effectiveCost == Money(Discounted(inputs, inputs.quantity), inputs.currency)
  {
    CostOfParts(inputs, 0.0);
    TimesIs(inputs.listUnitPrice, inputs.quantity);
  }

  /** With neither discount nor commitment the three measures are one. */
  lemma {:induction false} PlainCost(inputs: PricingInputs)
    requires ValidInputs(inputs) && inputs.commitment == None && inputs.discounts == []
    ensures var cost := Money(inputs.listUnitPrice * inputs.quantity, inputs.currency);
            Compute(inputs) == Success(CostAmounts(cost, cost, cost))
  {
    var cost := Money(inputs.listUnitPrice * inputs.quantity, inputs.currency);
    CostWithoutCommitment(inputs);
    NothingDiscountedFrom(inputs, inputs.quantity);
    assert Compute(inputs).value.effectiveCost == cost;
  }

  lemma {:induction false} NothingDiscountedFrom(inputs: PricingInputs, quantity: real)
    requires inputs.discounts == []
    ensures Discounted(inputs, quantity) == inputs.listUnitPrice * quantity
  {
    var kept := Kept(inputs.discounts);
    assert kept == 1.0;
    NothingTakenOff(quantity, inputs.listUnitPrice, kept);
  }

  lemma NothingTakenOff(quantity: real, price: real, kept: real)
    requires kept == 1.0
    ensures quantity * (price * kept) == price * quantity
  {
  }

  /** A commitment within the quantity: its units at the committed price, the rest at the discounted one. */
  lemma {:induction false} CostWithCommitment(inputs: PricingInputs, c: CommitmentCoverage)
    requires ValidInputs(inputs) && inputs.commitment == Some(c) && c.coveredQuantity <= inputs.quantity
    ensures Compute(inputs).Success?
    ensures var r, k := Compute(inputs).value, c.coveredQuantity;
            var onDemand := Discounted(inputs, inputs.quantity - k);
            && r.listCost == Money(inputs.listUnitPrice * inputs.quantity, inputs.currency)
            && r.effectiveCost == Money(onDemand + k * c.committedUnitPrice, inputs.currency)
            && r.billedCost == if c.prepaid then Money(onDemand, inputs.currency) else r.effectiveCost
  {
    CostOfParts(inputs, c.coveredQuantity);
    TimesIs(inputs.listUnitPrice, inputs.quantity);
    TimesIs(c.coveredQuantity, c.committedUnitPrice);
  }

  lemma {:induction false} NothingDiscounted(inputs: PricingInputs)
    ensures Discounted(inputs, 0.0) == 0.0
  {
  }

  /** A commitment beyond it covers the whole quantity; what was prepaid is not billed. */
  lemma {:induction false} CostWithFullCommitment(inputs: PricingInputs, c: CommitmentCoverage)
    requires ValidInputs(inputs) && inputs.commitment == Some(c) && c.coveredQuantity >= inputs.quantity
    ensures Compute(inputs).Success?
    ensures var r := Compute(inputs).value;
            && r.listCost == Money(inputs.listUnitPrice * inputs.quantity, inputs.currency)
            && r.effectiveCost == Money(inputs.quantity * c.committedUnitPrice, inputs.currency)
            && r.billedCost == if c.prepaid then Money(0.0, inputs.currency) else r.effectiveCost
  {
    CostOfParts(inputs, inputs.quantity);
    NothingDiscounted(inputs);
    TimesIs(inputs.listUnitPrice, inputs.quantity);
    TimesIs(inputs.quantity, c.committedUnitPrice);
  }

  /** What is refused, and over which of several faults. */
  lemma {:induction false} PricingIsRefused(inputs: PricingInputs)
    ensures inputs.quantity < 0.0 ==> Compute(inputs) == Failure(NegativeQuantity(inputs.quantity))
    ensures inputs.quantity >= 0.0 && inputs.listUnitPrice < 0.0 ==>
              Compute(inputs) == Failure(NegativeUnitPrice(inputs.listUnitPrice))
    ensures inputs.quantity >= 0.0 && inputs.listUnitPrice >= 0.0
            && (forall i :: 0 <= i < |inputs.discounts| ==> 0.0 <= inputs.discounts[i].rate <= 1.0)
            && inputs.commitment.Some? && inputs.commitment.value.coveredQuantity < 0.0 ==>
              Compute(inputs) == Failure(NegativeCoverage(inputs.commitment.value.coveredQuantity))
  {
  }

  /** Of the rates below zero or above one the first is named. */
  lemma {:induction false} FirstBadRateIsNamed(inputs: PricingInputs, i: nat)
    requires inputs.quantity >= 0.0 && inputs.listUnitPrice >= 0.0 && i < |inputs.discounts|
    requires inputs.discounts[i].rate < 0.0 || inputs.discounts[i].rate > 1.0
    requires forall j :: 0 <= j < i ==> 0.0 <= inputs.discounts[j].rate <= 1.0
    ensures Compute(inputs) == Failure(DiscountRateOutOfRange(inputs.discounts[i].rate))
  {
    FirstOutOfRangeAt(inputs.discounts, i);
  }

  lemma {:induction false} FirstOutOfRangeAt(discounts: seq<Discount>, i: nat)
    requires i < |discounts| && !InRange(discounts[i].rate)
    requires forall j :: 0 <= j < i ==> InRange(discounts[j].rate)
    ensures FirstOutOfRange(discounts) == Some(discounts[i].rate)
  {
    if i < |discounts| - 1 {
      FirstOutOfRangeAt(discounts[..|discounts| - 1], i);
    }
  }
}
