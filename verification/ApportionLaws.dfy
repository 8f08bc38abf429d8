/** What apportionment promises, and where the two allocators agree. */
module ApportionLaws {
  import opened Wrappers
  import opened Sums
  import opened CoreMoney
  import opened Decimals
  import opened LargestRemainder
  import opened Allocation
  import opened AllocationLaws
  import opened Pricing

  // ---------------------------------------------------------------------------
  // Conservation, for every sign and every precision
  // ---------------------------------------------------------------------------

  function Values(shares: seq<Money>): seq<real> {
    seq(|shares|, i requires 0 <= i < |shares| => shares[i].amount)
  }

  lemma {:induction false} AddedAtSum(parts: seq<real>, i: nat, x: real)
    requires i < |parts|
    ensures Sum(AddedAt(parts, i, x)) == Sum(parts) + x
  {
    SumUpdate(parts, i, parts[i] + x);
  }

  lemma UnitsSum(x: real, y: real, z: real, unit: real)
    requires x + y == z
    ensures InUnits(x, unit) + InUnits(y, unit) == InUnits(z, unit)
  {
    UnitsAdd(x, y, unit);
  }

  lemma {:induction false} FinishedSum(ds: seq<int>, rs: seq<real>, left: real, unit: real, u: real)
    requires |ds| == |rs| && rs != [] && unit > 0.0 && left < |rs| as real && SumInt(ds) as real + left == u
    ensures Sum(Finished(ds, rs, left, unit)) == InUnits(u, unit)
  {
    var k := TopUps(left);
    var topped, residue := Topped(ds, rs, k, 1), left - k as real;
    HandedSum(ds, rs, k);
    AmountsSum(topped, unit);
    AddedAtSum(Amounts(topped, unit), Order(rs)[0], InUnits(residue, unit));
    UnitsSum(SumInt(topped) as real, residue, u, unit);
  }

  lemma {:induction false} ApportionedUnitsSum(u: real, ws: seq<real>, unit: real)
    requires ValidWeights(ws) && unit > 0.0
    ensures Sum(ApportionedUnits(u, ws, unit)) == InUnits(u, unit)
  {
    LeftBelowCount(u, ws);
    FinishedSum(Truncated(Shares(u, ws)), SignedCuts(Shares(u, ws)), LeftOf(u, ws), unit, u);
  }

  /** The shares sum to the total exactly, in its currency: a total of any sign and any precision. */
  lemma {:induction false} ApportionConserves(total: Money, ws: seq<real>, dp: nat)
    ensures Apportioned(total, ws, dp).Success? <==> ValidWeights(ws)
    ensures ValidWeights(ws) ==>
              var shares := Apportioned(total, ws, dp).value;
              && |shares| == |ws|
              && (forall i :: 0 <= i < |shares| ==> shares[i].currency == total.currency)
              && Sum(Values(shares)) == total.amount
  {
    if ValidWeights(ws) {
      var unit := Unit(dp);
      var u := total.amount / unit;
      UnitsBack(total.amount, unit);
      ApportionedUnitsSum(u, ws, unit);
      ValuesBack(ApportionedUnits(u, ws, unit), total.currency);
    }
  }

  lemma ValuesBack(parts: seq<real>, c: Currency)
    ensures Values(InCurrency(parts, c)) == parts
  {
  }

  // ---------------------------------------------------------------------------
  // Agreement of the two allocators
  // ---------------------------------------------------------------------------

  lemma FinishedWhole(fs: seq<int>, rs: seq<real>, k: nat, unit: real)
    requires |fs| == |rs| && rs != [] && unit > 0.0
    ensures Finished(fs, rs, k as real, unit) == Amounts(Handed(fs, rs, k), unit)
  {
    assert TopUps(k as real) == k;
    UnitsSign(k as real - k as real, unit);
    var parts, first := Amounts(Handed(fs, rs, k), unit), Order(rs)[0];
    assert parts[first := parts[first] + 0.0] == parts;
  }

  lemma WholeShares(units: nat, ws: seq<real>, u: real)
    requires ValidWeights(ws) && u == units as real
    ensures var es := Shares(u, ws);
            && Truncated(es) == Floors(es)
            && SignedCuts(es) == Remainders(es)
            && LeftOf(u, ws) == (units - SumInt(Floors(es))) as real
            && units - SumInt(Floors(es)) >= 0
  {
    TruncatedShares(u, ws);
    SharesNonNegative(u, ws);
    SplitCount(units, ws);
  }

  /** What is apportioned of a whole-unit total, and what its split is. */
  lemma {:induction false} WholeParts(units: nat, ws: seq<real>, unit: real, u: real)
    returns (fs: seq<int>, rs: seq<real>, k: nat)
    requires ValidWeights(ws) && unit > 0.0 && u == units as real
    ensures |fs| == |rs| && rs != []
    ensures ApportionedUnits(u, ws, unit) == Finished(fs, rs, k as real, unit)
    ensures Split(units, ws) == Handed(fs, rs, k)
  {
    WholeShares(units, ws, u);
    var es := Shares(u, ws);
    fs, rs, k := Floors(es), Remainders(es), units - SumInt(Floors(es));
  }

  /** A whole-unit total that is not negative is apportioned by the reference split. */
  lemma {:induction false} ApportionedWhole(units: nat, ws: seq<real>, unit: real, u: real)
    requires ValidWeights(ws) && unit > 0.0 && u == units as real
    ensures ApportionedUnits(u, ws, unit) == Amounts(Split(units, ws), unit)
  {
    var fs, rs, k := WholeParts(units, ws, unit, u);
    FinishedWhole(fs, rs, k, unit);
  }

  // ---------------------------------------------------------------------------
  // Negative totals
  // ---------------------------------------------------------------------------

  /** Every share loses the same to truncation, and together they lose at most one unit. */
  predicate EvenlyCut(es: seq<real>) {
    (forall i :: 0 <= i < |es| ==> Remainders(es)[i] == Remainders(es)[0]) && Sum(Remainders(es)) <= 1.0
  }

  function Opposite(rs: seq<real>): seq<real> {
    seq(|rs|, i requires 0 <= i < |rs| => -rs[i])
  }

  /** Most cut and least cut are the same share only when all are cut alike. */
  lemma FirstBothWaysIffEqual(rs: seq<real>)
    requires rs != []
    ensures Order(rs)[0] == Order(Opposite(rs))[0] <==> forall i :: 0 <= i < |rs| ==> rs[i] == rs[0]
  {
    var most, least := Order(rs)[0], Order(Opposite(rs))[0];
    RankOfOrder(rs, 0);
    RankOfOrder(Opposite(rs), 0);
    if forall i :: 0 <= i < |rs| ==> rs[i] == rs[0] {
      EqualRemaindersRankByIndex(rs, 0);
      EqualRemaindersRankByIndex(Opposite(rs), 0);
      RankOrders(rs, 0, most);
      RankOrders(Opposite(rs), 0, least);
    } else if most == least {
      forall i | 0 <= i < |rs| ensures rs[i] == rs[most] {
        RankOrders(rs, i, most);
        RankOrders(Opposite(rs), i, most);
      }
    }
  }

  /** A negative total's shares, all its leftover on the share that was cut least. */
  function AllOnOne(fs: seq<int>, rs: seq<real>, k: int): seq<int>
    requires |fs| == |rs| && rs != []
  {
    var least := Order(Opposite(rs))[0];
    Negated(fs[least := fs[least] + k])
  }

  lemma AmountsAddedAt(us: seq<int>, i: nat, x: int, unit: real)
    requires i < |us|
    ensures AddedAt(Amounts(us, unit), i, InUnits(x as real, unit)) == Amounts(us[i := us[i] + x], unit)
  {
    UnitsAdd(us[i] as real, x as real, unit);
    var added := us[i := us[i] + x];
    forall j | 0 <= j < |us|
      ensures AddedAt(Amounts(us, unit), i, InUnits(x as real, unit))[j] == Amounts(added, unit)[j]
    {
      assert added[j] as real == if j == i then us[i] as real + x as real else us[j] as real;
    }
  }

  lemma NegatedAddedAt(fs: seq<int>, i: nat, k: int)
    requires i < |fs|
    ensures var ds := Negated(fs); ds[i := ds[i] - k] == Negated(fs[i := fs[i] + k])
  {
  }

  /** A negative leftover goes on one share, none being topped up in turn. */
  lemma FinishedNegative(fs: seq<int>, rs: seq<real>, k: nat, unit: real)
    requires |fs| == |rs| && rs != [] && unit > 0.0
    ensures Finished(Negated(fs), Opposite(rs), -(k as real), unit) == Amounts(AllOnOne(fs, rs, k), unit)
  {
    var least, minus: int := Order(Opposite(rs))[0], -(k as int);
    assert minus as real == -(k as real);
    ToppedNone(Negated(fs), Opposite(rs), 1);
    AmountsAddedAt(Negated(fs), least, minus, unit);
    NegatedAddedAt(fs, least, k);
  }

  lemma SignedCutsOfNegative(units: nat, ws: seq<real>)
    requires ValidWeights(ws) && units > 0
    ensures SignedCuts(Shares(-(units as real), ws)) == Opposite(Remainders(Shares(units as real, ws)))
  {
    var u := -(units as real);
    SharesNonNegative(units as real, ws);
    forall i: nat | i < |ws|
      ensures SignedCuts(Shares(u, ws))[i] == Opposite(Remainders(Shares(units as real, ws)))[i]
    {
      ShareOfOpposite(u, ws, i);
    }
  }

  lemma AmountsInjective(us: seq<int>, vs: seq<int>, unit: real)
    requires unit > 0.0 && |us| == |vs|
    ensures Amounts(us, unit) == Amounts(vs, unit) <==> us == vs
  {
    if Amounts(us, unit) == Amounts(vs, unit) {
      forall i | 0 <= i < |us| ensures us[i] == vs[i] {
        assert Amounts(us, unit)[i] == Amounts(vs, unit)[i];
        UnitsOrder(us[i] as real, vs[i] as real, unit);
      }
    }
  }

  /** One in turn, or all on one: the same only for nothing, or for one unit on the same share. */
  lemma AllOnOneIsHanded(fs: seq<int>, rs: seq<real>, k: nat)
    requires |fs| == |rs| && rs != []
    ensures AllOnOne(fs, rs, k) == Negated(Handed(fs, rs, k))
            <==> k == 0 || (k == 1 && Order(rs)[0] == Order(Opposite(rs))[0])
  {
    var most, least := Order(rs)[0], Order(Opposite(rs))[0];
    var a, b := AllOnOne(fs, rs, k), Negated(Handed(fs, rs, k));
    RankOfOrder(rs, 0);
    forall i | 0 <= i < |rs| ensures Rank(rs, i) == 0 <==> i == most {
      RankOrders(rs, i, most);
    }
    if a == b {
      assert a[least] == b[least] && a[most] == b[most];
    } else {
      assert exists i :: 0 <= i < |rs| && a[i] != b[i];
    }
  }

  lemma EvenlyCutMeans(units: nat, ws: seq<real>)
    requires ValidWeights(ws)
    ensures var es := Shares(units as real, ws);
            var rs, k := Remainders(es), units - SumInt(Floors(es));
            && k >= 0
            && (EvenlyCut(es) <==> k == 0 || (k == 1 && forall i :: 0 <= i < |rs| ==> rs[i] == rs[0]))
  {
    var es := Shares(units as real, ws);
    var k := units - SumInt(Floors(es));
    SplitCount(units, ws);
    FloorsAndRemaindersSum(es);
    assert Sum(Remainders(es)) == k as real;
    if k == 0 {
      LeftoverIsSmall(es);
      forall i: nat | i < |es| ensures Remainders(es)[i] == 0.0 {
        assert i !in Positive(Remainders(es));
      }
    }
  }

  lemma NegativeFinish(fs: seq<int>, rs: seq<real>, k: nat, unit: real)
    requires |fs| == |rs| && rs != [] && unit > 0.0
    ensures Finished(Negated(fs), Opposite(rs), -(k as real), unit) == Amounts(Negated(Handed(fs, rs, k)), unit)
            <==> k == 0 || (k == 1 && forall i :: 0 <= i < |rs| ==> rs[i] == rs[0])
  {
    FinishedNegative(fs, rs, k, unit);
    AmountsInjective(AllOnOne(fs, rs, k), Negated(Handed(fs, rs, k)), unit);
    AllOnOneIsHanded(fs, rs, k);
    FirstBothWaysIffEqual(rs);
  }

  /** The signed shares of a negative total mirror those of its size. */
  lemma {:induction false} NegativeShares(units: nat, ws: seq<real>, u: real)
    requires ValidWeights(ws) && units > 0 && u == -(units as real)
    ensures var es, size := Shares(u, ws), Shares(units as real, ws);
            && Truncated(es) == Negated(Floors(size))
            && SignedCuts(es) == Opposite(Remainders(size))
            && LeftOf(u, ws) == -((units - SumInt(Floors(size))) as real)
            && units - SumInt(Floors(size)) >= 0
  {
    var minus: int := -(units as int);
    assert minus as real == u && Abs(u) == units as real;
    TruncatedShares(u, ws);
    LeftOfWhole(minus, ws);
    SignedCutsOfNegative(units, ws);
  }

  /** A negative whole-unit total from the shares of its size: what is apportioned, and what the split is. */
  lemma {:induction false} NegativeParts(units: nat, ws: seq<real>, unit: real, u: real)
    returns (fs: seq<int>, rs: seq<real>, k: nat)
    requires ValidWeights(ws) && unit > 0.0 && units > 0 && u == -(units as real)
    ensures |fs| == |rs| && rs != []
    ensures ApportionedUnits(u, ws, unit) == Finished(Negated(fs), Opposite(rs), -(k as real), unit)
    ensures Split(units, ws) == Handed(fs, rs, k)
    ensures rs == Remainders(Shares(units as real, ws)) && k == units - SumInt(Floors(Shares(units as real, ws)))
  {
    var size := Shares(units as real, ws);
    NegativeShares(units, ws, u);
    fs, rs, k := Floors(size), Remainders(size), units - SumInt(Floors(size));
  }

  lemma {:induction false} NegativeAgreement(units: nat, ws: seq<real>, unit: real, u: real)
    requires ValidWeights(ws) && unit > 0.0 && units > 0 && u == -(units as real)
    ensures ApportionedUnits(u, ws, unit) == Amounts(Negated(Split(units, ws)), unit)
            <==> EvenlyCut(Shares(units as real, ws))
  {
    var fs, rs, k := NegativeParts(units, ws, unit, u);
    EvenlyCutMeans(units, ws);
    NegativeFinish(fs, rs, k, unit);
  }

  // ---------------------------------------------------------------------------
  // Exactly where the two allocators agree
  // ---------------------------------------------------------------------------

  /** Both rules succeed, with the same parts. */
  predicate Agree(total: Money, ws: seq<real>, dp: nat) {
    && Allocated(total.amount, ws, dp).Success?
    && Apportioned(total, ws, dp) == Success(InCurrency(Allocated(total.amount, ws, dp).value, total.currency))
  }

  lemma {:induction false} AgreeInUnits(total: Money, ws: seq<real>, dp: nat, u: real)
    requires ValidWeights(ws) && dp <= 28 && u == total.amount / Unit(dp) && u.Floor as real == u
    ensures Agree(total, ws, dp)
            <==> ApportionedUnits(u, ws, Unit(dp)) == Amounts(SignedSplit(u.Floor, ws), Unit(dp))
  {
    AllocatesExactlyWholeUnits(total.amount, ws, dp);
    ValuesBack(ApportionedUnits(u, ws, Unit(dp)), total.currency);
    ValuesBack(Amounts(SignedSplit(u.Floor, ws), Unit(dp)), total.currency);
  }

  lemma {:induction false} UnitsAgreeExactly(u: real, ws: seq<real>, unit: real)
    requires ValidWeights(ws) && unit > 0.0 && u.Floor as real == u
    ensures ApportionedUnits(u, ws, unit) == Amounts(SignedSplit(u.Floor, ws), unit)
            <==> u >= 0.0 || EvenlyCut(Shares(-u, ws))
  {
    if u >= 0.0 {
      ApportionedWhole(u.Floor, ws, unit, u);
    } else {
      var n: nat := -u.Floor;
      assert n as real == -u;
      NegativeAgreement(n, ws, unit, u);
    }
  }

  lemma {:induction false} AgreeOnlyOnWhole(total: Money, ws: seq<real>, dp: nat)
    ensures Agree(total, ws, dp) ==> Whole(total.amount, Unit(dp))
  {
    AllocatesExactlyWholeUnits(total.amount, ws, dp);
  }

  lemma {:induction false} UnitsOfTotal(amount: real, unit: real)
    requires unit > 0.0
    ensures amount / unit >= 0.0 <==> amount >= 0.0
  {
    UnitsBack(amount, unit);
    UnitsSign(amount / unit, unit);
  }

  lemma {:induction false} WholeAgreeExactly(total: Money, ws: seq<real>, dp: nat, u: real)
    requires ValidWeights(ws) && dp <= 28 && u == total.amount / Unit(dp) && u.Floor as real == u
    ensures Agree(total, ws, dp) <==> u >= 0.0 || EvenlyCut(Shares(-u, ws))
  {
    AgreeInUnits(total, ws, dp, u);
    UnitsAgreeExactly(u, ws, Unit(dp));
  }

  /**
   The two rules agree exactly on whole-unit totals that are not negative, or whose shares are all
   cut alike by at most one unit in all. Elsewhere `allocate` errors on a finer total, and
   `apportion` leaves the whole leftover of a negative one on a single share.
   */
  lemma {:induction false} AgreeExactly(total: Money, ws: seq<real>, dp: nat)
    requires ValidWeights(ws) && dp <= 28
    ensures Agree(total, ws, dp)
            <==> && Whole(total.amount, Unit(dp))
                 && (total.amount >= 0.0 || EvenlyCut(Shares(-(total.amount / Unit(dp)), ws)))
  {
    AgreeOnlyOnWhole(total, ws, dp);
    UnitsOfTotal(total.amount, Unit(dp));
    if Whole(total.amount, Unit(dp)) {
      var u := total.amount / Unit(dp);
      WholeAgreeExactly(total, ws, dp, u);
    }
  }

  /** Ten units charged back over six equal weights: each rule conserves, and they differ. */
  lemma {:induction false} AllocatorsCanDisagree()
    ensures ValidWeights(Ones(6)) && !Agree(Money(-10.0, Usd), Ones(6), 0)
  {
    OnesSum(6);
    assert Unit(0) == 1.0;
    AgreeExactly(Money(-10.0, Usd), Ones(6), 0);
    EvenlyCutMeans(10, Ones(6));
    EvenFloors(10, 6);
    SumOfEqual(Floors(Shares(10.0, Ones(6))), 1);
  }
}
