/** The corpus's reference allocation rule: three loops, one sort, and an escape for sub-unit totals. */
module Allocation {
  import opened Wrappers
  import opened Sums
  import opened Decimals
  import opened LargestRemainder

  datatype AllocationError =
    | NoWeights
    | NegativeWeight(weight: real)
    | ZeroWeight
    | Overflow
    | ScaleTooLarge(scale: nat)

  function FirstNegative(ws: seq<real>): (w: Option<real>)
    ensures w == None <==> NonNegative(ws)
  {
    if ws == [] then None
    else
      var front := FirstNegative(ws[..|ws| - 1]);
      if front.Some? then front
      else if ws[|ws| - 1] < 0.0 then Some(ws[|ws| - 1])
      else None
  }

  lemma {:induction false} SumNonNegative(ws: seq<real>)
    requires NonNegative(ws)
    ensures Sum(ws) >= 0.0
  {
    if ws != [] {
      SumNonNegative(ws[..|ws| - 1]);
    }
  }

  function Negated(us: seq<int>): seq<int> {
    seq(|us|, i requires 0 <= i < |us| => -us[i])
  }

  /** The reference split in the direction of the total's sign. */
  function SignedSplit(units: int, ws: seq<real>): seq<int>
    requires Sum(ws) > 0.0
  {
    if units < 0 then Negated(Split(-units, ws)) else Split(units, ws)
  }

  /**
   What `allocate` returns: the reference split in the total's sign, or the error. A total with more
   precision than `scale` always ends in `Overflow`.
   */
  function Allocated(total: real, ws: seq<real>, scale: nat): Result<seq<real>, AllocationError> {
    if ws == [] then Failure(NoWeights)
    else if scale > 28 then Failure(ScaleTooLarge(scale))
    else if FirstNegative(ws).Some? then Failure(NegativeWeight(FirstNegative(ws).value))
    else
      SumNonNegative(ws);
      if Sum(ws) == 0.0 then Failure(ZeroWeight)
      else if !Whole(total, Unit(scale)) then Failure(Overflow)
      else Success(Amounts(SignedSplit((total / Unit(scale)).Floor, ws), Unit(scale)))
  }

  // ---------------------------------------------------------------------------
  // The first two loops
  // ---------------------------------------------------------------------------

  /** The exact shares truncated toward zero. */
  function Truncated(es: seq<real>): seq<int> {
    seq(|es|, i requires 0 <= i < |es| => ToZero(es[i]))
  }

  /** The size of what was cut from each. */
  function CutSizes(es: seq<real>): seq<real> {
    seq(|es|, i requires 0 <= i < |es| => Abs(es[i] - ToZero(es[i]) as real))
  }

  /** What is left over of the signed units. */
  function LeftOf(u: real, ws: seq<real>): real
    requires Sum(ws) > 0.0
  {
    u - SumInt(Truncated(Shares(u, ws))) as real
  }

  function Scaled(rs: seq<real>, unit: real): seq<real> {
    seq(|rs|, i requires 0 <= i < |rs| => InUnits(rs[i], unit))
  }

  lemma {:induction false} PrefixDecides(ws: seq<real>, i: nat)
    requires i <= |ws| && FirstNegative(ws[..i]).Some?
    ensures FirstNegative(ws) == FirstNegative(ws[..i])
  {
    if i < |ws| {
      assert ws[..|ws| - 1][..i] == ws[..i];
      PrefixDecides(ws[..|ws| - 1], i);
    } else {
      assert ws[..i] == ws;
    }
  }

  /** First loop: check the weights and total them. */
  method TotalWeights(ws: seq<real>) returns (r: Result<real, AllocationError>)
    ensures r == if FirstNegative(ws).Some? then Failure(NegativeWeight(FirstNegative(ws).value)) else Success(Sum(ws))
  {
    var weightTotal := 0.0;
    for i := 0 to |ws|
      invariant weightTotal == Sum(ws[..i]) && FirstNegative(ws[..i]) == None
    {
      assert ws[..i + 1][..i] == ws[..i];
      if ws[i] < 0.0 {
        PrefixDecides(ws, i + 1);
        return Failure(NegativeWeight(ws[i]));
      }
      weightTotal := weightTotal + ws[i];
    }
    assert ws[..|ws|] == ws;
    r := Success(weightTotal);
  }

  /** One share: its truncated amount, and what was cut from it. */
  lemma CutOf(exact: real, e: real, unit: real)
    requires unit > 0.0 && exact == InUnits(e, unit)
    ensures RoundToZero(exact, unit) == InUnits(ToZero(e) as real, unit)
    ensures exact - RoundToZero(exact, unit) == InUnits(e - ToZero(e) as real, unit)
    ensures Abs(exact - RoundToZero(exact, unit)) == InUnits(Abs(e - ToZero(e) as real), unit)
  {
    RoundInUnits(exact, e, unit);
    UnitsAdd(e, ToZero(e) as real, unit);
    UnitsSign(e - ToZero(e) as real, unit);
  }

  /** An exact share of an amount, seen in units. */
  lemma ShareInUnits(total: real, u: real, w: real, weights: real, unit: real)
    requires weights > 0.0 && total == InUnits(u, unit)
    ensures Share(total, w, weights) == InUnits(Share(u, w, weights), unit)
  {
    var e := Share(u, w, weights);
    assert total * w == (u * w) * unit == (e * weights) * unit == (e * unit) * weights;
    DivideIs(total * w, weights, e * unit);
  }

  lemma ShareAt(es: seq<real>, unit: real, i: nat, exact: real)
    requires unit > 0.0 && i < |es| && exact == InUnits(es[i], unit)
    ensures RoundToZero(exact, unit) == Amounts(Truncated(es), unit)[i]
    ensures Cut(i, Abs(exact - RoundToZero(exact, unit))) == Cuts(Scaled(CutSizes(es), unit))[i]
  {
    CutOf(exact, es[i], unit);
  }

  lemma LeftoverInUnits(total: real, u: real, ws: seq<real>, unit: real)
    requires Sum(ws) > 0.0 && unit > 0.0 && total == InUnits(u, unit)
    ensures total - Sum(Amounts(Truncated(Shares(u, ws)), unit)) == InUnits(LeftOf(u, ws), unit)
  {
    var ds := Truncated(Shares(u, ws));
    AmountsSum(ds, unit);
    UnitsAdd(u, SumInt(ds) as real, unit);
  }

  /** Second loop: truncate every share, note what was cut from it, and what is left over. */
  method TruncateShares(total: real, ws: seq<real>, unit: real, ghost u: real)
    returns (parts: seq<real>, cuts: seq<Cut>, leftover: real)
    requires Sum(ws) > 0.0 && unit > 0.0 && total == InUnits(u, unit)
    ensures parts == Amounts(Truncated(Shares(u, ws)), unit)
    ensures cuts == Cuts(Scaled(CutSizes(Shares(u, ws)), unit))
    ensures leftover == InUnits(LeftOf(u, ws), unit)
  {
    ghost var es := Shares(u, ws);
    ghost var downs, sizes := Amounts(Truncated(es), unit), Cuts(Scaled(CutSizes(es), unit));
    var weightTotal := Sum(ws);
    var distributed := 0.0;
    parts, cuts := [], [];
    for i := 0 to |ws|
      invariant parts == downs[..i] && cuts == sizes[..i] && distributed == Sum(parts)
    {
      var exact := Share(total, ws[i], weightTotal);
      var truncated := RoundToZero(exact, unit);
      ShareInUnits(total, u, ws[i], weightTotal, unit);
      ShareAt(es, unit, i, exact);
      SumAppend(parts, truncated);
      distributed := distributed + truncated;
      cuts := cuts + [Cut(i, Abs(exact - truncated))];
      parts := parts + [truncated];
    }
    leftover := total - distributed;
    LeftoverInUnits(total, u, ws, unit);
  }

  // ---------------------------------------------------------------------------
  // The hand-out
  // ---------------------------------------------------------------------------

  lemma ScaledRank(rs: seq<real>, unit: real, j: nat)
    requires j < |rs| && unit > 0.0
    ensures Rank(Scaled(rs, unit), j) == Rank(rs, j)
  {
    forall i: nat | i < |rs| ensures Before(Scaled(rs, unit), i, j) <==> Before(rs, i, j) {
      UnitsOrder(rs[i], rs[j], unit);
      UnitsOrder(rs[j], rs[i], unit);
    }
    assert Ahead(Scaled(rs, unit), j) == Ahead(rs, j);
  }

  /** The precision does not change the order of the hand-out. */
  lemma ScaledOrder(rs: seq<real>, unit: real, k: nat)
    requires k < |rs| && unit > 0.0
    ensures Order(Scaled(rs, unit))[k] == Order(rs)[k]
  {
    var i, j := Order(Scaled(rs, unit))[k], Order(rs)[k];
    RankOfOrder(Scaled(rs, unit), k);
    RankOfOrder(rs, k);
    ScaledRank(rs, unit, i);
    RankOrders(rs, i, j);
  }

  /** One step more on one share, as amounts. */
  lemma AddStep(us: seq<int>, unit: real, t: nat, step: int)
    requires t < |us|
    ensures Amounts(us, unit)[t := Amounts(us, unit)[t] + InUnits(step as real, unit)]
            == Amounts(us[t := us[t] + step], unit)
  {
    var more := us[t := us[t] + step];
    UnitsAdd(us[t] as real, step as real, unit);
    forall i | 0 <= i < |us|
      ensures Amounts(us, unit)[t := Amounts(us, unit)[t] + InUnits(step as real, unit)][i] == Amounts(more, unit)[i]
    {
      assert more[i] as real == if i == t then us[t] as real + step as real else us[i] as real;
    }
  }

  /** One turn of the hand-out, while it is still in its first pass. */
  lemma TurnTopsUp(ds: seq<int>, rs: seq<real>, unit: real, k: nat, step: int)
    requires |ds| == |rs| && k < |rs| && unit > 0.0
    ensures var t, parts := Order(Scaled(rs, unit))[k], Amounts(Topped(ds, rs, k, step), unit);
            parts[t := parts[t] + InUnits(step as real, unit)] == Amounts(Topped(ds, rs, k + 1, step), unit)
  {
    ScaledOrder(rs, unit, k);
    HandOne(ds, rs, k, step);
    AddStep(Topped(ds, rs, k, step), unit, Order(rs)[k], step);
  }

  lemma ToppedNone(ds: seq<int>, rs: seq<real>, step: int)
    requires |ds| == |rs|
    ensures Topped(ds, rs, 0, step) == ds
  {
  }

  ghost function StagesOf(ds: seq<int>, rs: seq<real>, step: int, unit: real): seq<seq<real>>
    requires |ds| == |rs|
  {
    seq(|rs| + 1, k requires 0 <= k <= |rs| => Amounts(Topped(ds, rs, k, step), unit))
  }

  lemma StagesAreToppings(ds: seq<int>, rs: seq<real>, step: int, unit: real)
    requires |ds| == |rs| && unit > 0.0
    ensures Stages(StagesOf(ds, rs, step, unit), Order(Scaled(rs, unit)), InUnits(step as real, unit))
    ensures StagesOf(ds, rs, step, unit)[0] == Amounts(ds, unit)
  {
    ToppedNone(ds, rs, step);
    forall k | 0 <= k < |rs|
      ensures var stages, order := StagesOf(ds, rs, step, unit), Order(Scaled(rs, unit));
              stages[k + 1] == stages[k][order[k] := stages[k][order[k]] + InUnits(step as real, unit)]
    {
      TurnTopsUp(ds, rs, unit, k, step);
    }
  }

  /** The direction of the hand-out. */
  function StepOf(left: real): int {
    if left < 0.0 then -1 else 1
  }

  /** What is left over after `k` turns. */
  function AfterTurns(leftover: real, step: real, k: nat): real {
    if k == 0 then leftover else AfterTurns(leftover, step, k - 1) - step
  }

  lemma {:induction false} AfterTurnsIs(left: real, unit: real, k: nat)
    ensures AfterTurns(InUnits(left, unit), InUnits(StepOf(left) as real, unit), k)
            == InUnits(left - StepOf(left) as real * k as real, unit)
  {
    var d := StepOf(left) as real;
    if k > 0 {
      AfterTurnsIs(left, unit, k - 1);
      UnitsAdd(left - d * (k - 1) as real, d, unit);
      assert d * k as real == d * (k - 1) as real + d;
    } else {
      assert left - d * k as real == left;
    }
  }

  /** There is a turn at which nothing is left over exactly when whole units are left over. */
  lemma {:induction false} NothingLeft(left: real, unit: real, k: nat)
    requires unit > 0.0
    ensures AfterTurns(InUnits(left, unit), InUnits(StepOf(left) as real, unit), k) == 0.0 <==> k as real == Abs(left)
    ensures k as real == Abs(left) ==> left.Floor as real == left && Abs(left).Floor == k
    ensures left.Floor as real == left ==> Abs(left) == Abs(left).Floor as real
  {
    var d := StepOf(left) as real;
    AfterTurnsIs(left, unit, k);
    UnitsSign(left - d * k as real, unit);
    if left < 0.0 {
      assert d * k as real == -(k as real);
      var f, n := left.Floor, -(k as int);
      assert k as real == Abs(left) ==> left == n as real;
      assert f as real == left ==> Abs(left) == (-f) as real;
    } else {
      assert d * k as real == k as real;
    }
  }

  /** The parts after each turn of the first pass. */
  ghost predicate Stages(stages: seq<seq<real>>, order: seq<nat>, step: real) {
    && |stages| == |order| + 1
    && (forall k :: 0 <= k < |stages| ==> |stages[k]| == |order|)
    && (forall k :: 0 <= k < |order| ==> order[k] < |order|)
    && (forall k :: 0 <= k < |order| ==> stages[k + 1] == stages[k][order[k] := stages[k][order[k]] + step])
  }

  /** The turn, within `n` passes' reach, at which nothing is left over, if there is one. */
  ghost predicate EndsAt(leftover: real, step: real, n: nat, last: Option<nat>) {
    && (last.Some? ==> last.value < n)
    && (forall k: nat :: AfterTurns(leftover, step, k) == 0.0 <==> last == Some(k))
  }

  lemma FirstPass(k: nat, n: nat)
    requires n > 0
    ensures 0 <= k % n < n && (k < n ==> k % n == k)
  {
  }

  /**
   Last loop: one unit at a time in the given order, until nothing is left over. It never wraps when
   whole units are left over, and otherwise gives up after two passes.
   */
  method HandOut(
      parts0: seq<real>, order: seq<nat>, leftover0: real, step: real,
      ghost stages: seq<seq<real>>, ghost last: Option<nat>)
    returns (r: Result<seq<real>, AllocationError>)
    requires order != [] && Stages(stages, order, step) && parts0 == stages[0]
    requires EndsAt(leftover0, step, |order|, last)
    ensures r == if last.Some? then Success(stages[last.value]) else Failure(Overflow)
  {
    var parts, leftover := parts0, leftover0;
    var cursor := 0;
    while leftover != 0.0
      invariant 0 <= cursor <= 2 * |order| && |parts| == |order|
      invariant leftover == AfterTurns(leftover0, step, cursor)
      invariant cursor <= |order| ==> parts == stages[cursor]
      invariant last.Some? ==> cursor <= last.value
      decreases 2 * |order| + 1 - cursor
    {
      FirstPass(cursor, |order|);
      var index := order[cursor % |order|];
      parts := parts[index := parts[index] + step];
      leftover := leftover - step;
      cursor := cursor + 1;
      if cursor > 2 * |order| {
        return Failure(Overflow);
      }
    }
    r := Success(parts);
  }

  // ---------------------------------------------------------------------------
  // The whole rule
  // ---------------------------------------------------------------------------

  lemma {:induction false} ShareOfOpposite(u: real, ws: seq<real>, i: nat)
    requires Sum(ws) > 0.0 && i < |ws|
    ensures Shares(u, ws)[i] == -Shares(-u, ws)[i]
  {
    MultiplyThenDivide(u, ws[i], Sum(ws));
    MultiplyThenDivide(-u, ws[i], Sum(ws));
    DivideIs(-u, Sum(ws), -(u / Sum(ws)));
    assert -(u / Sum(ws)) * ws[i] == -((u / Sum(ws)) * ws[i]);
  }

  function Toward(negative: bool, us: seq<int>): seq<int> {
    if negative then Negated(us) else us
  }

  /** Truncating the signed shares is flooring their sizes, in the total's direction. */
  lemma {:induction false} TruncatedShares(u: real, ws: seq<real>)
    requires ValidWeights(ws)
    ensures var es, size := Shares(u, ws), Shares(Abs(u), ws);
            && Truncated(es) == Toward(u < 0.0, Floors(size))
            && CutSizes(es) == Remainders(size)
  {
    var es, size := Shares(u, ws), Shares(Abs(u), ws);
    SharesNonNegative(Abs(u), ws);
    forall i: nat | i < |ws|
      ensures Truncated(es)[i] == Toward(u < 0.0, Floors(size))[i] && CutSizes(es)[i] == Remainders(size)[i]
    {
      if u < 0.0 {
        ShareOfOpposite(u, ws, i);
      }
    }
  }

  lemma {:induction false} NegatedSum(us: seq<int>)
    ensures SumInt(Negated(us)) == -SumInt(us)
  {
    if us != [] {
      NegatedSum(us[..|us| - 1]);
      assert Negated(us)[..|us| - 1] == Negated(us[..|us| - 1]);
    }
  }

  /** What is left over has the total's sign, and is less than a unit for each cut share. */
  lemma {:induction false} SignedLeftover(u: real, ws: seq<real>)
    requires ValidWeights(ws)
    ensures var es, size := Shares(u, ws), Shares(Abs(u), ws);
            var left := u - SumInt(Truncated(es)) as real;
            && left == (if u < 0.0 then -Leftover(size) else Leftover(size))
            && Abs(left) == Leftover(size)
            && Abs(left) < |ws| as real
  {
    var size := Shares(Abs(u), ws);
    TruncatedShares(u, ws);
    NegatedSum(Floors(size));
    SharesSum(Abs(u), ws);
    LeftoverIsSmall(size);
  }

  lemma ToppedNegated(ds: seq<int>, rs: seq<real>, k: int)
    requires |ds| == |rs|
    ensures Topped(Negated(ds), rs, k, -1) == Negated(Handed(ds, rs, k))
  {
  }

  lemma {:induction false} LeftOfWhole(units: int, ws: seq<real>)
    requires ValidWeights(ws)
    ensures var n: nat := if units < 0 then -units else units;
            var k := n - SumInt(Floors(Shares(n as real, ws)));
            && LeftOf(units as real, ws) == (if units < 0 then -k else k) as real
            && k >= 0
  {
    var n: nat := if units < 0 then -units else units;
    assert Abs(units as real) == n as real;
    SignedLeftover(units as real, ws);
    SplitCount(n, ws);
  }

  lemma ToppedToward(fs: seq<int>, rs: seq<real>, k: nat, negative: bool, left: real)
    requires |fs| == |rs| && left == (if negative then -(k as real) else k as real)
    ensures Topped(Toward(negative, fs), rs, Abs(left).Floor, StepOf(left)) == Toward(negative, Handed(fs, rs, k))
  {
    assert Abs(left) == k as real;
    ToppedNegated(fs, rs, k);
    ToppedNone(Toward(negative, fs), rs, StepOf(left));
    ToppedNone(fs, rs, 1);
  }

  /** A whole-unit total that is not negative: what is truncated, cut, and left. */
  lemma {:induction false} PartsOfPositive(n: nat, ws: seq<real>, u: real)
    returns (fs: seq<int>, rs: seq<real>, k: nat)
    requires ValidWeights(ws) && u == n as real
    ensures |fs| == |rs| && Truncated(Shares(u, ws)) == fs && CutSizes(Shares(u, ws)) == rs
    ensures LeftOf(u, ws) == k as real && Split(n, ws) == Handed(fs, rs, k)
  {
    assert Abs(u) == u;
    TruncatedShares(u, ws);
    LeftOfWhole(n, ws);
    fs, rs, k := Floors(Shares(u, ws)), Remainders(Shares(u, ws)), n - SumInt(Floors(Shares(u, ws)));
  }

  /** And a negative one, from the shares of its size. */
  lemma {:induction false} PartsOfNegative(n: nat, ws: seq<real>, u: real)
    returns (fs: seq<int>, rs: seq<real>, k: nat)
    requires ValidWeights(ws) && n > 0 && u == -(n as real)
    ensures |fs| == |rs| && Truncated(Shares(u, ws)) == Negated(fs) && CutSizes(Shares(u, ws)) == rs
    ensures LeftOf(u, ws) == -(k as real) && Split(n, ws) == Handed(fs, rs, k)
  {
    var size, minus: int := n as real, -(n as int);
    assert Abs(u) == size && minus as real == u;
    TruncatedShares(u, ws);
    LeftOfWhole(minus, ws);
    fs, rs, k := Floors(Shares(size, ws)), Remainders(Shares(size, ws)), n - SumInt(Floors(Shares(size, ws)));
  }

  /** Topping up in the total's direction gives the reference split. */
  lemma {:induction false} ToppedIsSplit(units: int, ws: seq<real>, u: real)
    requires ValidWeights(ws) && u == units as real
    ensures var es, left := Shares(u, ws), LeftOf(u, ws);
            Topped(Truncated(es), CutSizes(es), Abs(left).Floor, StepOf(left)) == SignedSplit(units, ws)
  {
    if units < 0 {
      var fs, rs, k := PartsOfNegative(-units, ws, u);
      ToppedToward(fs, rs, k, true, LeftOf(u, ws));
    } else {
      var fs, rs, k := PartsOfPositive(units, ws, u);
      ToppedToward(fs, rs, k, false, LeftOf(u, ws));
    }
  }

  /** Whole units in, whole units left over; and then the hand-out completes the split. */
  lemma {:induction false} HandOutCompletes(u: real, ws: seq<real>)
    requires ValidWeights(ws)
    ensures var es, left := Shares(u, ws), LeftOf(u, ws);
            && Abs(left) < |ws| as real
            && (left.Floor as real == left <==> u.Floor as real == u)
            && (left == 0.0 ==> u.Floor as real == u && Truncated(es) == SignedSplit(u.Floor, ws))
            && (u.Floor as real == u
                ==> Topped(Truncated(es), CutSizes(es), Abs(left).Floor, StepOf(left)) == SignedSplit(u.Floor, ws))
  {
    var es, left := Shares(u, ws), LeftOf(u, ws);
    SignedLeftover(u, ws);
    WholeLessWhole(u, SumInt(Truncated(es)));
    if u.Floor as real == u {
      ToppedIsSplit(u.Floor, ws, u);
      ToppedNone(Truncated(es), CutSizes(es), StepOf(left));
    }
  }

  lemma WholeLessWhole(u: real, f: int)
    ensures (u - f as real).Floor == u.Floor - f
  {
  }

  ghost function LastTurn(left: real): Option<nat> {
    if left.Floor as real == left then Some(Abs(left).Floor) else None
  }

  lemma LeftoverEndsAt(left: real, unit: real, n: nat)
    requires unit > 0.0 && Abs(left) < n as real
    ensures EndsAt(InUnits(left, unit), InUnits(StepOf(left) as real, unit), n, LastTurn(left))
  {
    forall k: nat
      ensures AfterTurns(InUnits(left, unit), InUnits(StepOf(left) as real, unit), k) == 0.0
              <==> LastTurn(left) == Some(k)
    {
      NothingLeft(left, unit, k);
    }
  }

  /** The positions the sort puts the cuts in. */
  method SortedIndexes(cuts: seq<Cut>, ghost rs: seq<real>) returns (order: seq<nat>)
    requires cuts == Cuts(rs)
    ensures order == Order(rs)
  {
    var sorted := SortCuts(cuts);
    order := seq(|sorted|, k requires 0 <= k < |sorted| => sorted[k].index);
  }

  lemma StepAmount(left: real, unit: real)
    requires unit > 0.0
    ensures InUnits(StepOf(left) as real, unit) == if InUnits(left, unit) < 0.0 then -unit else unit
  {
    UnitsSign(left, unit);
  }

  /** The hand-out starts from the truncated parts and takes a step a turn, with the leftover's sign. */
  lemma CourseRuns(ds: seq<int>, rs: seq<real>, left: real, unit: real)
    requires |ds| == |rs| && unit > 0.0 && Abs(left) < |rs| as real
    ensures var step := if InUnits(left, unit) < 0.0 then -unit else unit;
            && Stages(StagesOf(ds, rs, StepOf(left), unit), Order(Scaled(rs, unit)), step)
            && StagesOf(ds, rs, StepOf(left), unit)[0] == Amounts(ds, unit)
            && EndsAt(InUnits(left, unit), step, |rs|, LastTurn(left))
  {
    StepAmount(left, unit);
    LeftoverEndsAt(left, unit, |rs|);
    StagesAreToppings(ds, rs, StepOf(left), unit);
  }

  lemma StageAt(ds: seq<int>, rs: seq<real>, step: int, unit: real, k: nat)
    requires |ds| == |rs| && k <= |rs|
    ensures StagesOf(ds, rs, step, unit)[k] == Amounts(Topped(ds, rs, k, step), unit)
  {
  }

  /** The course of the hand-out: its stages, and its last turn if whole units are left over. */
  lemma Course(u: real, ws: seq<real>, unit: real) returns (stages: seq<seq<real>>, last: Option<nat>)
    requires ValidWeights(ws) && unit > 0.0
    ensures var es, leftover := Shares(u, ws), InUnits(LeftOf(u, ws), unit);
            var step, order := if leftover < 0.0 then -unit else unit, Order(Scaled(CutSizes(es), unit));
            && Stages(stages, order, step)
            && stages[0] == Amounts(Truncated(es), unit)
            && EndsAt(leftover, step, |order|, last)
    ensures last.Some? <==> u.Floor as real == u
    ensures last.Some? ==> last.value < |stages| && stages[last.value] == Amounts(SignedSplit(u.Floor, ws), unit)
  {
    var ds, rs, left := Truncated(Shares(u, ws)), CutSizes(Shares(u, ws)), LeftOf(u, ws);
    HandOutCompletes(u, ws);
    CourseRuns(ds, rs, left, unit);
    stages, last := StagesOf(ds, rs, StepOf(left), unit), LastTurn(left);
    if last.Some? {
      StageAt(ds, rs, StepOf(left), unit, last.value);
    }
  }

  /** The loops after the weights are checked. */
  method AllocateValid(total: real, ws: seq<real>, unit: real, ghost u: real)
    returns (r: Result<seq<real>, AllocationError>)
    requires ValidWeights(ws) && unit > 0.0 && total == InUnits(u, unit)
    ensures r == if u.Floor as real == u then Success(Amounts(SignedSplit(u.Floor, ws), unit)) else Failure(Overflow)
  {
    var parts, cuts, leftover := TruncateShares(total, ws, unit, u);
    ghost var stages, last := Course(u, ws, unit);
    if leftover == 0.0 {
      assert AfterTurns(leftover, unit, 0) == 0.0;
      return Success(parts);
    }
    var step := if leftover < 0.0 then -unit else unit;
    var order := SortedIndexes(cuts, Scaled(CutSizes(Shares(u, ws)), unit));
    r := HandOut(parts, order, leftover, step, stages, last);
  }

  method Allocate(total: real, ws: seq<real>, scale: nat) returns (r: Result<seq<real>, AllocationError>)
    ensures r == Allocated(total, ws, scale)
  {
    if ws == [] {
      return Failure(NoWeights);
    }
    if scale > 28 {
      return Failure(ScaleTooLarge(scale));
    }
    var weightTotal := TotalWeights(ws);
    if weightTotal.Failure? {
      return Failure(weightTotal.error);
    }
    SumNonNegative(ws);
    if weightTotal.value == 0.0 {
      return Failure(ZeroWeight);
    }
    r := AllocateValid(total, ws, Unit(scale), total / Unit(scale));
  }

  function Ones(n: nat): seq<real> {
    seq(n, i requires 0 <= i < n => 1.0)
  }

  method AllocateEvenly(total: real, n: nat, scale: nat) returns (r: Result<seq<real>, AllocationError>)
    ensures r == Allocated(total, Ones(n), scale)
  {
    r := Allocate(total, Ones(n), scale);
  }
}
