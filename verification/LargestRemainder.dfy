/**
 Largest-remainder apportionment as a reference: every exact share is floored, and the units left
 over go to the shares that were cut hardest, ties to the lower index. Stated by rank, without a
 sort or a loop, in units of the requested precision.
 */
module LargestRemainder {
  import opened Sums

  // ---------------------------------------------------------------------------
  // Exact shares, floors and remainders
  // ---------------------------------------------------------------------------

  /** The exact share of one weight. */
  function Share(u: real, w: real, total: real): real
    requires total > 0.0
  {
    u * w / total
  }

  /** The exact proportional shares of `u` units. */
  function Shares(u: real, ws: seq<real>): seq<real>
    requires Sum(ws) > 0.0
  {
    seq(|ws|, i requires 0 <= i < |ws| => Share(u, ws[i], Sum(ws)))
  }

  function Floors(es: seq<real>): seq<int> {
    seq(|es|, i requires 0 <= i < |es| => es[i].Floor)
  }

  function Remainders(es: seq<real>): (rs: seq<real>)
    ensures |rs| == |es|
    ensures forall i :: 0 <= i < |rs| ==> rs[i] == es[i] - es[i].Floor as real && 0.0 <= rs[i] < 1.0
  {
    seq(|es|, i requires 0 <= i < |es| => es[i] - es[i].Floor as real)
  }

  predicate NonNegative(s: seq<real>) {
    forall i :: 0 <= i < |s| ==> s[i] >= 0.0
  }

  lemma {:induction false} SumOfMultiples(ws: seq<real>, es: seq<real>, q: real)
    requires |es| == |ws| && forall i :: 0 <= i < |ws| ==> es[i] == q * ws[i]
    ensures Sum(es) == q * Sum(ws)
  {
    if ws != [] {
      SumOfMultiples(ws[..|ws| - 1], es[..|ws| - 1], q);
    }
  }

  lemma MultiplyThenDivide(u: real, w: real, total: real)
    requires total > 0.0
    ensures Share(u, w, total) == (u / total) * w
  {
    var q := u / total;
    assert u == q * total;
    assert u * w == (q * w) * total;
  }

  lemma SharesAtRate(u: real, ws: seq<real>, q: real)
    requires Sum(ws) > 0.0 && q == u / Sum(ws)
    ensures Sum(Shares(u, ws)) == q * Sum(ws)
  {
    forall i | 0 <= i < |ws| ensures Shares(u, ws)[i] == q * ws[i] {
      MultiplyThenDivide(u, ws[i], Sum(ws));
    }
    SumOfMultiples(ws, Shares(u, ws), q);
  }

  /** The exact shares sum to the total. */
  lemma SharesSum(u: real, ws: seq<real>)
    requires Sum(ws) > 0.0
    ensures Sum(Shares(u, ws)) == u
  {
    SharesAtRate(u, ws, u / Sum(ws));
  }

  lemma SharesNonNegative(u: real, ws: seq<real>)
    requires u >= 0.0 && NonNegative(ws) && Sum(ws) > 0.0
    ensures NonNegative(Shares(u, ws))
  {
    forall i | 0 <= i < |ws| ensures Share(u, ws[i], Sum(ws)) >= 0.0 {
      MultiplyThenDivide(u, ws[i], Sum(ws));
      assert u / Sum(ws) >= 0.0;
    }
  }

  lemma {:induction false} FloorsAndRemaindersSum(es: seq<real>)
    ensures Sum(es) == SumInt(Floors(es)) as real + Sum(Remainders(es))
  {
    if es != [] {
      var n := |es| - 1;
      FloorsAndRemaindersSum(es[..n]);
      assert Floors(es)[..n] == Floors(es[..n]) && Remainders(es)[..n] == Remainders(es[..n]);
    }
  }

  // ---------------------------------------------------------------------------
  // Rank: remainder descending, index ascending
  // ---------------------------------------------------------------------------

  predicate Before(rs: seq<real>, i: nat, j: nat)
    requires i < |rs| && j < |rs|
  {
    rs[i] > rs[j] || (rs[i] == rs[j] && i < j)
  }

  function Ahead(rs: seq<real>, j: nat): set<nat>
    requires j < |rs|
  {
    set i: nat | i < |rs| && Before(rs, i, j)
  }

  /** How many shares come before this one when the leftover is handed out. */
  function Rank(rs: seq<real>, j: nat): nat
    requires j < |rs|
  {
    |Ahead(rs, j)|
  }

  /** Ranks order the shares, so no two share one. */
  lemma RankOrders(rs: seq<real>, i: nat, j: nat)
    requires i < |rs| && j < |rs|
    ensures Before(rs, i, j) <==> Rank(rs, i) < Rank(rs, j)
    ensures i != j ==> Rank(rs, i) != Rank(rs, j)
  {
    if Before(rs, i, j) {
      assert i in Ahead(rs, j) && i !in Ahead(rs, i);
      SubsetSize(Ahead(rs, i), Ahead(rs, j));
    } else {
      if i != j {
        assert j in Ahead(rs, i) && j !in Ahead(rs, j);
      }
      SubsetSize(Ahead(rs, j), Ahead(rs, i));
    }
  }

  // ---------------------------------------------------------------------------
  // The sort both implementations use
  // ---------------------------------------------------------------------------

  datatype Cut = Cut(index: nat, rest: real)

  predicate Precedes(a: Cut, b: Cut) {
    a.rest > b.rest || (a.rest == b.rest && a.index < b.index)
  }

  predicate Ordered(cuts: seq<Cut>) {
    forall i, j :: 0 <= i < j < |cuts| ==> Precedes(cuts[i], cuts[j])
  }

  /** How many cuts come before `c`. */
  function Position(cuts: seq<Cut>, c: Cut): (p: nat)
    ensures p <= |cuts|
    ensures forall k :: 0 <= k < p ==> Precedes(cuts[k], c)
    ensures p < |cuts| ==> !Precedes(cuts[p], c)
  {
    if cuts == [] || !Precedes(cuts[0], c) then 0 else 1 + Position(cuts[1..], c)
  }

  lemma InsertedIsOrdered(cuts: seq<Cut>, c: Cut, p: nat)
    requires Ordered(cuts) && p <= |cuts|
    requires forall k :: 0 <= k < p ==> Precedes(cuts[k], c)
    requires forall k :: p <= k < |cuts| ==> Precedes(c, cuts[k])
    ensures Ordered(cuts[..p] + [c] + cuts[p..])
  {
    var r := cuts[..p] + [c] + cuts[p..];
    forall i, j | 0 <= i < j < |r| ensures Precedes(r[i], r[j]) {
      assert r[i] == if i < p then cuts[i] else if i == p then c else cuts[i - 1];
      assert r[j] == if j < p then cuts[j] else if j == p then c else cuts[j - 1];
    }
  }

  lemma InsertedElements(cuts: seq<Cut>, c: Cut, p: nat, x: Cut)
    requires p <= |cuts|
    ensures x in cuts[..p] + [c] + cuts[p..] <==> x in cuts || x == c
  {
    assert cuts == cuts[..p] + cuts[p..];
  }

  function Insert(cuts: seq<Cut>, c: Cut): (r: seq<Cut>)
    requires Ordered(cuts) && forall k :: 0 <= k < |cuts| ==> cuts[k].index != c.index
    ensures Ordered(r) && |r| == |cuts| + 1
    ensures forall x :: x in r <==> x in cuts || x == c
  {
    var p := Position(cuts, c);
    assert p < |cuts| ==> Precedes(c, cuts[p]);
    assert forall k :: p < k < |cuts| ==> Precedes(cuts[p], cuts[k]);
    InsertedIsOrdered(cuts, c, p);
    assert forall x :: x in cuts[..p] + [c] + cuts[p..] <==> x in cuts || x == c by {
      forall x ensures x in cuts[..p] + [c] + cuts[p..] <==> x in cuts || x == c {
        InsertedElements(cuts, c, p, x);
      }
    }
    cuts[..p] + [c] + cuts[p..]
  }

  /** Sorted by remainder descending, then index ascending; a permutation of what came in. */
  function SortCuts(cuts: seq<Cut>): (r: seq<Cut>)
    requires forall i, j :: 0 <= i < j < |cuts| ==> cuts[i].index != cuts[j].index
    ensures Ordered(r) && |r| == |cuts|
    ensures forall x :: x in r <==> x in cuts
  {
    if cuts == [] then []
    else
      var n := |cuts| - 1;
      var front := SortCuts(cuts[..n]);
      assert forall k :: 0 <= k < |front| ==> front[k] in cuts[..n];
      assert cuts == cuts[..n] + [cuts[n]];
      Insert(front, cuts[n])
  }

  function Cuts(rs: seq<real>): seq<Cut> {
    seq(|rs|, i requires 0 <= i < |rs| => Cut(i, rs[i]))
  }

  /** The order in which the leftover is handed out. */
  function Order(rs: seq<real>): (order: seq<nat>)
    ensures |order| == |rs|
    ensures forall k :: 0 <= k < |order| ==> order[k] < |rs| && SortCuts(Cuts(rs))[k] == Cut(order[k], rs[order[k]])
  {
    var sorted := SortCuts(Cuts(rs));
    assert forall k :: 0 <= k < |sorted| ==> sorted[k] in Cuts(rs);
    seq(|rs|, k requires 0 <= k < |rs| => sorted[k].index)
  }

  /** Every share is somewhere in the order. */
  lemma OrderIsOnto(rs: seq<real>, j: nat)
    requires j < |rs|
    ensures exists k :: 0 <= k < |rs| && Order(rs)[k] == j
  {
    var sorted := SortCuts(Cuts(rs));
    assert Cuts(rs)[j] in sorted;
    var k :| 0 <= k < |sorted| && sorted[k] == Cut(j, rs[j]);
    assert Order(rs)[k] == j;
  }

  lemma OrderIsOrdered(rs: seq<real>, k: nat, m: nat)
    requires k < m < |rs|
    ensures Before(rs, Order(rs)[k], Order(rs)[m])
  {
    assert Precedes(SortCuts(Cuts(rs))[k], SortCuts(Cuts(rs))[m]);
  }

  lemma {:induction false} FirstAhead(rs: seq<real>, k: nat)
    requires k <= |rs|
    ensures |set m: nat | m < k :: Order(rs)[m]| == k
  {
    var s := set m: nat | m < k :: Order(rs)[m];
    if k == 0 {
      assert s == {};
    } else {
      FirstAhead(rs, k - 1);
      var t := set m: nat | m < k - 1 :: Order(rs)[m];
      assert s == t + {Order(rs)[k - 1]};
      forall m: nat | m < k - 1 ensures Order(rs)[m] != Order(rs)[k - 1] {
        OrderIsOrdered(rs, m, k - 1);
      }
    }
  }

  /** The sorted position of a share is its rank. */
  lemma RankOfOrder(rs: seq<real>, k: nat)
    requires k < |rs|
    ensures Rank(rs, Order(rs)[k]) == k
  {
    var j := Order(rs)[k];
    var s := set m: nat | m < k :: Order(rs)[m];
    FirstAhead(rs, k);
    forall i: nat ensures i in Ahead(rs, j) <==> i in s {
      if i < |rs| {
        OrderIsOnto(rs, i);
        var m: nat :| m < |rs| && Order(rs)[m] == i;
        if m < k {
          OrderIsOrdered(rs, m, k);
        } else if m > k {
          OrderIsOrdered(rs, k, m);
        }
        if i in s {
          var p: nat :| p < k && Order(rs)[p] == i;
          OrderIsOrdered(rs, p, k);
        }
      }
    }
    assert Ahead(rs, j) == s;
  }

  // ---------------------------------------------------------------------------
  // Handing out
  // ---------------------------------------------------------------------------

  /** The truncated shares, with `step` more for each of the `k` shares cut hardest. */
  function Topped(ds: seq<int>, rs: seq<real>, k: int, step: int): seq<int>
    requires |ds| == |rs|
  {
    seq(|ds|, i requires 0 <= i < |ds| => ds[i] + (if Rank(rs, i) < k then step else 0))
  }

  /** The floors, with one unit more for each of the `k` shares cut hardest. */
  function Handed(fs: seq<int>, rs: seq<real>, k: int): seq<int>
    requires |fs| == |rs|
  {
    Topped(fs, rs, k, 1)
  }

  /** The next step goes to the next share in order, and to no other. */
  lemma HandOne(ds: seq<int>, rs: seq<real>, k: nat, step: int)
    requires |ds| == |rs| && k < |rs|
    ensures var t := Order(rs)[k];
            Topped(ds, rs, k + 1, step) == Topped(ds, rs, k, step)[t := Topped(ds, rs, k, step)[t] + step]
  {
    var t := Order(rs)[k];
    RankOfOrder(rs, k);
    forall i | 0 <= i < |rs| ensures Rank(rs, i) == k <==> i == t {
      if i != t {
        RankOrders(rs, i, t);
      }
    }
  }

  lemma {:induction false} HandedSum(fs: seq<int>, rs: seq<real>, k: nat)
    requires |fs| == |rs| && k <= |rs|
    ensures SumInt(Handed(fs, rs, k)) == SumInt(fs) + k
  {
    if k == 0 {
      assert Handed(fs, rs, 0) == fs;
    } else {
      HandedSum(fs, rs, k - 1);
      HandOne(fs, rs, k - 1, 1);
      var t := Order(rs)[k - 1];
      SumIntUpdate(Handed(fs, rs, k - 1), t, Handed(fs, rs, k - 1)[t] + 1);
    }
  }

  /** How much is left once every share is floored. */
  function Leftover(es: seq<real>): real {
    Sum(es) - SumInt(Floors(es)) as real
  }

  function Positive(rs: seq<real>): set<nat> {
    set i: nat | i < |rs| && rs[i] > 0.0
  }

  lemma {:induction false} SumBelowCount(rs: seq<real>)
    requires forall i :: 0 <= i < |rs| ==> 0.0 <= rs[i] < 1.0
    ensures 0.0 <= Sum(rs) <= |Positive(rs)| as real
    ensures Positive(rs) == {} <==> Sum(rs) == 0.0
    ensures Positive(rs) != {} ==> Sum(rs) < |Positive(rs)| as real
  {
    if rs != [] {
      var n: nat := |rs| - 1;
      SumBelowCount(rs[..n]);
      assert Positive(rs) == Positive(rs[..n]) + (if rs[n] > 0.0 then {n} else {});
      if rs[n] > 0.0 {
        assert n in Positive(rs) && n !in Positive(rs[..n]);
      }
    }
  }

  lemma SetBound(s: set<nat>, n: nat)
    requires forall i :: i in s ==> i < n
    ensures |s| <= n
  {
    if n == 0 {
      assert s == {};
    } else {
      SetBound(s - {n - 1}, n - 1);
    }
  }

  /**
   The hand-out ends within one pass: what is left over is less than the number of shares that lost
   anything to flooring, or nothing is left over.
   */
  lemma LeftoverIsSmall(es: seq<real>)
    ensures 0.0 <= Leftover(es)
    ensures Leftover(es) == 0.0 <==> Positive(Remainders(es)) == {}
    ensures Leftover(es) != 0.0 ==> Leftover(es) < |Positive(Remainders(es))| as real
    ensures |Positive(Remainders(es))| <= |es|
  {
    FloorsAndRemaindersSum(es);
    SumBelowCount(Remainders(es));
    SetBound(Positive(Remainders(es)), |es|);
  }

  /** A share that lost nothing ranks after every share that did. */
  lemma UncutRanksLast(rs: seq<real>, j: nat)
    requires j < |rs| && rs[j] == 0.0
    ensures Rank(rs, j) >= |Positive(rs)|
  {
    assert Positive(rs) <= Ahead(rs, j);
    SubsetSize(Positive(rs), Ahead(rs, j));
  }

  // ---------------------------------------------------------------------------
  // The reference result and its laws
  // ---------------------------------------------------------------------------

  predicate ValidWeights(ws: seq<real>) {
    ws != [] && NonNegative(ws) && Sum(ws) > 0.0
  }

  /** A whole number of units, split among the weights. */
  function Split(units: int, ws: seq<real>): (r: seq<int>)
    requires Sum(ws) > 0.0
  {
    var es := Shares(units as real, ws);
    Handed(Floors(es), Remainders(es), units - SumInt(Floors(es)))
  }

  lemma {:induction false} SplitCount(units: nat, ws: seq<real>)
    requires ValidWeights(ws)
    ensures var es := Shares(units as real, ws);
            var k := units - SumInt(Floors(es));
            && Leftover(es) == k as real && 0 <= k
            && (k != 0 ==> k < |Positive(Remainders(es))|)
            && k < |ws|
  {
    var es := Shares(units as real, ws);
    SharesSum(units as real, ws);
    LeftoverIsSmall(es);
    assert Leftover(es) == (units - SumInt(Floors(es))) as real;
  }

  /** The shares sum to the total. */
  lemma SplitConserves(units: nat, ws: seq<real>)
    requires ValidWeights(ws)
    ensures |Split(units, ws)| == |ws| && SumInt(Split(units, ws)) == units
  {
    var es := Shares(units as real, ws);
    SplitCount(units, ws);
    HandedSum(Floors(es), Remainders(es), units - SumInt(Floors(es)));
  }

  /**
   Each share is the floor or the ceiling of its exact share, the ceiling only if it was cut; the
   ones topped up are exactly those ranked among the first `k`, where `k` units were left over.
   */
  lemma SplitIsWithinQuota(units: nat, ws: seq<real>, j: nat)
    requires ValidWeights(ws) && j < |ws|
    ensures var es := Shares(units as real, ws);
            var share, k := Split(units, ws)[j], units - SumInt(Floors(es));
            && es[j] - 1.0 < share as real < es[j] + 1.0
            && share == (if Rank(Remainders(es), j) < k then es[j].Floor + 1 else es[j].Floor)
            && (share == es[j].Floor + 1 ==> es[j] > es[j].Floor as real)
            && (ws[j] == 0.0 ==> share == 0)
  {
    var es := Shares(units as real, ws);
    SplitCount(units, ws);
    ShareOfNoWeight(units as real, ws, j);
    ToppedOnlyIfCut(es, units - SumInt(Floors(es)), j);
  }

  lemma ShareOfNoWeight(u: real, ws: seq<real>, j: nat)
    requires Sum(ws) > 0.0 && j < |ws|
    ensures ws[j] == 0.0 ==> Shares(u, ws)[j] == 0.0
  {
    MultiplyThenDivide(u, ws[j], Sum(ws));
  }

  lemma ToppedOnlyIfCut(es: seq<real>, k: int, j: nat)
    requires j < |es| && (k != 0 ==> 0 <= k < |Positive(Remainders(es))|)
    ensures Rank(Remainders(es), j) < k ==> Remainders(es)[j] > 0.0
  {
    if Remainders(es)[j] == 0.0 {
      UncutRanksLast(Remainders(es), j);
    }
  }

  lemma LargerWeightLargerShare(u: real, v: real, w: real, total: real)
    requires u >= 0.0 && total > 0.0 && v <= w
    ensures Share(u, v, total) <= Share(u, w, total)
    ensures u > 0.0 && v < w ==> Share(u, v, total) < Share(u, w, total)
  {
    MultiplyThenDivide(u, v, total);
    MultiplyThenDivide(u, w, total);
    var q := u / total;
    assert q >= 0.0 && (u > 0.0 ==> q > 0.0);
    assert q * (w - v) >= 0.0;
    assert u > 0.0 && v < w ==> q * (w - v) > 0.0;
  }

  lemma HandedIsMonotone(es: seq<real>, k: int, i: nat, j: nat)
    requires i < |es| && j < |es|
    requires es[i] > es[j] || (es[i] == es[j] && i < j)
    ensures Handed(Floors(es), Remainders(es), k)[i] >= Handed(Floors(es), Remainders(es), k)[j]
  {
    if es[i].Floor == es[j].Floor {
      assert Before(Remainders(es), i, j);
      RankOrders(Remainders(es), i, j);
    }
  }

  /** A larger weight never gets less; an equal weight gets no less for coming first. */
  lemma SplitIsMonotone(units: nat, ws: seq<real>, i: nat, j: nat)
    requires ValidWeights(ws) && i < |ws| && j < |ws|
    requires ws[i] > ws[j] || (ws[i] == ws[j] && i < j)
    ensures Split(units, ws)[i] >= Split(units, ws)[j]
  {
    var es := Shares(units as real, ws);
    if units == 0 {
      NothingToSplit(ws, i);
      NothingToSplit(ws, j);
    } else {
      LargerWeightLargerShare(units as real, ws[j], ws[i], Sum(ws));
      HandedIsMonotone(es, units - SumInt(Floors(es)), i, j);
    }
  }

  lemma NothingToSplit(ws: seq<real>, j: nat)
    requires ValidWeights(ws) && j < |ws|
    ensures Split(0, ws)[j] == 0
  {
    SplitIsWithinQuota(0, ws, j);
    MultiplyThenDivide(0.0, ws[j], Sum(ws));
    assert Shares(0 as real, ws)[j] == 0.0;
  }

  // ---------------------------------------------------------------------------
  // Optimality
  // ---------------------------------------------------------------------------

  function Dist(x: int, e: real): real {
    if x as real < e then e - x as real else x as real - e
  }

  /** The sum of the absolute deviations of a whole-unit split from the exact shares. */
  function Deviation(xs: seq<int>, es: seq<real>): real
    requires |xs| == |es|
  {
    if xs == [] then 0.0
    else Deviation(xs[..|xs| - 1], es[..|es| - 1]) + Dist(xs[|xs| - 1], es[|es| - 1])
  }

  /**
   With `theta` between the remainders that were topped up and those that were not, moving a share
   by `x - s` units costs at least `1 - 2 theta` a unit.
   */
  lemma MovingCosts(e: real, s: int, x: int, theta: real)
    requires 0.0 <= theta <= 1.0
    requires || (s == e.Floor && e - e.Floor as real <= theta)
             || (s == e.Floor + 1 && e - e.Floor as real >= theta)
    ensures Dist(x, e) - Dist(s, e) >= (1.0 - 2.0 * theta) * (x - s) as real
  {
    var d := (x - s) as real;
    if x > s {
      assert d >= 1.0;
      ProductIsNonNegative(theta, d - 1.0);
    } else if x < s {
      assert d <= -1.0;
      ProductIsNonNegative(1.0 - theta, -d - 1.0);
    }
  }

  lemma ProductIsNonNegative(x: real, y: real)
    requires x >= 0.0 && y >= 0.0
    ensures x * y >= 0.0
  {
  }

  /** Each share is floored with a remainder of at most `theta`, or topped up with at least that. */
  predicate Threshold(es: seq<real>, ss: seq<int>, theta: real)
    requires |es| == |ss|
  {
    forall i :: 0 <= i < |es| ==>
      || (ss[i] == es[i].Floor && es[i] - es[i].Floor as real <= theta)
      || (ss[i] == es[i].Floor + 1 && es[i] - es[i].Floor as real >= theta)
  }

  /** How far each share is moved. */
  function Moves(ss: seq<int>, xs: seq<int>): seq<real>
    requires |ss| == |xs|
  {
    seq(|ss|, i requires 0 <= i < |ss| => (xs[i] - ss[i]) as real)
  }

  lemma {:induction false} MovesSum(ss: seq<int>, xs: seq<int>)
    requires |ss| == |xs|
    ensures Sum(Moves(ss, xs)) == (SumInt(xs) - SumInt(ss)) as real
  {
    if ss != [] {
      var n := |ss| - 1;
      MovesSum(ss[..n], xs[..n]);
      assert Moves(ss, xs)[..n] == Moves(ss[..n], xs[..n]);
    }
  }

  lemma {:induction false} DeviationAtLeast(es: seq<real>, ss: seq<int>, xs: seq<int>, costs: seq<real>)
    requires |es| == |ss| == |xs| == |costs|
    requires forall i :: 0 <= i < |es| ==> Dist(xs[i], es[i]) - Dist(ss[i], es[i]) >= costs[i]
    ensures Deviation(xs, es) - Deviation(ss, es) >= Sum(costs)
  {
    if es != [] {
      var n := |es| - 1;
      DeviationAtLeast(es[..n], ss[..n], xs[..n], costs[..n]);
    }
  }

  function Costs(moves: seq<real>, rate: real): seq<real> {
    seq(|moves|, i requires 0 <= i < |moves| => rate * moves[i])
  }

  lemma CostsSumToZero(moves: seq<real>, rate: real)
    requires Sum(moves) == 0.0
    ensures Sum(Costs(moves, rate)) == 0.0
  {
    SumOfMultiples(moves, Costs(moves, rate), rate);
  }

  lemma EachMoveCosts(es: seq<real>, ss: seq<int>, xs: seq<int>, theta: real, rate: real)
    requires |es| == |ss| == |xs| && 0.0 <= theta <= 1.0 && Threshold(es, ss, theta) && rate == 1.0 - 2.0 * theta
    ensures forall i :: 0 <= i < |es| ==> Dist(xs[i], es[i]) - Dist(ss[i], es[i]) >= Costs(Moves(ss, xs), rate)[i]
  {
    forall i | 0 <= i < |es| ensures Dist(xs[i], es[i]) - Dist(ss[i], es[i]) >= Costs(Moves(ss, xs), rate)[i] {
      MovingCosts(es[i], ss[i], xs[i], theta);
    }
  }

  /** Moving shares without changing their total never brings them closer. */
  lemma {:induction false} MovingCostsInTotal(es: seq<real>, ss: seq<int>, xs: seq<int>, theta: real)
    requires |es| == |ss| == |xs| && 0.0 <= theta <= 1.0 && Threshold(es, ss, theta)
    requires SumInt(xs) == SumInt(ss)
    ensures Deviation(ss, es) <= Deviation(xs, es)
  {
    var rate := 1.0 - 2.0 * theta;
    var costs := Costs(Moves(ss, xs), rate);
    EachMoveCosts(es, ss, xs, theta, rate);
    DeviationAtLeast(es, ss, xs, costs);
    MovesSum(ss, xs);
    CostsSumToZero(Moves(ss, xs), rate);
  }

  /** The remainder of the last share topped up separates the two groups. */
  lemma HandedHasThreshold(es: seq<real>, k: nat) returns (theta: real)
    requires k <= |es|
    ensures 0.0 <= theta <= 1.0 && Threshold(es, Handed(Floors(es), Remainders(es), k), theta)
  {
    var rs := Remainders(es);
    theta := 1.0;
    if k > 0 {
      var last := Order(rs)[k - 1];
      RankOfOrder(rs, k - 1);
      theta := rs[last];
      forall i | 0 <= i < |rs|
        ensures Rank(rs, i) < k ==> rs[i] >= theta
        ensures Rank(rs, i) >= k ==> rs[i] <= theta
      {
        RankOrders(rs, i, last);
        RankOrders(rs, last, i);
      }
    }
  }

  /** No whole-unit split of the same total is closer to the exact shares. */
  lemma {:induction false} SplitIsOptimal(units: nat, ws: seq<real>, xs: seq<int>)
    requires ValidWeights(ws) && |xs| == |ws| && SumInt(xs) == units
    ensures |Split(units, ws)| == |ws|
    ensures Deviation(Split(units, ws), Shares(units as real, ws)) <= Deviation(xs, Shares(units as real, ws))
  {
    var es := Shares(units as real, ws);
    SplitCount(units, ws);
    SplitConserves(units, ws);
    var theta := HandedHasThreshold(es, units - SumInt(Floors(es)));
    MovingCostsInTotal(es, Split(units, ws), xs, theta);
  }
}
