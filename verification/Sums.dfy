/** Sums over finite maps and sequences, with the update laws the rest of the model needs. */
module Sums {

  /** The sum of a finite map's values, in any order. */
  ghost function MapSum<K(!new)>(m: map<K, real>): real
    decreases |m|
  {
    if m == map[] then 0.0
    else
      var k :| k in m;
      m[k] + MapSum(m - {k})
  }

  /** Any key may be taken out first: the order of summation does not matter. */
  lemma {:induction false} MapSumRemove<K(!new)>(m: map<K, real>, k: K)
    requires k in m
    ensures MapSum(m) == m[k] + MapSum(m - {k})
    decreases |m|
  {
    var j :| j in m && MapSum(m) == m[j] + MapSum(m - {j});
    if j != k {
      MapSumRemove(m - {j}, k);
      MapSumRemove(m - {k}, j);
      assert m - {j} - {k} == m - {k} - {j};
    }
  }

  lemma MapSumUpdate<K(!new)>(m: map<K, real>, k: K, v: real)
    ensures MapSum(m[k := v]) == MapSum(m) - (if k in m then m[k] else 0.0) + v
  {
    MapSumRemove(m[k := v], k);
    assert m[k := v] - {k} == m - {k};
    if k in m {
      MapSumRemove(m, k);
    } else {
      assert m - {k} == m;
    }
  }

  /** The sum of a sequence of reals. */
  function Sum(s: seq<real>): real {
    if s == [] then 0.0 else Sum(s[..|s| - 1]) + s[|s| - 1]
  }

  lemma SumAppend(s: seq<real>, x: real)
    ensures Sum(s + [x]) == Sum(s) + x
  {
    assert (s + [x])[..|s|] == s;
  }

  lemma {:induction false} SumUpdate(s: seq<real>, i: nat, x: real)
    requires i < |s|
    ensures Sum(s[i := x]) == Sum(s) - s[i] + x
  {
    var n := |s| - 1;
    if i < n {
      SumUpdate(s[..n], i, x);
      assert s[i := x][..n] == s[..n][i := x];
    } else {
      assert s[i := x][..n] == s[..n];
    }
  }

  /** The sum of a sequence of integers. */
  function SumInt(s: seq<int>): int {
    if s == [] then 0 else SumInt(s[..|s| - 1]) + s[|s| - 1]
  }

  lemma {:induction false} SumIntUpdate(s: seq<int>, i: nat, x: int)
    requires i < |s|
    ensures SumInt(s[i := x]) == SumInt(s) - s[i] + x
  {
    var n := |s| - 1;
    if i < n {
      SumIntUpdate(s[..n], i, x);
      assert s[i := x][..n] == s[..n][i := x];
    } else {
      assert s[i := x][..n] == s[..n];
    }
  }

  lemma SubsetSize<T>(x: set<T>, y: set<T>)
    requires x <= y
    ensures |x| <= |y|
    ensures x < y ==> |x| < |y|
  {
    assert y == x + (y - x);
    if x < y {
      assert y - x != {};
    }
  }

  lemma NonEmptyHasElement(s: set<int>)
    ensures s == {} || exists q :: q in s
  {
    if forall q :: q !in s {
      assert s == {};
    }
  }

  lemma {:induction false} LeastExists(s: set<int>)
    requires s != {}
    ensures exists q :: q in s && forall p :: p in s ==> q <= p
    decreases |s|
  {
    NonEmptyHasElement(s);
    var q :| q in s;
    var rest := s - {q};
    assert s == rest + {q};
    if rest != {} {
      LeastExists(rest);
      var r :| r in rest && forall p :: p in rest ==> r <= p;
      var least := if q < r then q else r;
      assert least in s && forall p :: p in s ==> least <= p;
    } else {
      assert q in s && forall p :: p in s ==> q <= p;
    }
  }
}
