/**
 The pinned generator behind the corpus: `splitmix64`, on 64-bit words that wrap. What it draws is a
 stream of numbers fixed by its seed.
 */
module SplitMix {
  const U64_MAX: nat := 0xFFFF_FFFF_FFFF_FFFF
  const I64_MAX: nat := 0x7FFF_FFFF_FFFF_FFFF

  /** The state after a draw. */
  function NextOf(s: bv64): bv64 {
    s + 0x9E37_79B9_7F4A_7C15
  }

  /** What a state, once reached, is mixed into. */
  function Mix(s: bv64): bv64 {
    var y := (s ^ (s >> 30)) * 0xBF58_476D_1CE4_E5B9;
    var z := (y ^ (y >> 27)) * 0x94D0_49BB_1331_11EB;
    z ^ (z >> 31)
  }

  function StateAt(seed: bv64, i: nat): bv64 {
    if i == 0 then seed else NextOf(StateAt(seed, i - 1))
  }

  /** The `i`-th draw of a seed. */
  function Output(seed: bv64, i: nat): nat {
    Mix(StateAt(seed, i + 1)) as nat
  }

  function Outputs(seed: bv64): nat -> nat {
    i => Output(seed, i)
  }

  /** What is left of `v` when `n` is taken away as often as it can be. */
  function Remainder(v: nat, n: nat): (r: nat)
    requires n > 0
    ensures r < n
  {
    if v < n then v else Remainder(v - n, n)
  }

  lemma {:induction false} MultiplesApart(q: int, n: nat)
    requires n > 0
    ensures -(n as int) < q * n < n ==> q == 0
  {
    if q >= 1 {
      assert q * n >= n;
    } else if q <= -1 {
      assert (-q) * n >= n;
    }
  }

  lemma {:induction false} ModuloOfMore(v: nat, n: nat)
    requires n > 0 && v >= n
    ensures v % n == (v - n) % n
  {
    var w := v - n;
    var q, p := v / n, w / n;
    assert v == q * n + v % n && w == p * n + w % n;
    assert (q - p - 1) * n == q * n - p * n - n == w % n - v % n;
    MultiplesApart(q - p - 1, n);
  }

  lemma {:induction false} RemainderIsModulo(v: nat, n: nat)
    requires n > 0
    ensures Remainder(v, n) == v % n
  {
    if v >= n {
      RemainderIsModulo(v - n, n);
      ModuloOfMore(v, n);
    }
  }

  predicate Even(v: nat) {
    v % 2 == 0
  }

  /** What was drawn, and the position of the next draw. */
  datatype Drawn<T> = Drawn(value: T, next: nat)

  /** A value below `n` from the draw at `i`, and the next position; zero, and no draw, when there is none. */
  function BelowAt(draws: nat -> nat, i: nat, n: nat): (r: Drawn<nat>)
    ensures if n == 0 then r == Drawn(0, i) else r.value < n && r.next == i + 1
  {
    if n == 0 then Drawn(0, i) else Drawn(Remainder(draws(i), n), i + 1)
  }

  /** A value in `low..=high`, or `low` and no draw when that is empty. */
  function BetweenAt(draws: nat -> nat, i: nat, low: nat, high: nat): (r: Drawn<nat>)
    ensures if high <= low then r == Drawn(low, i) else low <= r.value <= high
  {
    if high <= low then Drawn(low, i)
    else
      var v := BelowAt(draws, i, high - low + 1);
      Drawn(low + v.value, v.next)
  }

  /** `draws` are the outputs of the seed. */
  ghost predicate Streams(draws: nat -> nat, seed: bv64) {
    forall i: nat {:trigger Output(seed, i)} :: draws(i) == Output(seed, i)
  }

  class Rng {
    ghost const draws: nat -> nat
    ghost const seed: bv64
    ghost var drawn: nat
    var state: bv64

    ghost predicate Valid()
      reads this
    {
      state == StateAt(seed, drawn) && Streams(draws, seed)
    }

    constructor (seed: bv64)
      ensures Valid() && drawn == 0 && draws == Outputs(seed)
    {
      this.seed, this.draws, this.drawn, this.state := seed, Outputs(seed), 0, seed;
    }

    method NextU64() returns (z: nat)
      requires Valid()
      modifies this
      ensures Valid() && drawn == old(drawn) + 1 && z == draws(old(drawn))
    {
      state := NextOf(state);
      z := Mix(state) as nat;
      assert z == Output(seed, drawn);
      drawn := drawn + 1;
    }

    method Below(n: nat) returns (v: nat)
      requires Valid() && n <= U64_MAX
      modifies this
      ensures Valid() && Drawn(v, drawn) == BelowAt(draws, old(drawn), n)
    {
      if n == 0 {
        v := 0;
      } else {
        var z := NextU64();
        RemainderIsModulo(z, n);
        v := z % n;
      }
    }

    method Between(low: nat, high: nat) returns (v: nat)
      requires Valid() && high <= U64_MAX && (low == 0 ==> high < U64_MAX)
      modifies this
      ensures Valid() && Drawn(v, drawn) == BetweenAt(draws, old(drawn), low, high)
    {
      if high <= low {
        v := low;
      } else {
        v := Below(high - low + 1);
        v := low + v;
      }
    }
  }

  /** The stream is pinned: the first three outputs of seed 0. */
  lemma {:induction false} PinnedStream()
    ensures Output(0, 0) == 16_294_208_416_658_607_535
    ensures Output(0, 1) == 7_960_286_522_194_355_700
    ensures Output(0, 2) == 487_617_019_471_545_679
  {
    assert StateAt(0, 1) == 0x9E37_79B9_7F4A_7C15;
    assert StateAt(0, 2) == 0x3C6E_F372_FE94_F82A;
    assert StateAt(0, 3) == 0xDAA6_6D2C_7DDF_743F;
  }

  /** The first three draws of seed 5 are even, even and odd. */
  lemma {:induction false} FirstDrawsOfFive()
    ensures var draws := Outputs(5); Even(draws(0)) && Even(draws(1)) && !Even(draws(2))
  {
    assert StateAt(5, 1) == 0x9E37_79B9_7F4A_7C1A;
    assert StateAt(5, 2) == 0x3C6E_F372_FE94_F82F;
    assert StateAt(5, 3) == 0xDAA6_6D2C_7DDF_7444;
  }
}
