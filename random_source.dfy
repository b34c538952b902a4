/**
 * The engine's random number generator, seen only through what it returns.
 * Each kind of draw is an arbitrary fixed stream, consumed in order; every
 * property proved about the engine holds for every choice of the streams.
 */
module RandomSource {
  import opened ProblemDomain

  class Rng {
    /** Successive results of a uniform draw from [0, 1). */
    const unit: nat -> real
    /** Successive results of a uniform choice in {0, 1}. */
    const bit: nat -> Bit
    /** Result of the k-th draw of two distinct sorted cut points from 1 .. n - 1. */
    const pair: (nat, nat) -> (int, int)

    /** How many draws of each kind have been consumed. */
    var units: nat
    var bits: nat
    var pairs: nat

    /** The streams stay within the ranges of the draws they stand for. */
    ghost predicate Valid()
    {
      && (forall k :: 0.0 <= unit(k) < 1.0)
      && (forall k, n :: n >= 3 ==> 1 <= pair(k, n).0 < pair(k, n).1 <= n - 1)
    }

    constructor (unit: nat -> real, bit: nat -> Bit, pair: (nat, nat) -> (int, int))
      ensures this.unit == unit && this.bit == bit && this.pair == pair
      ensures units == 0 && bits == 0 && pairs == 0
    {
      this.unit, this.bit, this.pair := unit, bit, pair;
      units, bits, pairs := 0, 0, 0;
    }

    /** The next n uniform draws from position `start`. */
    function UnitWindow(start: nat, n: nat): (s: seq<real>)
      ensures |s| == n
    {
      seq(n, k requires 0 <= k < n => unit(start + k))
    }

    /** The next n random bits from position `start`. */
    function BitWindow(start: nat, n: nat): (s: seq<Bit>)
      ensures |s| == n
    {
      seq(n, k requires 0 <= k < n => bit(start + k))
    }

    method Random() returns (u: real)
      requires Valid()
      modifies this`units
      ensures u == unit(old(units)) && 0.0 <= u < 1.0
      ensures units == old(units) + 1
    {
      u := unit(units);
      units := units + 1;
    }

    method RandBit() returns (b: Bit)
      modifies this`bits
      ensures b == bit(old(bits)) && bits == old(bits) + 1
    {
      b := bit(bits);
      bits := bits + 1;
    }

    /** Two distinct cut points of a chromosome of length n, in increasing order. */
    method SampleCut(n: nat) returns (p1: int, p2: int)
      requires Valid() && n >= 3
      modifies this`pairs
      ensures (p1, p2) == pair(old(pairs), n) && 1 <= p1 < p2 <= n - 1
      ensures pairs == old(pairs) + 1
    {
      p1, p2 := pair(pairs, n).0, pair(pairs, n).1;
      pairs := pairs + 1;
    }
  }
}
