/**
 * The random number generator the tree generators draw from (`rand::thread_rng`).
 * Its output is not modelled: the generator is a fixed but arbitrary stream of
 * uniform draws in [0, 1), and `gen_range` scales the next draw into the
 * requested half-open range. Every property proved about a caller therefore
 * holds for every possible sequence of random numbers.
 */
module Random {

  /** A uniform draw: a real number in [0, 1). */
  type Unit = r: real | 0.0 <= r < 1.0

  lemma NonNegProduct(a: real, b: real)
    requires 0.0 <= a && 0.0 <= b
    ensures 0.0 <= a * b
  {}

  /**
   * The point a fraction `u` of the way from `lo` to `hi`. A uniform draw
   * always lands inside the half-open range [lo, hi).
   */
  function Lerp(lo: real, hi: real, u: Unit): (r: real)
    requires lo < hi
    ensures lo <= r < hi
  {
    var rest := 1.0 - u;
    assert (hi - lo) * rest > 0.0;
    NonNegProduct(hi - lo, u);
    calc {
      lo + (hi - lo) * u;
    ==
      hi - (hi - lo) * rest;
    <
      hi;
    }
    lo + (hi - lo) * u
  }

  class Rng {
    /** The draws the generator will produce, in order. */
    const stream: nat -> Unit
    /** How many draws have been consumed so far. */
    var drawn: nat

    constructor (stream: nat -> Unit)
      ensures this.stream == stream && drawn == 0
    {
      this.stream := stream;
      drawn := 0;
    }

    /** `gen_range(lo..hi)` over floats: a value of the half-open range. */
    method GenRange(lo: real, hi: real) returns (r: real)
      requires lo < hi
      modifies this
      ensures lo <= r < hi
      ensures drawn == old(drawn) + 1
    {
      r := Lerp(lo, hi, stream(drawn));
      drawn := drawn + 1;
    }

    /**
     * `gen_range(lo..hi)` over integers: a value of the half-open range. For a
     * range holding one value (`3..4`) the result is that value.
     */
    method GenRangeNat(lo: nat, hi: nat) returns (r: nat)
      requires lo < hi
      modifies this
      ensures lo <= r < hi
      ensures hi == lo + 1 ==> r == lo
      ensures drawn == old(drawn) + 1
    {
      var offset := Lerp(0.0, (hi - lo) as real, stream(drawn)).Floor;
      r := lo + offset;
      drawn := drawn + 1;
    }
  }
}
