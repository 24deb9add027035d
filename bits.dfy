/**
 * Bit utilities (include/khepri/math/bits.hpp): rounding a 32-bit value up
 * to a power of two by smearing its highest set bit, and population counts
 * of 16-, 32- and 64-bit values.
 */
module Bits {
  import opened Bytes

  /** A 32-bit value with exactly one bit set. */
  predicate IsPowerOfTwo(x: bv32)
  {
    x != 0 && x & (x - 1) == 0
  }

  /**
   * `ceil_power_of_two`: decrement, copy the highest set bit into every lower
   * bit, increment. Arithmetic wraps modulo 2^32 as on `std::uint32_t`.
   */
  function CeilPowerOfTwo(value: bv32): (r: bv32)
    ensures r == 0 <==> value == 0 || value > 0x8000_0000
    ensures r != 0 ==> IsPowerOfTwo(r) && value <= r
  {
    var v0 := value - 1;
    var v1 := v0 | (v0 >> 1);
    var v2 := v1 | (v1 >> 2);
    var v3 := v2 | (v2 >> 4);
    var v4 := v3 | (v3 >> 8);
    var v5 := v4 | (v4 >> 16);
    v5 + 1
  }

  /** For 1 <= v <= 2^31 the result is a power of two at least v and below 2v. */
  lemma {:induction false} CeilIsPowerOfTwo(v: bv32)
    requires 1 <= v <= 0x8000_0000
    ensures IsPowerOfTwo(CeilPowerOfTwo(v))
    ensures v <= CeilPowerOfTwo(v) && CeilPowerOfTwo(v) >> 1 < v
  {
  }

  /** It is the least such power of two: no power of two at least v lies below it. */
  lemma {:induction false} CeilIsLeast(v: bv32, p: bv32)
    requires 1 <= v <= 0x8000_0000
    requires IsPowerOfTwo(p) && v <= p
    ensures CeilPowerOfTwo(v) <= p
  {
  }

  /** A power of two is its own ceiling. */
  lemma {:induction false} CeilOfPowerOfTwo(v: bv32)
    requires IsPowerOfTwo(v)
    ensures CeilPowerOfTwo(v) == v
  {
  }

  /** Rounding up is monotone on [1, 2^31]. */
  lemma {:induction false} CeilMonotone(a: bv32, b: bv32)
    requires 1 <= a <= b <= 0x8000_0000
    ensures CeilPowerOfTwo(a) <= CeilPowerOfTwo(b)
  {
    CeilIsPowerOfTwo(b);
    CeilIsLeast(a, CeilPowerOfTwo(b));
  }

  /** 0 and every value above 2^31 wrap around to 0, which is not a power of two. */
  lemma {:induction false} CeilWraps(v: bv32)
    requires v == 0 || v > 0x8000_0000
    ensures CeilPowerOfTwo(v) == 0 && !IsPowerOfTwo(CeilPowerOfTwo(v))
  {
  }

  /** The number of set bits among the low `width` bits of v. */
  function PopCount(v: nat, width: nat): (r: nat)
    ensures r <= width
  {
    if width == 0 then 0 else v % 2 + PopCount(v / 2, width - 1)
  }

  /** `bitcount` of a 16-bit value. */
  function Bitcount16(v: nat): (r: nat)
    requires v < Pow2(16)
    ensures r <= 16
  {
    PopCount(v, 16)
  }

  /** `bitcount` of a 32-bit value. */
  function Bitcount32(v: nat): (r: nat)
    requires v < Pow2(32)
    ensures r <= 32
  {
    PopCount(v, 32)
  }

  /** `bitcount` of a 64-bit value. */
  function Bitcount64(v: nat): (r: nat)
    requires v < Pow2(64)
    ensures r <= 64
  {
    PopCount(v, 64)
  }

  /** Every bit is set in exactly one of v and its complement. */
  lemma {:induction false} PopCountComplement(v: nat, width: nat)
    requires v < Pow2(width)
    ensures PopCount(v, width) + PopCount(Pow2(width) - 1 - v, width) == width
  {
    if width > 0 {
      var c := Pow2(width) - 1 - v;
      assert c / 2 == Pow2(width - 1) - 1 - v / 2 && c % 2 == 1 - v % 2;
      PopCountComplement(v / 2, width - 1);
    }
  }

  /** A power of two below 2^width has exactly one bit set. */
  lemma {:induction false} PopCountPow2(k: nat, width: nat)
    requires k < width
    ensures PopCount(Pow2(k), width) == 1
  {
    if k == 0 {
      PopCountZero(0, width - 1);
    } else {
      PopCountPow2(k - 1, width - 1);
    }
  }

  /** Zero has no bit set. */
  lemma {:induction false} PopCountZero(v: nat, width: nat)
    requires v == 0
    ensures PopCount(v, width) == 0
  {
    if width > 0 {
      PopCountZero(0, width - 1);
    }
  }

  /** Bits above the width do not count: only v modulo 2^width matters. */
  lemma {:induction false} PopCountLowBits(v: nat, width: nat)
    ensures PopCount(v, width) == PopCount(v % Pow2(width), width)
  {
    if width > 0 {
      var m := v % Pow2(width);
      assert v == Pow2(width) * (v / Pow2(width)) + m;
      assert m % 2 == v % 2 && m / 2 == (v / 2) % Pow2(width - 1) by {
        HalfMod(v, Pow2(width - 1));
      }
      PopCountLowBits(v / 2, width - 1);
    }
  }

  lemma {:induction false} HalfMod(v: nat, p: nat)
    requires p >= 1
    ensures (v % (2 * p)) % 2 == v % 2 && (v % (2 * p)) / 2 == (v / 2) % p
  {
    var q := v / (2 * p);
    var m := v % (2 * p);
    assert v == 2 * (p * q + m / 2) + m % 2;
    DivModUnique(v, 2, p * q + m / 2, m % 2);
    DivModUnique(v / 2, p, q, m / 2);
  }
}
