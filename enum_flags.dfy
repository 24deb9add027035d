/**
 * Bit-flag operators on enumerations (include/khepri/utility/enum.hpp): each
 * operator works on the enumeration's underlying integer, here a 32-bit
 * value, and the compound assignments store the result through the
 * left-hand reference and return that reference.
 */
module EnumFlags {
  /** An enumeration value, as its underlying 32-bit integer. */
  type Flags = bv32

  /** A mask with exactly one bit set. */
  predicate SingleBit(m: Flags)
  {
    m != 0 && m & (m - 1) == 0
  }

  /** Whether x has the bit of the single-bit mask m set. */
  predicate Has(x: Flags, m: Flags)
  {
    x & m != 0
  }

  /** `~a`: every bit flipped. */
  function Complement(a: Flags): (r: Flags)
    ensures r & a == 0 && r | a == 0xFFFF_FFFF
  {
    !a
  }

  /** `a | b`: the bits set in either. */
  function Union(a: Flags, b: Flags): (r: Flags)
    ensures r & a == a && r & b == b
  {
    a | b
  }

  /** `a & b`: the bits set in both. */
  function Intersection(a: Flags, b: Flags): (r: Flags)
    ensures r & a == r && r & b == r
  {
    a & b
  }

  /** `a ^ b`: the bits set in exactly one. */
  function SymmetricDifference(a: Flags, b: Flags): (r: Flags)
    ensures r ^ b == a && r ^ a == b
  {
    a ^ b
  }

  /** A variable of enumeration type, the target of a compound assignment. */
  class FlagsVar {
    var value: Flags

    constructor (v: Flags)
      ensures value == v
    {
      value := v;
    }
  }

  /** `a |= b`: stores `a | b` in a and returns a. */
  method UnionAssign(a: FlagsVar, b: Flags) returns (r: FlagsVar)
    modifies a
    ensures r == a && a.value == Union(old(a.value), b)
  {
    a.value := Union(a.value, b);
    r := a;
  }

  /** `a &= b`: stores `a & b` in a and returns a. */
  method IntersectionAssign(a: FlagsVar, b: Flags) returns (r: FlagsVar)
    modifies a
    ensures r == a && a.value == Intersection(old(a.value), b)
  {
    a.value := Intersection(a.value, b);
    r := a;
  }

  /** `a ^= b`: stores `a ^ b` in a and returns a. */
  method SymmetricDifferenceAssign(a: FlagsVar, b: Flags) returns (r: FlagsVar)
    modifies a
    ensures r == a && a.value == SymmetricDifference(old(a.value), b)
  {
    a.value := SymmetricDifference(a.value, b);
    r := a;
  }

  // ----- properties

  /** Two values with the same bits are equal, so the per-bit lemmas below determine each operator. */
  lemma {:induction false} BitsDetermine(x: Flags, y: Flags)
    requires forall m :: SingleBit(m) ==> (Has(x, m) <==> Has(y, m))
    ensures x == y
  {
    if x != y {
      LowestDifferingBit(x, y);
    }
  }

  /** Two different values differ in their lowest differing bit. */
  lemma {:induction false} LowestDifferingBit(x: Flags, y: Flags)
    requires x != y
    ensures var m := (x ^ y) & -(x ^ y); SingleBit(m) && Has(x, m) != Has(y, m)
  {
  }

  /** A single-bit mask picks either nothing or itself out of any value. */
  lemma {:induction false} Masked(a: Flags, m: Flags)
    requires SingleBit(m)
    ensures a & m == 0 || a & m == m
  {
  }

  lemma {:induction false} ComplementMask(a: Flags, m: Flags)
    ensures !a & m == m ^ (a & m)
  {
  }

  lemma {:induction false} UnionMask(a: Flags, b: Flags, m: Flags)
    ensures (a | b) & m == (a & m) | (b & m)
  {
  }

  lemma {:induction false} IntersectionMask(a: Flags, b: Flags, m: Flags)
    ensures (a & b) & m == (a & m) & (b & m)
  {
  }

  lemma {:induction false} SymmetricDifferenceMask(a: Flags, b: Flags, m: Flags)
    ensures (a ^ b) & m == (a & m) ^ (b & m)
  {
  }

  /** `~a` has exactly the bits a lacks. */
  lemma {:induction false} ComplementBits(a: Flags, m: Flags)
    requires SingleBit(m)
    ensures Has(Complement(a), m) <==> !Has(a, m)
  {
    Masked(a, m);
    ComplementMask(a, m);
    assert m ^ m == 0 && m ^ 0 == m;
  }

  /** `a | b` has the bits set in either. */
  lemma {:induction false} UnionBits(a: Flags, b: Flags, m: Flags)
    requires SingleBit(m)
    ensures Has(Union(a, b), m) <==> Has(a, m) || Has(b, m)
  {
    Masked(a, m);
    Masked(b, m);
    UnionMask(a, b, m);
    if a & m == 0 {
      assert (0 as Flags) | (b & m) == b & m;
    } else {
      assert m | (b & m) == m;
    }
  }

  /** `a & b` has the bits set in both. */
  lemma {:induction false} IntersectionBits(a: Flags, b: Flags, m: Flags)
    requires SingleBit(m)
    ensures Has(Intersection(a, b), m) <==> Has(a, m) && Has(b, m)
  {
    Masked(a, m);
    Masked(b, m);
    IntersectionMask(a, b, m);
    assert m & m == m && m & 0 == 0 && 0 & m == 0 && (0 as Flags) & 0 == 0;
  }

  /** `a ^ b` has the bits set in exactly one. */
  lemma {:induction false} SymmetricDifferenceBits(a: Flags, b: Flags, m: Flags)
    requires SingleBit(m)
    ensures Has(SymmetricDifference(a, b), m) <==> Has(a, m) != Has(b, m)
  {
    Masked(a, m);
    Masked(b, m);
    SymmetricDifferenceMask(a, b, m);
    assert m ^ m == 0 && m ^ 0 == m && 0 ^ m == m && (0 as Flags) ^ 0 == 0;
  }

  /** `a | a == a` and `a & a == a`. */
  lemma {:induction false} Idempotent(a: Flags)
    ensures Union(a, a) == a && Intersection(a, a) == a
  {
  }

  /** `(a ^ b) ^ b == a`. */
  lemma {:induction false} SymmetricDifferenceInvolutive(a: Flags, b: Flags)
    ensures SymmetricDifference(SymmetricDifference(a, b), b) == a
  {
  }

  /** `~~a == a`. */
  lemma {:induction false} ComplementInvolutive(a: Flags)
    ensures Complement(Complement(a)) == a
  {
  }
}
