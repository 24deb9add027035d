/**
 * Bytes, fixed-width unsigned integers and their little-endian byte encoding.
 */
module Bytes {
  type Byte = b: int | 0 <= b < 256
  type Uint16 = v: int | 0 <= v < 0x1_0000
  type Uint32 = v: int | 0 <= v < 0x1_0000_0000

  /** 2 to the power n: the number of values that fit in n bits. */
  function Pow2(n: nat): (r: nat)
    ensures r >= 1
  {
    if n == 0 then 1 else 2 * Pow2(n - 1)
  }

  /** 256 to the power n: the number of values that fit in n bytes. */
  function Pow256(n: nat): (r: nat)
    ensures r >= 1
  {
    if n == 0 then 1 else 256 * Pow256(n - 1)
  }

  /** The low `width` bytes of `v`, least significant first. */
  function LeBytes(v: nat, width: nat): (r: seq<Byte>)
    ensures |r| == width
  {
    if width == 0 then [] else [v % 256] + LeBytes(v / 256, width - 1)
  }

  /** The unsigned value of a little-endian byte sequence. */
  function LeValue(bs: seq<Byte>): nat
  {
    if |bs| == 0 then 0 else bs[0] + 256 * LeValue(bs[1..])
  }

  lemma {:induction false} DivModUnique(v: int, d: int, q: int, r: int)
    requires d > 0 && v == d * q + r && 0 <= r < d
    ensures v / d == q && v % d == r
  {
    var k := v / d - q;
    assert d * k == r - v % d;
    MulSign(d, k);
  }

  lemma {:induction false} MulSign(d: int, k: int)
    requires d > 0
    ensures k >= 1 ==> d * k >= d
    ensures k <= -1 ==> d * k <= -d
  {
  }

  /** A value read back from n bytes is below 256^n. */
  lemma {:induction false} LeValueBound(bs: seq<Byte>)
    ensures LeValue(bs) < Pow256(|bs|)
  {
    if |bs| > 0 {
      LeValueBound(bs[1..]);
      assert LeValue(bs[1..]) + 1 <= Pow256(|bs| - 1);
    }
  }

  /** Decoding the encoding of v gives v reduced modulo 256^width. */
  lemma {:induction false} LeRoundTrip(v: nat, width: nat)
    ensures LeValue(LeBytes(v, width)) == v % Pow256(width)
  {
    if width > 0 {
      var p := Pow256(width - 1);
      LeRoundTrip(v / 256, width - 1);
      var b := (v / 256) % p;
      var a := (v / 256) / p;
      assert LeBytes(v, width)[1..] == LeBytes(v / 256, width - 1);
      assert v == 256 * p * a + (256 * b + v % 256);
      DivModUnique(v, 256 * p, a, 256 * b + v % 256);
    }
  }

  /** A value below 256^width survives the round trip unchanged. */
  lemma {:induction false} LeRoundTripExact(v: nat, width: nat)
    requires v < Pow256(width)
    ensures LeValue(LeBytes(v, width)) == v
  {
    LeRoundTrip(v, width);
    DivModUnique(v, Pow256(width), 0, v);
  }

  /** Encoding the value of n bytes in n bytes gives the same bytes back. */
  lemma {:induction false} LeBytesOfValue(bs: seq<Byte>)
    ensures LeBytes(LeValue(bs), |bs|) == bs
  {
    if |bs| > 0 {
      var v := LeValue(bs);
      var rest := LeValue(bs[1..]);
      DivModUnique(v, 256, rest, bs[0]);
      LeBytesOfValue(bs[1..]);
    }
  }

  /** A zero-filled buffer, as a freshly sized byte vector is. */
  function Zeros(n: nat): (r: seq<Byte>)
    ensures |r| == n && forall i :: 0 <= i < n ==> r[i] == 0
  {
    seq(n, _ => 0)
  }

  lemma {:induction false} ZerosAdd(a: nat, b: nat)
    ensures Zeros(a + b) == Zeros(a) + Zeros(b)
  {
    assert Zeros(a + b) == Zeros(a) + Zeros(b);
  }

  // ----- products of sizes

  lemma {:induction false} MulPred(k: nat, m: nat)
    requires k > 0
    ensures (k - 1) * m + m == k * m
  {
  }

  lemma {:induction false} MulNat(a: nat, b: nat)
    ensures a * b >= 0
  {
  }

  lemma {:induction false} MulMono(a: nat, b: nat, m: nat)
    requires a <= b
    ensures a * m <= b * m
  {
  }
}
