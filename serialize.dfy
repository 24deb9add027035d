/**
 * The binary serializer and deserializer (include/khepri/io/serialize.hpp):
 * a byte buffer that values are appended to, a reader that walks a buffer and
 * throws when it runs out, little-endian fixed-width unsigned integers, floats
 * as their raw 32-bit pattern, and vectors as a uint32 count followed by the
 * elements.
 *
 * Each encoding is given as a function (`Enc...`) and each decoding as a
 * function from a buffer and a position to the value and the next position
 * (`Dec...`). The classes perform the same steps one byte at a time and are
 * proved to agree with those functions.
 */
module Serialize {
  import opened Errors
  import opened Bytes

  /** A float as its raw IEEE-754 bit pattern. */
  type FloatBits = Uint32

  /** A decoder reads a value at a position and yields the position after it. */
  type Decoder<T> = (seq<Byte>, nat) -> Result<(T, nat)>

  /** `bs` occurs in `data` starting at `pos`. */
  ghost predicate At(data: seq<Byte>, pos: nat, bs: seq<Byte>)
  {
    pos + |bs| <= |data| && data[pos..pos + |bs|] == bs
  }

  lemma {:induction false} AtSplit(data: seq<Byte>, pos: nat, a: seq<Byte>, b: seq<Byte>)
    requires At(data, pos, a + b)
    ensures At(data, pos, a) && At(data, pos + |a|, b)
  {
    assert data[pos..pos + |a|] == (a + b)[..|a|];
    assert data[pos + |a|..pos + |a| + |b|] == (a + b)[|a|..];
  }

  /** Decoding right after an encoding gives the encoded value back and consumes exactly it. */
  ghost predicate Inverts<T(!new)>(enc: T -> seq<Byte>, dec: Decoder<T>)
  {
    forall x: T, data: seq<Byte>, pos: nat {:trigger At(data, pos, enc(x))} ::
      At(data, pos, enc(x)) ==> dec(data, pos) == Ok((x, pos + |enc(x)|))
  }

  /**
   * A successful decode never looks past the bytes it consumed: it stays within
   * the buffer, and appending bytes does not change its outcome.
   */
  ghost predicate Monotone<T>(dec: Decoder<T>)
  {
    forall data: seq<Byte>, ext: seq<Byte>, pos: nat {:trigger dec(data + ext, pos)} ::
      dec(data, pos).Ok? ==>
        dec(data + ext, pos) == dec(data, pos) &&
        (pos <= |data| ==> pos <= dec(data, pos).value.1 <= |data|)
  }

  /** The decoder fails only with the I/O error "unexpected end of data" that `read<uint8_t>` throws. */
  ghost predicate FailsAtEnd<T>(dec: Decoder<T>)
  {
    forall data: seq<Byte>, pos: nat {:trigger dec(data, pos)} ::
      dec(data, pos).Err? ==> dec(data, pos).error == IoError
  }

  // ----- fixed-width unsigned integers and floats

  function EncU16(v: Uint16): seq<Byte> { LeBytes(v, 2) }

  function EncU32(v: Uint32): seq<Byte> { LeBytes(v, 4) }

  /** A float is written as the uint32 that holds its bit pattern. */
  function EncFloat(f: FloatBits): seq<Byte> { EncU32(f) }

  /** `read<uint8_t>`: the byte at the position, or an I/O error at the end of the data. */
  function DecByte(data: seq<Byte>, pos: nat): Result<(Byte, nat)>
  {
    if pos >= |data| then Err(IoError) else Ok((data[pos], pos + 1))
  }

  /** An unsigned value of `width` bytes, least significant first. */
  function DecFixed(width: nat, data: seq<Byte>, pos: nat): (r: Result<(nat, nat)>)
    ensures r.Ok? ==> r.value.0 < Pow256(width)
  {
    if pos + width > |data| then Err(IoError)
    else
      LeValueBound(data[pos..pos + width]);
      Ok((LeValue(data[pos..pos + width]), pos + width))
  }

  function DecU16(data: seq<Byte>, pos: nat): Result<(Uint16, nat)>
  {
    match DecFixed(2, data, pos)
    case Err(e) => Err(e)
    case Ok((v, p)) => assert Pow256(2) == 0x1_0000; Ok((v, p))
  }

  function DecU32(data: seq<Byte>, pos: nat): Result<(Uint32, nat)>
  {
    match DecFixed(4, data, pos)
    case Err(e) => Err(e)
    case Ok((v, p)) => assert Pow256(4) == 0x1_0000_0000; Ok((v, p))
  }

  function DecFloat(data: seq<Byte>, pos: nat): Result<(FloatBits, nat)>
  {
    DecU32(data, pos)
  }

  /** Reading a fixed-width value back from its encoding gives the value and consumes its width. */
  lemma {:induction false} FixedRoundTrip(v: nat, width: nat, data: seq<Byte>, pos: nat)
    requires v < Pow256(width) && At(data, pos, LeBytes(v, width))
    ensures DecFixed(width, data, pos) == Ok((v, pos + width))
  {
    LeRoundTripExact(v, width);
  }

  lemma {:induction false} U16Inverts()
    ensures Inverts(EncU16, DecU16)
  {
    forall x: Uint16, data: seq<Byte>, pos: nat | At(data, pos, EncU16(x))
      ensures DecU16(data, pos) == Ok((x, pos + |EncU16(x)|))
    {
      assert Pow256(2) == 0x1_0000;
      FixedRoundTrip(x, 2, data, pos);
    }
  }

  lemma {:induction false} U32Inverts()
    ensures Inverts(EncU32, DecU32)
  {
    forall x: Uint32, data: seq<Byte>, pos: nat | At(data, pos, EncU32(x))
      ensures DecU32(data, pos) == Ok((x, pos + |EncU32(x)|))
    {
      assert Pow256(4) == 0x1_0000_0000;
      FixedRoundTrip(x, 4, data, pos);
    }
  }

  /** The float round trip is bit-exact. */
  lemma {:induction false} FloatInverts()
    ensures Inverts(EncFloat, DecFloat)
  {
    U32Inverts();
    forall x: FloatBits, data: seq<Byte>, pos: nat | At(data, pos, EncFloat(x))
      ensures DecFloat(data, pos) == Ok((x, pos + |EncFloat(x)|))
    {
      assert DecU32(data, pos) == Ok((x, pos + |EncU32(x)|));
    }
  }

  lemma {:induction false} FixedMonotone(width: nat, data: seq<Byte>, ext: seq<Byte>, pos: nat)
    requires DecFixed(width, data, pos).Ok?
    ensures DecFixed(width, data + ext, pos) == DecFixed(width, data, pos)
  {
    assert (data + ext)[pos..pos + width] == data[pos..pos + width];
  }

  lemma {:induction false} U16Monotone()
    ensures Monotone(DecU16)
  {
    forall data: seq<Byte>, ext: seq<Byte>, pos: nat {:trigger DecU16(data + ext, pos)} | DecU16(data, pos).Ok?
      ensures DecU16(data + ext, pos) == DecU16(data, pos)
      ensures pos <= |data| ==> pos <= DecU16(data, pos).value.1 <= |data|
    {
      FixedMonotone(2, data, ext, pos);
    }
  }

  lemma {:induction false} U32Monotone()
    ensures Monotone(DecU32)
  {
    forall data: seq<Byte>, ext: seq<Byte>, pos: nat {:trigger DecU32(data + ext, pos)} | DecU32(data, pos).Ok?
      ensures DecU32(data + ext, pos) == DecU32(data, pos)
      ensures pos <= |data| ==> pos <= DecU32(data, pos).value.1 <= |data|
    {
      FixedMonotone(4, data, ext, pos);
    }
  }

  lemma {:induction false} FloatMonotone()
    ensures Monotone(DecFloat)
  {
    U32Monotone();
    forall data: seq<Byte>, ext: seq<Byte>, pos: nat {:trigger DecFloat(data + ext, pos)} | DecFloat(data, pos).Ok?
      ensures DecFloat(data + ext, pos) == DecFloat(data, pos)
      ensures pos <= |data| ==> pos <= DecFloat(data, pos).value.1 <= |data|
    {
      assert DecU32(data + ext, pos) == DecU32(data, pos);
    }
  }

  /** The fixed-width decoders run out of data or succeed. */
  lemma {:induction false} FixedFailAtEnd()
    ensures FailsAtEnd(DecU16) && FailsAtEnd(DecU32) && FailsAtEnd(DecFloat)
  {
  }

  // ----- vectors: a uint32 element count, then the elements

  function EncElems<T>(enc: T -> seq<Byte>, xs: seq<T>): seq<Byte>
  {
    if xs == [] then [] else enc(xs[0]) + EncElems(enc, xs[1..])
  }

  /** The count is cast to uint32, so only vectors below 2^32 elements keep their length. */
  function EncVector<T>(enc: T -> seq<Byte>, xs: seq<T>): seq<Byte>
  {
    EncU32(|xs| % 0x1_0000_0000) + EncElems(enc, xs)
  }

  function DecElems<T>(dec: Decoder<T>, n: nat, data: seq<Byte>, pos: nat): Result<(seq<T>, nat)>
  {
    if n == 0 then Ok(([], pos))
    else
      match dec(data, pos)
      case Err(e) => Err(e)
      case Ok((x, p)) =>
        match DecElems(dec, n - 1, data, p)
        case Err(e) => Err(e)
        case Ok((xs, q)) => Ok(([x] + xs, q))
  }

  function DecVector<T>(dec: Decoder<T>, data: seq<Byte>, pos: nat): Result<(seq<T>, nat)>
  {
    match DecU32(data, pos)
    case Err(e) => Err(e)
    case Ok((n, p)) => DecElems(dec, n, data, p)
  }

  /** Every element of `xs` reads back from its own encoding. */
  ghost predicate InvertsAll<T>(enc: T -> seq<Byte>, dec: Decoder<T>, xs: seq<T>)
  {
    forall i: nat, data: seq<Byte>, pos: nat {:trigger At(data, pos, enc(xs[i]))} ::
      i < |xs| && At(data, pos, enc(xs[i])) ==> dec(data, pos) == Ok((xs[i], pos + |enc(xs[i])|))
  }

  lemma {:induction false} InvertsEvery<T(!new)>(enc: T -> seq<Byte>, dec: Decoder<T>, xs: seq<T>)
    requires Inverts(enc, dec)
    ensures InvertsAll(enc, dec, xs)
  {
    forall i: nat, data: seq<Byte>, pos: nat | i < |xs| && At(data, pos, enc(xs[i]))
      ensures dec(data, pos) == Ok((xs[i], pos + |enc(xs[i])|))
    {
      var x := xs[i];
      assert At(data, pos, enc(x));
    }
  }

  lemma {:induction false} InvertsAllTail<T>(enc: T -> seq<Byte>, dec: Decoder<T>, xs: seq<T>)
    requires InvertsAll(enc, dec, xs) && xs != []
    ensures InvertsAll(enc, dec, xs[1..])
  {
    var rest := xs[1..];
    forall i: nat, data: seq<Byte>, pos: nat | i < |rest| && At(data, pos, enc(rest[i]))
      ensures dec(data, pos) == Ok((rest[i], pos + |enc(rest[i])|))
    {
      assert rest[i] == xs[i + 1];
    }
  }

  lemma {:induction false} ElemsRoundTrip<T>(enc: T -> seq<Byte>, dec: Decoder<T>, xs: seq<T>, data: seq<Byte>, pos: nat)
    requires InvertsAll(enc, dec, xs) && At(data, pos, EncElems(enc, xs))
    ensures DecElems(dec, |xs|, data, pos) == Ok((xs, pos + |EncElems(enc, xs)|))
  {
    if xs != [] {
      var x, rest := xs[0], xs[1..];
      var p := pos + |enc(x)|;
      assert EncElems(enc, xs) == enc(x) + EncElems(enc, rest);
      assert At(data, pos, enc(x)) && At(data, p, EncElems(enc, rest)) by {
        AtSplit(data, pos, enc(x), EncElems(enc, rest));
      }
      assert dec(data, pos) == Ok((x, p)) by {
        assert x == xs[0];
      }
      InvertsAllTail(enc, dec, xs);
      ElemsRoundTrip(enc, dec, rest, data, p);
      assert [x] + rest == xs;
    }
  }

  /** Decoding a vector's encoding yields the same vector, for every vector below 2^32 elements. */
  lemma {:induction false} VectorRoundTrip<T>(enc: T -> seq<Byte>, dec: Decoder<T>, xs: seq<T>, data: seq<Byte>, pos: nat)
    requires InvertsAll(enc, dec, xs) && |xs| < 0x1_0000_0000 && At(data, pos, EncVector(enc, xs))
    ensures DecVector(dec, data, pos) == Ok((xs, pos + |EncVector(enc, xs)|))
  {
    AtSplit(data, pos, EncU32(|xs|), EncElems(enc, xs));
    U32Inverts();
    assert DecU32(data, pos) == Ok((|xs|, pos + 4));
    ElemsRoundTrip(enc, dec, xs, data, pos + 4);
  }

  /** Puts decoded elements in front of the outcome of decoding the rest. */
  function Prepend<T>(xs: seq<T>, r: Result<(seq<T>, nat)>): Result<(seq<T>, nat)>
  {
    match r
    case Err(e) => Err(e)
    case Ok((ys, p)) => Ok((xs + ys, p))
  }

  lemma {:induction false} PrependNil<T>(r: Result<(seq<T>, nat)>)
    ensures Prepend([], r) == r
  {
    if r.Ok? {
      assert [] + r.value.0 == r.value.0;
    }
  }

  /** One decoded element moves from the pending count to the decoded prefix. */
  lemma {:induction false} ElemsStep<T>(dec: Decoder<T>, xs: seq<T>, n: nat, data: seq<Byte>, pos: nat, x: T, next: nat)
    requires n > 0 && dec(data, pos) == Ok((x, next))
    ensures Prepend(xs, DecElems(dec, n, data, pos)) == Prepend(xs + [x], DecElems(dec, n - 1, data, next))
  {
    var r := DecElems(dec, n - 1, data, next);
    if r.Ok? {
      assert xs + ([x] + r.value.0) == xs + [x] + r.value.0;
    }
  }

  /** A failing element fails the whole remaining sequence. */
  lemma {:induction false} ElemsFail<T>(dec: Decoder<T>, xs: seq<T>, n: nat, data: seq<Byte>, pos: nat)
    requires n > 0 && dec(data, pos).Err?
    ensures Prepend(xs, DecElems(dec, n, data, pos)).Err?
  {
  }

  lemma {:induction false} ElemsMonotone<T>(dec: Decoder<T>, n: nat, data: seq<Byte>, ext: seq<Byte>, pos: nat)
    requires Monotone(dec) && DecElems(dec, n, data, pos).Ok?
    ensures DecElems(dec, n, data + ext, pos) == DecElems(dec, n, data, pos)
    ensures pos <= |data| ==> pos <= DecElems(dec, n, data, pos).value.1 <= |data|
  {
    if n > 0 {
      assert dec(data + ext, pos) == dec(data, pos);
      var p := dec(data, pos).value.1;
      ElemsMonotone(dec, n - 1, data, ext, p);
    }
  }

  lemma {:induction false} ElemsFailAtEnd<T>(dec: Decoder<T>, n: nat, data: seq<Byte>, pos: nat)
    requires FailsAtEnd(dec) && DecElems(dec, n, data, pos).Err?
    ensures DecElems(dec, n, data, pos).error == IoError
  {
    if dec(data, pos).Ok? {
      ElemsFailAtEnd(dec, n - 1, data, dec(data, pos).value.1);
    }
  }

  /** A vector fails only by running out of data, in its count or in one of its elements. */
  lemma {:induction false} VectorFailsAtEnd<T>(dec: Decoder<T>)
    requires FailsAtEnd(dec)
    ensures forall data: seq<Byte>, pos: nat {:trigger DecVector(dec, data, pos)} ::
      DecVector(dec, data, pos).Err? ==> DecVector(dec, data, pos).error == IoError
  {
    FixedFailAtEnd();
    forall data: seq<Byte>, pos: nat | DecVector(dec, data, pos).Err?
      ensures DecVector(dec, data, pos).error == IoError
    {
      if DecU32(data, pos).Ok? {
        ElemsFailAtEnd(dec, DecU32(data, pos).value.0, data, DecU32(data, pos).value.1);
      }
    }
  }

  lemma {:induction false} VectorMonotone<T>(dec: Decoder<T>)
    requires Monotone(dec)
    ensures forall data: seq<Byte>, ext: seq<Byte>, pos: nat {:trigger DecVector(dec, data + ext, pos)} ::
      DecVector(dec, data, pos).Ok? ==>
        DecVector(dec, data + ext, pos) == DecVector(dec, data, pos) &&
        (pos <= |data| ==> pos <= DecVector(dec, data, pos).value.1 <= |data|)
  {
    U32Monotone();
    forall data: seq<Byte>, ext: seq<Byte>, pos: nat {:trigger DecVector(dec, data + ext, pos)}
      | DecVector(dec, data, pos).Ok?
      ensures DecVector(dec, data + ext, pos) == DecVector(dec, data, pos)
      ensures pos <= |data| ==> pos <= DecVector(dec, data, pos).value.1 <= |data|
    {
      assert DecU32(data + ext, pos) == DecU32(data, pos);
      ElemsMonotone(dec, DecU32(data, pos).value.0, data, ext, DecU32(data, pos).value.1);
    }
  }

  /**
   * Any input that stops short of a complete encoding makes decoding fail
   * with "unexpected end of data": `full` decodes by consuming all of it, so
   * no proper prefix of it decodes.
   */
  lemma {:induction false} Truncated<T>(dec: Decoder<T>, full: seq<Byte>, k: nat)
    requires Monotone(dec) && FailsAtEnd(dec)
    requires dec(full, 0).Ok? && dec(full, 0).value.1 == |full| && k < |full|
    ensures dec(full[..k], 0) == Err(IoError)
  {
    var head, tail := full[..k], full[k..];
    assert head + tail == full;
    assert dec(head + tail, 0) == dec(full, 0);
    assert dec(head, 0).Err?;
  }

  // ----- the buffers

  /** `Serializer`: a growing buffer of serialized bytes. */
  class Serializer {
    var data: seq<Byte>

    constructor ()
      ensures data == []
    {
      data := [];
    }

    /** `write<uint8_t>`: appends exactly that byte. */
    method WriteByte(x: Byte)
      modifies this
      ensures data == old(data) + [x]
    {
      data := data + [x];
    }

    /** `FixedWidthSerializeTraits::serialize`: `width` bytes, least significant first. */
    method WriteFixed(value: nat, width: nat)
      modifies this
      ensures data == old(data) + LeBytes(value, width)
    {
      var v := value;
      var i := 0;
      while i < width
        invariant 0 <= i <= width
        invariant data + LeBytes(v, width - i) == old(data) + LeBytes(value, width)
      {
        WriteByte(v % 256);
        v := v / 256;
        i := i + 1;
      }
    }

    method WriteU16(v: Uint16)
      modifies this
      ensures data == old(data) + EncU16(v)
    {
      WriteFixed(v, 2);
    }

    method WriteU32(v: Uint32)
      modifies this
      ensures data == old(data) + EncU32(v)
    {
      WriteFixed(v, 4);
    }

    method WriteFloat(f: FloatBits)
      modifies this
      ensures data == old(data) + EncFloat(f)
    {
      WriteU32(f);
    }
  }

  /** `Deserializer`: reads values from a buffer, starting at its first byte. */
  class Deserializer {
    const data: seq<Byte>
    var pos: nat

    ghost predicate Valid()
      reads this
    {
      pos <= |data|
    }

    constructor (bytes: seq<Byte>)
      ensures data == bytes && pos == 0 && Valid()
    {
      data := bytes;
      pos := 0;
    }

    /** `read<uint8_t>`: fails at the end of the data; otherwise yields the next byte and advances by one. */
    method ReadByte() returns (r: Result<Byte>)
      requires Valid()
      modifies this
      ensures Valid()
      ensures r.Err? <==> old(pos) >= |data|
      ensures r.Err? ==> r.error == IoError && pos == old(pos)
      ensures r.Ok? ==> r.value == data[old(pos)] && pos == old(pos) + 1
    {
      if pos >= |data| {
        return Err(IoError);
      }
      r := Ok(data[pos]);
      pos := pos + 1;
    }

    /** `FixedWidthSerializeTraits::deserialize`: ORs in one byte per step, each shifted 8 more bits. */
    method ReadFixed(width: nat) returns (r: Result<nat>)
      requires Valid()
      modifies this
      ensures Valid()
      ensures r.Err? <==> DecFixed(width, data, old(pos)).Err?
      ensures r.Ok? ==> r.value == DecFixed(width, data, old(pos)).value.0 && pos == old(pos) + width
      ensures r.Err? ==> r.error == IoError
    {
      var result := 0;
      var i := 0;
      ghost var start := pos;
      while i < width
        invariant 0 <= i <= width && pos == start + i && start + i <= |data|
        invariant result == LeValue(data[start..start + i]) && result < Pow256(i)
      {
        var b := ReadByte();
        if b.Err? {
          return Err(IoError);
        }
        ValueStep(data, start, i);
        result := result + b.value * Pow256(i);
        i := i + 1;
      }
      r := Ok(result);
    }

    method ReadU16() returns (r: Result<Uint16>)
      requires Valid()
      modifies this
      ensures Valid()
      ensures r.Ok? <==> DecU16(data, old(pos)).Ok?
      ensures r.Ok? ==> DecU16(data, old(pos)) == Ok((r.value, pos))
      ensures r.Err? ==> r.error == IoError
    {
      var v := ReadFixed(2);
      if v.Err? {
        return Err(v.error);
      }
      assert Pow256(2) == 0x1_0000;
      r := Ok(v.value);
    }

    method ReadU32() returns (r: Result<Uint32>)
      requires Valid()
      modifies this
      ensures Valid()
      ensures r.Ok? <==> DecU32(data, old(pos)).Ok?
      ensures r.Ok? ==> DecU32(data, old(pos)) == Ok((r.value, pos))
      ensures r.Err? ==> r.error == IoError
    {
      var v := ReadFixed(4);
      if v.Err? {
        return Err(v.error);
      }
      assert Pow256(4) == 0x1_0000_0000;
      r := Ok(v.value);
    }

    method ReadFloat() returns (r: Result<FloatBits>)
      requires Valid()
      modifies this
      ensures Valid()
      ensures r.Ok? <==> DecFloat(data, old(pos)).Ok?
      ensures r.Ok? ==> DecFloat(data, old(pos)) == Ok((r.value, pos))
      ensures r.Err? ==> r.error == IoError
    {
      r := ReadU32();
    }
  }

  lemma {:induction false} ValueStep(data: seq<Byte>, start: nat, i: nat)
    requires start + i < |data|
    ensures LeValue(data[start..start + i + 1]) == LeValue(data[start..start + i]) + data[start + i] * Pow256(i)
    ensures LeValue(data[start..start + i + 1]) < Pow256(i + 1)
  {
    PrefixValue(data[start..start + i + 1]);
    assert data[start..start + i + 1][..i] == data[start..start + i];
    LeValueBound(data[start..start + i + 1]);
  }

  /** The value of n+1 bytes is the value of the first n plus the last one scaled by 256^n. */
  lemma {:induction false} PrefixValue(bs: seq<Byte>)
    requires |bs| > 0
    ensures LeValue(bs) == LeValue(bs[..|bs| - 1]) + bs[|bs| - 1] * Pow256(|bs| - 1)
  {
    if |bs| > 1 {
      PrefixValue(bs[1..]);
      assert bs[1..][..|bs| - 2] == bs[..|bs| - 1][1..];
    }
  }
}
