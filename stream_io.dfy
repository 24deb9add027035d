/**
 * The fixed-width and string helpers every stream offers (src/io/stream.cpp):
 * little-endian reads and writes that either move exactly their width or
 * fail with an I/O error, and strings prefixed by a 16-bit length.
 */
module StreamIO {
  import opened Errors
  import opened Bytes
  import opened Streams

  const UINT16_MAX: nat := 0xFFFF

  /** Reading `count` bytes succeeds only when all of them arrive; a short read still moves the position. */
  function ReadCheckedSpec(s: StreamState, count: nat): (r: Step<seq<Byte>>)
    requires s.Valid()
    ensures r.stream.Valid()
    ensures r.result.Ok? <==> count == 0 || (s.readable && s.pos + count <= |s.bytes|)
    ensures r.result.Ok? ==> r.result.value == s.bytes[s.pos..s.pos + count] && r.stream == s.(pos := s.pos + count)
    ensures r.result.Err? ==> r.result.error == IoError && r.stream.pos <= |s.bytes|
  {
    var (t, got) := ReadSpec(s, count);
    if |got| != count then Step(t, Err(IoError)) else Step(t, Ok(got))
  }

  /** Writing succeeds only when every byte is written. */
  function WriteCheckedSpec(s: StreamState, bs: seq<Byte>): (r: Step<()>)
    requires s.Valid()
    ensures r.stream.Valid()
    ensures r.result.Ok? <==> s.writable || bs == []
    ensures r.result.Err? ==> r.result.error == IoError && r.stream == s
  {
    var (t, n) := WriteSpec(s, bs);
    if n != |bs| then Step(t, Err(IoError)) else Step(t, Ok(()))
  }

  /** The value of `width` little-endian bytes read from the stream. */
  function ReadUnsignedSpec(s: StreamState, width: nat): (r: Step<nat>)
    requires s.Valid()
    ensures r.stream.Valid()
    ensures r.result.Ok? ==> r.result.value < Pow256(width)
  {
    var c := ReadCheckedSpec(s, width);
    match c.result
    case Err(e) => Step(c.stream, Err(e))
    case Ok(bs) => LeValueBound(bs); Step(c.stream, Ok(LeValue(bs)))
  }

  /** Two's-complement reading of an unsigned value of `bits` bits. */
  function Signed(v: nat, bits: nat): int
  {
    if v < Pow2(bits) / 2 then v else v - Pow2(bits)
  }

  // ----- reads

  function ReadShortSpec(s: StreamState): Step<int>
    requires s.Valid()
  {
    var r := ReadUnsignedSpec(s, 2);
    if r.result.Err? then Step(r.stream, Err(r.result.error)) else Step(r.stream, Ok(Signed(r.result.value, 16)))
  }

  function ReadIntSpec(s: StreamState): Step<int>
    requires s.Valid()
  {
    var r := ReadUnsignedSpec(s, 4);
    if r.result.Err? then Step(r.stream, Err(r.result.error)) else Step(r.stream, Ok(Signed(r.result.value, 32)))
  }

  /** A signed byte converted to unsigned char keeps its bit pattern. */
  function ReadByteSpec(s: StreamState): (r: Step<Byte>)
    requires s.Valid()
  {
    var r := ReadUnsignedSpec(s, 1);
    if r.result.Err? then Step(r.stream, Err(r.result.error)) else Step(r.stream, Ok(r.result.value))
  }

  /** The unsigned 16-bit read as intended: the stored value itself. */
  function ReadUShortSpec(s: StreamState): Step<Uint16>
    requires s.Valid()
  {
    var r := ReadUnsignedSpec(s, 2);
    if r.result.Err? then Step(r.stream, Err(r.result.error)) else Step(r.stream, Ok(r.result.value))
  }

  /** The unsigned 32-bit read as intended: the stored value itself. */
  function ReadUintSpec(s: StreamState): Step<Uint32>
    requires s.Valid()
  {
    var r := ReadUnsignedSpec(s, 4);
    if r.result.Err? then Step(r.stream, Err(r.result.error)) else Step(r.stream, Ok(r.result.value))
  }

  /**
   * read_ushort as written: the bytes land in a std::int16_t, which is then
   * converted to a 32-bit unsigned int, so values from 0x8000 up wrap to
   * 2^32 - 2^16 + v.
   */
  function ReadUShortAsWrittenSpec(s: StreamState): Step<nat>
    requires s.Valid()
  {
    var r := ReadUnsignedSpec(s, 2);
    if r.result.Err? then Step(r.stream, Err(r.result.error))
    else Step(r.stream, Ok(Signed(r.result.value, 16) % Pow2(32)))
  }

  /**
   * read_uint as written: the bytes land in a std::int32_t, which is then
   * converted to unsigned long; with a 64-bit unsigned long (LP64) values
   * from 2^31 up become 2^64 - 2^32 + v.
   */
  function ReadUintAsWrittenSpec(s: StreamState): Step<nat>
    requires s.Valid()
  {
    var r := ReadUnsignedSpec(s, 4);
    if r.result.Err? then Step(r.stream, Err(r.result.error))
    else Step(r.stream, Ok(Signed(r.result.value, 32) % Pow2(64)))
  }

  function ReadFloatSpec(s: StreamState): Step<Uint32>
    requires s.Valid()
  {
    ReadUintSpec(s)
  }

  function ReadBoolSpec(s: StreamState): Step<bool>
    requires s.Valid()
  {
    var r := ReadByteSpec(s);
    if r.result.Err? then Step(r.stream, Err(r.result.error)) else Step(r.stream, Ok(r.result.value != 0))
  }

  /** The length prefix, then that many bytes; a zero length reads nothing more. */
  function ReadStringSpec(s: StreamState): Step<seq<Byte>>
    requires s.Valid()
  {
    var n := ReadUShortSpec(s);
    if n.result.Err? then Step(n.stream, Err(n.result.error))
    else if n.result.value == 0 then Step(n.stream, Ok([]))
    else ReadCheckedSpec(n.stream, n.result.value)
  }

  /** read_string over the as-written read_ushort. */
  function ReadStringAsWrittenSpec(s: StreamState): Step<seq<Byte>>
    requires s.Valid()
  {
    var n := ReadUShortAsWrittenSpec(s);
    if n.result.Err? then Step(n.stream, Err(n.result.error))
    else if n.result.value == 0 then Step(n.stream, Ok([]))
    else ReadCheckedSpec(n.stream, n.result.value)
  }

  // ----- writes

  /** The argument is cast to 16 bits unsigned, keeping its low 16 bits. */
  function WriteShortSpec(s: StreamState, x: int): Step<()>
    requires s.Valid()
  {
    WriteCheckedSpec(s, LeBytes(x % 0x1_0000, 2))
  }

  function WriteIntSpec(s: StreamState, x: int): Step<()>
    requires s.Valid()
  {
    WriteCheckedSpec(s, LeBytes(x % 0x1_0000_0000, 4))
  }

  function WriteByteSpec(s: StreamState, b: Byte): Step<()>
    requires s.Valid()
  {
    WriteCheckedSpec(s, [b])
  }

  function WriteUShortSpec(s: StreamState, x: nat): Step<()>
    requires s.Valid()
  {
    WriteCheckedSpec(s, LeBytes(x % 0x1_0000, 2))
  }

  function WriteUintSpec(s: StreamState, x: nat): Step<()>
    requires s.Valid()
  {
    WriteCheckedSpec(s, LeBytes(x % 0x1_0000_0000, 4))
  }

  function WriteFloatSpec(s: StreamState, f: Uint32): Step<()>
    requires s.Valid()
  {
    WriteCheckedSpec(s, LeBytes(f, 4))
  }

  function WriteBoolSpec(s: StreamState, b: bool): Step<()>
    requires s.Valid()
  {
    WriteByteSpec(s, if b then 1 else 0)
  }

  /** The length as a 16-bit value, then the bytes; callers keep strings within 65535 bytes. */
  function WriteStringSpec(s: StreamState, str: seq<Byte>): Step<()>
    requires s.Valid() && |str| <= UINT16_MAX
  {
    var n := WriteUShortSpec(s, |str|);
    if n.result.Err? then n else WriteCheckedSpec(n.stream, str)
  }

  // ----- the helpers as operations on a stream object

  method ReadChecked(s: ByteStream, count: nat) returns (r: Result<seq<Byte>>)
    requires s.Valid()
    modifies s
    ensures s.Valid() && Step(s.State(), r) == ReadCheckedSpec(old(s.State()), count)
  {
    var got := s.Read(count);
    if |got| != count {
      r := Err(IoError);
    } else {
      r := Ok(got);
    }
  }

  method WriteChecked(s: ByteStream, bs: seq<Byte>) returns (r: Result<()>)
    requires s.Valid()
    modifies s
    ensures s.Valid() && Step(s.State(), r) == WriteCheckedSpec(old(s.State()), bs)
  {
    var n := s.Write(bs);
    if n != |bs| {
      r := Err(IoError);
    } else {
      r := Ok(());
    }
  }

  method ReadUnsigned(s: ByteStream, width: nat) returns (r: Result<nat>)
    requires s.Valid()
    modifies s
    ensures s.Valid() && Step(s.State(), r) == ReadUnsignedSpec(old(s.State()), width)
  {
    var bs := ReadChecked(s, width);
    if bs.Err? {
      return Err(bs.error);
    }
    r := Ok(LeValue(bs.value));
  }

  method ReadShort(s: ByteStream) returns (r: Result<int>)
    requires s.Valid()
    modifies s
    ensures s.Valid() && Step(s.State(), r) == ReadShortSpec(old(s.State()))
  {
    var v := ReadUnsigned(s, 2);
    if v.Err? {
      return Err(v.error);
    }
    r := Ok(Signed(v.value, 16));
  }

  method ReadInt(s: ByteStream) returns (r: Result<int>)
    requires s.Valid()
    modifies s
    ensures s.Valid() && Step(s.State(), r) == ReadIntSpec(old(s.State()))
  {
    var v := ReadUnsigned(s, 4);
    if v.Err? {
      return Err(v.error);
    }
    r := Ok(Signed(v.value, 32));
  }

  method ReadByte(s: ByteStream) returns (r: Result<Byte>)
    requires s.Valid()
    modifies s
    ensures s.Valid() && Step(s.State(), r) == ReadByteSpec(old(s.State()))
  {
    var v := ReadUnsigned(s, 1);
    if v.Err? {
      return Err(v.error);
    }
    assert Pow256(1) == 256;
    r := Ok(v.value);
  }

  method ReadUShort(s: ByteStream) returns (r: Result<Uint16>)
    requires s.Valid()
    modifies s
    ensures s.Valid() && Step(s.State(), r) == ReadUShortSpec(old(s.State()))
  {
    var v := ReadUnsigned(s, 2);
    if v.Err? {
      return Err(v.error);
    }
    assert Pow256(2) == 0x1_0000;
    r := Ok(v.value);
  }

  method ReadUint(s: ByteStream) returns (r: Result<Uint32>)
    requires s.Valid()
    modifies s
    ensures s.Valid() && Step(s.State(), r) == ReadUintSpec(old(s.State()))
  {
    var v := ReadUnsigned(s, 4);
    if v.Err? {
      return Err(v.error);
    }
    assert Pow256(4) == 0x1_0000_0000;
    r := Ok(v.value);
  }

  method ReadUShortAsWritten(s: ByteStream) returns (r: Result<nat>)
    requires s.Valid()
    modifies s
    ensures s.Valid() && Step(s.State(), r) == ReadUShortAsWrittenSpec(old(s.State()))
  {
    var v := ReadUnsigned(s, 2);
    if v.Err? {
      return Err(v.error);
    }
    r := Ok(Signed(v.value, 16) % Pow2(32));
  }

  method ReadUintAsWritten(s: ByteStream) returns (r: Result<nat>)
    requires s.Valid()
    modifies s
    ensures s.Valid() && Step(s.State(), r) == ReadUintAsWrittenSpec(old(s.State()))
  {
    var v := ReadUnsigned(s, 4);
    if v.Err? {
      return Err(v.error);
    }
    r := Ok(Signed(v.value, 32) % Pow2(64));
  }

  method ReadFloat(s: ByteStream) returns (r: Result<Uint32>)
    requires s.Valid()
    modifies s
    ensures s.Valid() && Step(s.State(), r) == ReadFloatSpec(old(s.State()))
  {
    r := ReadUint(s);
  }

  method ReadBool(s: ByteStream) returns (r: Result<bool>)
    requires s.Valid()
    modifies s
    ensures s.Valid() && Step(s.State(), r) == ReadBoolSpec(old(s.State()))
  {
    var b := ReadByte(s);
    if b.Err? {
      return Err(b.error);
    }
    r := Ok(b.value != 0);
  }

  method ReadString(s: ByteStream) returns (r: Result<seq<Byte>>)
    requires s.Valid()
    modifies s
    ensures s.Valid() && Step(s.State(), r) == ReadStringSpec(old(s.State()))
  {
    var n := ReadUShort(s);
    if n.Err? {
      return Err(n.error);
    }
    if n.value == 0 {
      return Ok([]);
    }
    r := ReadChecked(s, n.value);
  }

  method WriteShort(s: ByteStream, x: int) returns (r: Result<()>)
    requires s.Valid()
    modifies s
    ensures s.Valid() && Step(s.State(), r) == WriteShortSpec(old(s.State()), x)
  {
    r := WriteChecked(s, LeBytes(x % 0x1_0000, 2));
  }

  method WriteInt(s: ByteStream, x: int) returns (r: Result<()>)
    requires s.Valid()
    modifies s
    ensures s.Valid() && Step(s.State(), r) == WriteIntSpec(old(s.State()), x)
  {
    r := WriteChecked(s, LeBytes(x % 0x1_0000_0000, 4));
  }

  method WriteByte(s: ByteStream, b: Byte) returns (r: Result<()>)
    requires s.Valid()
    modifies s
    ensures s.Valid() && Step(s.State(), r) == WriteByteSpec(old(s.State()), b)
  {
    r := WriteChecked(s, [b]);
  }

  method WriteUShort(s: ByteStream, x: nat) returns (r: Result<()>)
    requires s.Valid()
    modifies s
    ensures s.Valid() && Step(s.State(), r) == WriteUShortSpec(old(s.State()), x)
  {
    r := WriteChecked(s, LeBytes(x % 0x1_0000, 2));
  }

  method WriteUint(s: ByteStream, x: nat) returns (r: Result<()>)
    requires s.Valid()
    modifies s
    ensures s.Valid() && Step(s.State(), r) == WriteUintSpec(old(s.State()), x)
  {
    r := WriteChecked(s, LeBytes(x % 0x1_0000_0000, 4));
  }

  method WriteFloat(s: ByteStream, f: Uint32) returns (r: Result<()>)
    requires s.Valid()
    modifies s
    ensures s.Valid() && Step(s.State(), r) == WriteFloatSpec(old(s.State()), f)
  {
    r := WriteChecked(s, LeBytes(f, 4));
  }

  method WriteBool(s: ByteStream, b: bool) returns (r: Result<()>)
    requires s.Valid()
    modifies s
    ensures s.Valid() && Step(s.State(), r) == WriteBoolSpec(old(s.State()), b)
  {
    r := WriteByte(s, if b then 1 else 0);
  }

  method WriteString(s: ByteStream, str: seq<Byte>) returns (r: Result<()>)
    requires s.Valid() && |str| <= UINT16_MAX
    modifies s
    ensures s.Valid() && Step(s.State(), r) == WriteStringSpec(old(s.State()), str)
  {
    r := WriteUShort(s, |str|);
    if r.Err? {
      return;
    }
    r := WriteChecked(s, str);
  }

  // ----- properties

  /** A stream that can be written and read back from where the write started. */
  predicate ReadWrite(s: StreamState)
  {
    s.Valid() && s.readable && s.writable
  }

  /** The stream after `w`, positioned back where `s` was. */
  function Rewound(s: StreamState, w: Step<()>): StreamState
  {
    w.stream.(pos := s.pos)
  }

  /** Writing `width` bytes of `v` and reading them back gives v modulo 256^width. */
  lemma {:induction false} UnsignedRoundTrip(s: StreamState, v: nat, width: nat)
    requires ReadWrite(s)
    ensures var w := WriteCheckedSpec(s, LeBytes(v, width));
      w.result.Ok? && Rewound(s, w).Valid() &&
      ReadUnsignedSpec(Rewound(s, w), width) == Step(w.stream, Ok(v % Pow256(width)))
  {
    var w := WriteCheckedSpec(s, LeBytes(v, width));
    LeRoundTrip(v, width);
  }

  lemma {:induction false} ShortRoundTrip(s: StreamState, x: int)
    requires ReadWrite(s)
    ensures var w := WriteShortSpec(s, x);
      w.result.Ok? && Rewound(s, w).Valid() &&
      ReadShortSpec(Rewound(s, w)).result == Ok(Signed(x % 0x1_0000, 16))
    ensures -0x8000 <= x < 0x8000 ==> Signed(x % 0x1_0000, 16) == x
  {
    var v := x % 0x1_0000;
    UnsignedRoundTrip(s, v, 2);
    assert Pow256(2) == 0x1_0000 && v % 0x1_0000 == v;
    if -0x8000 <= x < 0x8000 {
      SignedWrap16(x);
    }
  }

  /** A 16-bit signed value survives wrapping to 16 bits and reading back as signed. */
  lemma {:induction false} SignedWrap16(x: int)
    requires -0x8000 <= x < 0x8000
    ensures Signed(x % 0x1_0000, 16) == x
  {
    Pow2Value16();
    if x < 0 {
      assert x % 0x1_0000 == x + 0x1_0000;
    } else {
      assert x % 0x1_0000 == x;
    }
  }

  lemma {:induction false} IntRoundTrip(s: StreamState, x: int)
    requires ReadWrite(s)
    ensures var w := WriteIntSpec(s, x);
      w.result.Ok? && Rewound(s, w).Valid() &&
      ReadIntSpec(Rewound(s, w)).result == Ok(Signed(x % 0x1_0000_0000, 32))
    ensures -0x8000_0000 <= x < 0x8000_0000 ==> Signed(x % 0x1_0000_0000, 32) == x
  {
    var v := x % 0x1_0000_0000;
    UnsignedRoundTrip(s, v, 4);
    assert Pow256(4) == 0x1_0000_0000 && v % 0x1_0000_0000 == v;
    if -0x8000_0000 <= x < 0x8000_0000 {
      SignedWrap32(x);
    }
  }

  /** A 32-bit signed value survives wrapping to 32 bits and reading back as signed. */
  lemma {:induction false} SignedWrap32(x: int)
    requires -0x8000_0000 <= x < 0x8000_0000
    ensures Signed(x % 0x1_0000_0000, 32) == x
  {
    Pow2Value32();
    if x < 0 {
      assert x % 0x1_0000_0000 == x + 0x1_0000_0000;
    } else {
      assert x % 0x1_0000_0000 == x;
    }
  }

  lemma {:induction false} ByteRoundTrip(s: StreamState, b: Byte)
    requires ReadWrite(s)
    ensures var w := WriteByteSpec(s, b);
      w.result.Ok? && Rewound(s, w).Valid() && ReadByteSpec(Rewound(s, w)).result == Ok(b)
  {
    assert LeBytes(b, 1) == [b];
    UnsignedRoundTrip(s, b, 1);
  }

  lemma {:induction false} BoolRoundTrip(s: StreamState, b: bool)
    requires ReadWrite(s)
    ensures var w := WriteBoolSpec(s, b);
      w.result.Ok? && Rewound(s, w).Valid() && ReadBoolSpec(Rewound(s, w)).result == Ok(b)
  {
    ByteRoundTrip(s, if b then 1 else 0);
  }

  /** The intended unsigned reads return the written value's low 16 or 32 bits. */
  lemma {:induction false} UShortRoundTrip(s: StreamState, x: nat)
    requires ReadWrite(s)
    ensures var w := WriteUShortSpec(s, x);
      w.result.Ok? && Rewound(s, w).Valid() &&
      ReadUShortSpec(Rewound(s, w)) == Step(w.stream, Ok(x % 0x1_0000))
  {
    UnsignedRoundTrip(s, x % 0x1_0000, 2);
    assert Pow256(2) == 0x1_0000;
  }

  lemma {:induction false} UintRoundTrip(s: StreamState, x: nat)
    requires ReadWrite(s)
    ensures var w := WriteUintSpec(s, x);
      w.result.Ok? && Rewound(s, w).Valid() &&
      ReadUintSpec(Rewound(s, w)) == Step(w.stream, Ok(x % 0x1_0000_0000))
  {
    UnsignedRoundTrip(s, x % 0x1_0000_0000, 4);
    assert Pow256(4) == 0x1_0000_0000;
  }

  lemma {:induction false} FloatRoundTrip(s: StreamState, f: Uint32)
    requires ReadWrite(s)
    ensures var w := WriteFloatSpec(s, f);
      w.result.Ok? && Rewound(s, w).Valid() && ReadFloatSpec(Rewound(s, w)).result == Ok(f)
  {
    assert f % 0x1_0000_0000 == f;
    assert WriteFloatSpec(s, f) == WriteUintSpec(s, f);
    UintRoundTrip(s, f);
  }

  /** A checked write leaves the bytes before its position as they were. */
  lemma {:induction false} WriteKeeps(m: StreamState, bs: seq<Byte>, lo: nat, hi: nat)
    requires m.Valid() && m.writable && lo <= hi <= m.pos
    ensures WriteCheckedSpec(m, bs).stream.bytes[lo..hi] == m.bytes[lo..hi]
  {
    var r := Overwrite(m.bytes, m.pos, bs);
    assert r[..m.pos] == m.bytes[..m.pos];
    assert r[lo..hi] == r[..m.pos][lo..hi];
  }

  /** What writing a string leaves at the position: the 16-bit length, then the bytes. */
  lemma {:induction false} StringLayout(s: StreamState, str: seq<Byte>)
    requires ReadWrite(s) && |str| <= UINT16_MAX
    ensures var w := WriteStringSpec(s, str);
      w.result.Ok? && ReadWrite(w.stream) && w.stream.pos == s.pos + 2 + |str| &&
      w.stream.bytes[s.pos..s.pos + 2] == LeBytes(|str|, 2) &&
      w.stream.bytes[s.pos + 2..s.pos + 2 + |str|] == str
  {
    var len := LeBytes(|str|, 2);
    assert |str| % 0x1_0000 == |str|;
    OverwriteChecked(s, len);
    var m := s.(bytes := Overwrite(s.bytes, s.pos, len), pos := s.pos + 2);
    assert m.bytes[s.pos..s.pos + 2] == len;
    OverwriteChecked(m, str);
    WriteKeeps(m, str, s.pos, s.pos + 2);
  }

  /** A string written and read back with the intended read_ushort is unchanged, the empty string included. */
  lemma {:induction false} StringRoundTrip(s: StreamState, str: seq<Byte>)
    requires ReadWrite(s) && |str| <= UINT16_MAX
    ensures var w := WriteStringSpec(s, str);
      w.result.Ok? && Rewound(s, w).Valid() &&
      ReadStringSpec(Rewound(s, w)) == Step(w.stream, Ok(str))
  {
    StringLayout(s, str);
    var w := WriteStringSpec(s, str);
    var t := Rewound(s, w);
    UShortAt(t, |str|);
  }

  /** Conversely, a successful unsigned read found the encoding of its value at the position. */
  lemma {:induction false} UnsignedReadBytes(t: StreamState, width: nat)
    requires t.Valid()
    ensures var r := ReadUnsignedSpec(t, width);
      r.result.Ok? ==>
        t.pos + width <= |t.bytes| && r.stream == t.(pos := t.pos + width) &&
        t.bytes[t.pos..t.pos + width] == LeBytes(r.result.value, width)
  {
    var c := ReadCheckedSpec(t, width);
    if c.result.Ok? {
      LeBytesOfValue(c.result.value);
    }
  }

  /** Reading a 16-bit value whose bytes sit at the position. */
  lemma {:induction false} UShortAt(t: StreamState, x: Uint16)
    requires t.Valid() && t.readable && t.pos + 2 <= |t.bytes| && t.bytes[t.pos..t.pos + 2] == LeBytes(x, 2)
    ensures ReadUShortSpec(t) == Step(t.(pos := t.pos + 2), Ok(x))
    ensures ReadUShortAsWrittenSpec(t) == Step(t.(pos := t.pos + 2), Ok(Signed(x, 16) % Pow2(32)))
  {
    LeRoundTrip(x, 2);
    assert Pow256(2) == 0x1_0000;
  }

  /** Reading a signed 16-bit value whose bytes sit at the position. */
  lemma {:induction false} ShortAt(t: StreamState, x: Uint16)
    requires t.Valid() && t.readable && t.pos + 2 <= |t.bytes| && t.bytes[t.pos..t.pos + 2] == LeBytes(x, 2)
    ensures ReadShortSpec(t) == Step(t.(pos := t.pos + 2), Ok(Signed(x, 16)))
    ensures Signed(x, 16) % 0x1_0000 == x
  {
    LeRoundTrip(x, 2);
    assert Pow256(2) == 0x1_0000;
    Pow2Value16();
  }

  /** `read_uint` succeeds exactly when four bytes are left, fails with an I/O error otherwise, and returns their value. */
  lemma {:induction false} UintRead(s: StreamState)
    requires s.Valid()
    ensures ReadUintSpec(s).stream.Valid()
    ensures ReadUintSpec(s).result.Err? ==> ReadUintSpec(s).result.error == IoError
    ensures ReadUintSpec(s).result.Ok? <==> s.readable && s.pos + 4 <= |s.bytes|
    ensures ReadUintSpec(s).result.Ok? ==>
      ReadUintSpec(s).stream == s.(pos := s.pos + 4) && ReadUintSpec(s).result.value == LeValue(s.bytes[s.pos..s.pos + 4])
  {
  }

  /** Reading a 32-bit value whose bytes sit at the position. */
  lemma {:induction false} UintAt(t: StreamState, x: Uint32)
    requires t.Valid() && t.readable && t.pos + 4 <= |t.bytes| && t.bytes[t.pos..t.pos + 4] == LeBytes(x, 4)
    ensures ReadUintSpec(t) == Step(t.(pos := t.pos + 4), Ok(x))
    ensures ReadUintAsWrittenSpec(t) == Step(t.(pos := t.pos + 4), Ok(Signed(x, 32) % Pow2(64)))
  {
    assert Pow256(4) == 0x1_0000_0000;
    UnsignedAt(t, x, 4);
  }

  /** Reading `width` bytes that encode `x` returns `x` and moves past them. */
  lemma {:induction false} UnsignedAt(t: StreamState, x: nat, width: nat)
    requires t.Valid() && t.readable && t.pos + width <= |t.bytes| && t.bytes[t.pos..t.pos + width] == LeBytes(x, width)
    requires x < Pow256(width)
    ensures ReadUnsignedSpec(t, width) == Step(t.(pos := t.pos + width), Ok(x))
  {
    LeRoundTripExact(x, width);
  }

  /** Reading a byte that sits at the position. */
  lemma {:induction false} ByteAt(t: StreamState, b: Byte)
    requires t.Valid() && t.readable && t.pos + 1 <= |t.bytes| && t.bytes[t.pos] == b
    ensures ReadByteSpec(t) == Step(t.(pos := t.pos + 1), Ok(b))
  {
    assert t.bytes[t.pos..t.pos + 1] == [b];
  }

  lemma {:induction false} Pow2Value16()
    ensures Pow2(16) == 0x1_0000
  {
    assert Pow2(8) == 256;
  }

  lemma {:induction false} Pow2Value32()
    ensures Pow2(32) == 0x1_0000_0000
  {
    Pow2Value16();
    assert Pow2(24) == 0x100_0000;
  }

  lemma {:induction false} Pow2Add(a: nat, b: nat)
    ensures Pow2(a + b) == Pow2(a) * Pow2(b)
  {
    if a > 0 {
      Pow2Add(a - 1, b);
    }
  }

  lemma {:induction false} Pow2Value64()
    ensures Pow2(64) == 0x1_0000_0000_0000_0000
  {
    Pow2Value32();
    Pow2Add(32, 32);
  }

  // ----- what the signed reads do to unsigned values

  /** A 16-bit value from 0x8000 up, read as signed and converted to 32 bits unsigned. */
  lemma {:induction false} UShortWrapValue(x: nat)
    requires 0x8000 <= x <= UINT16_MAX
    ensures Signed(x, 16) % Pow2(32) == x + 0x1_0000_0000 - 0x1_0000
  {
    Pow2Value16();
    Pow2Value32();
    assert Signed(x, 16) == x - 0x1_0000;
  }

  /** A 32-bit value from 2^31 up, read as signed and converted to 64 bits unsigned. */
  lemma {:induction false} UintWrapValue(x: nat)
    requires 0x8000_0000 <= x < 0x1_0000_0000
    ensures Signed(x, 32) % Pow2(64) == x + 0x1_0000_0000_0000_0000 - 0x1_0000_0000
  {
    Pow2Value32();
    Pow2Value64();
    assert Signed(x, 32) == x - 0x1_0000_0000;
  }

  /** As written, read_ushort returns 2^32 - 2^16 + x instead of x for every x from 0x8000 up. */
  lemma {:induction false} UShortAsWrittenWraps(s: StreamState, x: nat)
    requires ReadWrite(s) && 0x8000 <= x <= UINT16_MAX
    ensures var w := WriteUShortSpec(s, x);
      Rewound(s, w).Valid() &&
      ReadUShortAsWrittenSpec(Rewound(s, w)).result == Ok(x + 0x1_0000_0000 - 0x1_0000)
  {
    assert x % 0x1_0000 == x;
    WrittenAt(s, LeBytes(x, 2));
    var w := WriteUShortSpec(s, x);
    UShortAt(Rewound(s, w), x);
    UShortWrapValue(x);
  }

  /** As written, read_uint returns 2^64 - 2^32 + x instead of x for every x from 2^31 up (64-bit unsigned long). */
  lemma {:induction false} UintAsWrittenWraps(s: StreamState, x: nat)
    requires ReadWrite(s) && 0x8000_0000 <= x < 0x1_0000_0000
    ensures var w := WriteUintSpec(s, x);
      Rewound(s, w).Valid() &&
      ReadUintAsWrittenSpec(Rewound(s, w)).result == Ok(x + 0x1_0000_0000_0000_0000 - 0x1_0000_0000)
  {
    assert x % 0x1_0000_0000 == x;
    WrittenAt(s, LeBytes(x, 4));
    var w := WriteUintSpec(s, x);
    UintAt(Rewound(s, w), x);
    UintWrapValue(x);
  }

  /** A checked write to a readable and writable stream leaves its bytes at the old position, ready to read back. */
  lemma {:induction false} WrittenAt(s: StreamState, bs: seq<Byte>)
    requires ReadWrite(s)
    ensures var w := WriteCheckedSpec(s, bs);
      ReadWrite(Rewound(s, w)) && s.pos + |bs| <= |w.stream.bytes| && w.stream.bytes[s.pos..s.pos + |bs|] == bs
  {
  }

  /**
   * As written, a string of 0x8000 bytes or more does not read back: the
   * length reads as more than 2^32 - 2^15 and the stream ends long before.
   */
  lemma {:induction false} StringAsWrittenFails(s: StreamState, str: seq<Byte>)
    requires ReadWrite(s) && s.pos == |s.bytes| && 0x8000 <= |str| <= UINT16_MAX
    ensures var w := WriteStringSpec(s, str);
      w.result.Ok? && Rewound(s, w).Valid() && ReadStringAsWrittenSpec(Rewound(s, w)).result.Err?
  {
    StringLayout(s, str);
    var w := WriteStringSpec(s, str);
    var t := Rewound(s, w);
    UShortAt(t, |str|);
    UShortWrapValue(|str|);
    assert |w.stream.bytes| == s.pos + 2 + |str|;
  }

  /** Writing at the end of a stream appends. */
  lemma {:induction false} AppendWrite(s: StreamState, bs: seq<Byte>)
    requires s.Valid() && s.writable && s.pos == |s.bytes|
    ensures WriteSpec(s, bs).0 == s.(bytes := s.bytes + bs, pos := |s.bytes| + |bs|)
  {
    assert s.bytes[..s.pos] == s.bytes;
  }

  lemma {:induction false} AppendChecked(s: StreamState, bs: seq<Byte>)
    requires s.Valid() && s.writable && s.pos == |s.bytes|
    ensures WriteCheckedSpec(s, bs) == Step(s.(bytes := s.bytes + bs, pos := |s.bytes| + |bs|), Ok(()))
  {
    AppendWrite(s, bs);
  }

  /** A checked write to a writable stream always succeeds, overwriting from the position. */
  lemma {:induction false} OverwriteChecked(s: StreamState, bs: seq<Byte>)
    requires s.Valid() && s.writable
    ensures WriteCheckedSpec(s, bs) == Step(s.(bytes := Overwrite(s.bytes, s.pos, bs), pos := s.pos + |bs|), Ok(()))
  {
  }
}
