/**
 * Truevision TGA textures (src/renderer/io/texture_tga.cpp): the 18-byte
 * image header of the Truevision TGA File Format Specification 2.0, its
 * validation, and the loader and saver, which repack uncompressed 24/32-bit
 * B, G, R(, A) pixels to and from R, G, B, A with the rows flipped (the file
 * stores the bottom scanline first).
 */
module Tga {
  import opened Errors
  import opened Bytes
  import opened Streams
  import opened StreamIO
  import opened Textures

  const IMAGE_NONE: Byte := 0
  const IMAGE_COLOR_MAPPED: Byte := 1
  const IMAGE_RGB: Byte := 2
  const IMAGE_GRAYSCALE: Byte := 3
  /** The run-length encoding modifier bit of the image type. */
  const IMAGE_RLE: Byte := 8

  datatype TgaHeader = TgaHeader(
    idLength: Byte, colorMapType: Byte, imageType: Byte,
    colorMapStart: Uint16, colorMapLength: Uint16, colorMapBpp: Byte,
    imageX: Uint16, imageY: Uint16, width: Uint16, height: Uint16,
    bpp: Byte, descriptor: Byte)

  // ----- the header as twelve little-endian fields

  /** The width in bytes of each header field, in file order. */
  const FIELD_WIDTHS: seq<nat> := [1, 1, 1, 2, 2, 1, 2, 2, 2, 2, 1, 1]

  /** The size of the header in bytes. */
  const HEADER_SIZE: nat := 18

  predicate FieldWidths(ws: seq<nat>)
  {
    forall i :: 0 <= i < |ws| ==> ws[i] == 1 || ws[i] == 2
  }

  /** The values a field of `width` bytes holds lie below this limit. */
  function FieldLimit(width: nat): nat
  {
    if width == 1 then 0x100 else 0x1_0000
  }

  /** Each value fits its field. */
  predicate FieldsFit(ws: seq<nat>, vs: seq<nat>)
  {
    |vs| == |ws| && forall i :: 0 <= i < |ws| ==> vs[i] < FieldLimit(ws[i])
  }

  function ToFields(h: TgaHeader): (vs: seq<nat>)
    ensures FieldsFit(FIELD_WIDTHS, vs)
  {
    [h.idLength, h.colorMapType, h.imageType, h.colorMapStart, h.colorMapLength, h.colorMapBpp,
     h.imageX, h.imageY, h.width, h.height, h.bpp, h.descriptor]
  }

  function FromFields(vs: seq<nat>): (h: TgaHeader)
    requires FieldsFit(FIELD_WIDTHS, vs)
    ensures ToFields(h) == vs
  {
    TgaHeader(vs[0], vs[1], vs[2], vs[3], vs[4], vs[5], vs[6], vs[7], vs[8], vs[9], vs[10], vs[11])
  }

  /** The total width of the fields. */
  function Sum(ws: seq<nat>): nat
  {
    if ws == [] then 0 else Sum(ws[..|ws| - 1]) + ws[|ws| - 1]
  }

  /** The fields laid out one after another, each little-endian in its width. */
  function EncFields(ws: seq<nat>, vs: seq<nat>): (r: seq<Byte>)
    requires |vs| == |ws|
    ensures |r| == Sum(ws)
  {
    if ws == [] then [] else EncFields(ws[..|ws| - 1], vs[..|vs| - 1]) + LeBytes(vs[|vs| - 1], ws[|ws| - 1])
  }

  /** The fields read from their bytes, each as its little-endian value. */
  function DecFields(ws: seq<nat>, bs: seq<Byte>): (r: seq<nat>)
    requires |bs| == Sum(ws)
    ensures |r| == |ws|
  {
    if ws == [] then []
    else
      var k := |bs| - ws[|ws| - 1];
      DecFields(ws[..|ws| - 1], bs[..k]) + [LeValue(bs[k..])]
  }

  /**
   * A field of `width` bytes read as its stored unsigned value: `read_byte`
   * for a byte field, and `read_short` converted back to 16 bits unsigned
   * for a 16-bit field (ShortAsUnsigned shows the two agree).
   */
  function ReadFieldSpec(s: StreamState, width: nat): (r: Step<nat>)
    requires s.Valid() && (width == 1 || width == 2)
    ensures r.stream.Valid()
    ensures r.result.Ok? ==> r.result.value < FieldLimit(width)
  {
    assert Pow256(2) == 0x1_0000;
    ReadUnsignedSpec(s, width)
  }

  /**
   * Reading the fields one after another reads their bytes in one go: the
   * first field that runs past the end fails after consuming what is left,
   * exactly as a single read of all their bytes does.
   */
  function ReadFieldsSpec(s: StreamState, ws: seq<nat>): (r: Step<seq<nat>>)
    requires s.Valid()
    ensures r.stream.Valid()
    ensures r.result.Ok? ==> |r.result.value| == |ws|
    ensures r.result.Err? ==> r.result.error == IoError
  {
    var c := ReadCheckedSpec(s, Sum(ws));
    if c.result.Err? then Step(c.stream, Err(c.result.error)) else Step(c.stream, Ok(DecFields(ws, c.result.value)))
  }

  /** A field of `width` bytes written as its little-endian bytes, as `write_byte` and `write_short` do. */
  function WriteFieldSpec(s: StreamState, width: nat, v: nat): (r: Step<()>)
    requires s.Valid() && (width == 1 || width == 2) && v < FieldLimit(width)
    ensures r.stream.Valid()
  {
    WriteCheckedSpec(s, LeBytes(v, width))
  }

  /** Writing the fields one after another writes their bytes in one go. */
  function WriteFieldsSpec(s: StreamState, ws: seq<nat>, vs: seq<nat>): (r: Step<()>)
    requires s.Valid() && |vs| == |ws|
    ensures r.stream.Valid()
  {
    WriteCheckedSpec(s, EncFields(ws, vs))
  }

  /** `read_header`: the twelve fields in file order. */
  function ReadHeaderSpec(s: StreamState): (r: Step<TgaHeader>)
    requires s.Valid()
    ensures r.stream.Valid()
    ensures r.result.Err? ==> r.result.error == IoError
  {
    var f := ReadFieldsSpec(s, FIELD_WIDTHS);
    if f.result.Err? then Step(f.stream, Err(f.result.error))
    else
      DecFieldsFit(FIELD_WIDTHS, ReadCheckedSpec(s, Sum(FIELD_WIDTHS)).result.value);
      Step(f.stream, Ok(FromFields(f.result.value)))
  }

  /** `write_header`: the twelve fields in file order. */
  function WriteHeaderSpec(s: StreamState, h: TgaHeader): (r: Step<()>)
    requires s.Valid()
    ensures r.stream.Valid()
  {
    WriteFieldsSpec(s, FIELD_WIDTHS, ToFields(h))
  }

  // ----- validation

  /**
   * The image type without its run-length bit: `t & ~IMAGE_RLE` clears bit
   * 3, which is set exactly when t mod 16 is 8 or more.
   */
  function BaseImageType(t: Byte): (r: Byte)
    ensures r <= t && (r == t || r == t - IMAGE_RLE)
    ensures r % 16 < IMAGE_RLE && r / 16 == t / 16 && r % IMAGE_RLE == t % IMAGE_RLE
  {
    if t % 16 >= IMAGE_RLE then t - IMAGE_RLE else t
  }

  /**
   * `is_valid_header`: a defined colour-map type (0 or 1), a defined image
   * type, a colour-map depth of 16, 24 or 32 bits when there is a map and no
   * colour-mapped image without one, a pixel depth of 8, 16, 24 or 32 bits
   * and no image descriptor bits.
   */
  function IsValidHeader(h: TgaHeader): (r: bool)
    ensures r <==> (h.colorMapType < 2 && BaseImageType(h.imageType) <= IMAGE_GRAYSCALE &&
      (h.colorMapType == 1 ==> h.colorMapBpp in {16, 24, 32}) &&
      (h.colorMapType != 1 ==> h.imageType != IMAGE_COLOR_MAPPED) &&
      h.bpp in {8, 16, 24, 32} && h.descriptor == 0)
  {
    if h.colorMapType >= 2 then false
    else if BaseImageType(h.imageType) > IMAGE_GRAYSCALE then false
    else if h.colorMapType == 1 && h.colorMapBpp != 16 && h.colorMapBpp != 24 && h.colorMapBpp != 32 then false
    else if h.colorMapType != 1 && h.imageType == IMAGE_COLOR_MAPPED then false
    else if h.bpp != 8 && h.bpp != 16 && h.bpp != 24 && h.bpp != 32 then false
    else h.descriptor == 0
  }

  /** `is_texture_tga`: a readable, valid header; a failed read answers false rather than failing. */
  function IsTextureTgaSpec(s: StreamState): (r: Step<bool>)
    requires s.Valid()
    ensures r.stream.Valid() && r.result.Ok?
    ensures r.result.value <==> ReadHeaderSpec(s).result.Ok? && IsValidHeader(ReadHeaderSpec(s).result.value)
  {
    var hd := ReadHeaderSpec(s);
    if hd.result.Err? then Step(hd.stream, Ok(false)) else Step(hd.stream, Ok(IsValidHeader(hd.result.value)))
  }

  // ----- header methods

  method ReadField(s: ByteStream, width: nat) returns (r: Result<nat>)
    requires s.Valid() && (width == 1 || width == 2)
    modifies s
    ensures s.Valid() && Step(s.State(), r) == ReadFieldSpec(old(s.State()), width)
  {
    if width == 1 {
      var b := ReadByte(s);
      if b.Err? { return Err(b.error); }
      r := Ok(b.value);
    } else {
      ShortAsUnsigned(s.State());
      var v := ReadShort(s);
      if v.Err? { return Err(v.error); }
      r := Ok(v.value % 0x1_0000);
    }
  }

  method ReadFields(s: ByteStream, ws: seq<nat>) returns (r: Result<seq<nat>>)
    requires s.Valid() && FieldWidths(ws)
    modifies s
    ensures s.Valid() && Step(s.State(), r) == ReadFieldsSpec(old(s.State()), ws)
  {
    ghost var s0 := s.State();
    var vals: seq<nat> := [];
    var i := 0;
    ReadFieldsStart(s0, ws);
    while i < |ws|
      invariant s.Valid() && 0 <= i <= |ws|
      invariant ReadSoFar(s0, ws, i, s.State(), vals)
    {
      ghost var before := s.State();
      var v := ReadField(s, ws[i]);
      if v.Err? {
        ReadFieldsFail(s0, ws, i, before, vals, s.State(), v.error);
        return Err(v.error);
      }
      ReadFieldsNext(s0, ws, i, before, vals, s.State(), v.value);
      vals := vals + [v.value];
      i := i + 1;
    }
    ReadFieldsDone(s0, ws, s.State(), vals);
    r := Ok(vals);
  }

  method ReadHeader(s: ByteStream) returns (r: Result<TgaHeader>)
    requires s.Valid()
    modifies s
    ensures s.Valid() && Step(s.State(), r) == ReadHeaderSpec(old(s.State()))
  {
    var fields := ReadFields(s, FIELD_WIDTHS);
    if fields.Err? {
      return Err(fields.error);
    }
    DecFieldsFit(FIELD_WIDTHS, ReadCheckedSpec(old(s.State()), Sum(FIELD_WIDTHS)).result.value);
    r := Ok(FromFields(fields.value));
  }

  method WriteField(s: ByteStream, width: nat, v: nat) returns (r: Result<()>)
    requires s.Valid() && (width == 1 || width == 2) && v < FieldLimit(width)
    modifies s
    ensures s.Valid() && Step(s.State(), r) == WriteFieldSpec(old(s.State()), width, v)
  {
    if width == 1 {
      assert LeBytes(v, 1) == [v];
      r := WriteByte(s, v);
    } else {
      assert v % 0x1_0000 == v;
      r := WriteShort(s, v);
    }
  }

  method WriteFields(s: ByteStream, ws: seq<nat>, vs: seq<nat>) returns (r: Result<()>)
    requires s.Valid() && FieldWidths(ws) && FieldsFit(ws, vs)
    modifies s
    ensures s.Valid() && Step(s.State(), r) == WriteFieldsSpec(old(s.State()), ws, vs)
  {
    ghost var s0 := s.State();
    var i := 0;
    assert ws[..0] == [] && vs[..0] == [];
    while i < |ws|
      invariant s.Valid() && 0 <= i <= |ws|
      invariant WrittenSoFar(s0, ws, vs, i, s.State())
    {
      ghost var before := s.State();
      r := WriteField(s, ws[i], vs[i]);
      if r.Err? {
        WriteFieldsFail(s0, ws, vs, i, before);
        return;
      }
      WriteFieldsNext(s0, ws, vs, i, before);
      i := i + 1;
    }
    WriteFieldsDone(s0, ws, vs, s.State());
    r := Ok(());
  }

  method WriteHeader(s: ByteStream, h: TgaHeader) returns (r: Result<()>)
    requires s.Valid()
    modifies s
    ensures s.Valid() && Step(s.State(), r) == WriteHeaderSpec(old(s.State()), h)
  {
    r := WriteFields(s, FIELD_WIDTHS, ToFields(h));
  }

  method IsTextureTga(s: ByteStream) returns (r: bool)
    requires s.Valid()
    modifies s
    ensures s.Valid() && Step(s.State(), Ok(r)) == IsTextureTgaSpec(old(s.State()))
  {
    var hd := ReadHeader(s);
    if hd.Err? {
      return false;
    }
    r := IsValidHeader(hd.value);
  }

  // ----- header properties

  /** `read_short` converted to 16 bits unsigned is the stored unsigned value. */
  lemma {:induction false} ShortAsUnsigned(s: StreamState)
    requires s.Valid()
    ensures var v := ReadShortSpec(s);
      v.result.Err? ==> ReadUnsignedSpec(s, 2) == Step(v.stream, Err(v.result.error))
    ensures var v := ReadShortSpec(s);
      v.result.Ok? ==> ReadUnsignedSpec(s, 2) == Step(v.stream, Ok(v.result.value % 0x1_0000))
  {
    var u := ReadUnsignedSpec(s, 2);
    if u.result.Ok? {
      assert Pow256(2) == 0x1_0000;
      Pow2Value16();
    }
  }

  /** The last field's width adds to the total of the ones before it. */
  lemma {:induction false} SumSnoc(ws: seq<nat>, i: nat)
    requires i < |ws|
    ensures Sum(ws[..i + 1]) == Sum(ws[..i]) + ws[i]
  {
    assert ws[..i + 1][..i] == ws[..i];
  }

  lemma {:induction false} SumPrefix(ws: seq<nat>, i: nat)
    requires i <= |ws|
    ensures Sum(ws[..i]) <= Sum(ws)
    decreases |ws| - i
  {
    if i < |ws| {
      SumSnoc(ws, i);
      SumPrefix(ws, i + 1);
    } else {
      assert ws[..i] == ws;
    }
  }

  lemma {:induction false} DecFieldsFit(ws: seq<nat>, bs: seq<Byte>)
    requires FieldWidths(ws) && |bs| == Sum(ws)
    ensures FieldsFit(ws, DecFields(ws, bs))
  {
    if ws != [] {
      var n := |ws| - 1;
      var k := |bs| - ws[n];
      DecFieldsFit(ws[..n], bs[..k]);
      LeValueBound(bs[k..]);
      assert Pow256(2) == 0x1_0000;
      var vs := DecFields(ws, bs);
      forall i | 0 <= i < |ws| ensures vs[i] < FieldLimit(ws[i]) {
        if i < n {
          assert vs[i] == DecFields(ws[..n], bs[..k])[i] && ws[i] == ws[..n][i];
        }
      }
    }
  }

  /**
   * After `i` fields read without failure: the stream has advanced over
   * their bytes, and the values are those bytes decoded.
   */
  ghost predicate ReadSoFar(s0: StreamState, ws: seq<nat>, i: nat, t: StreamState, vals: seq<nat>)
  {
    s0.Valid() && i <= |ws| && s0.pos + Sum(ws[..i]) <= |s0.bytes| &&
    t == s0.(pos := s0.pos + Sum(ws[..i])) && (i > 0 ==> s0.readable) &&
    vals == DecFields(ws[..i], s0.bytes[s0.pos..s0.pos + Sum(ws[..i])])
  }

  /** A failed read ends where it would have ended had it asked for every remaining byte at once. */
  lemma {:induction false} CheckedFailure(s: StreamState, n: nat)
    requires s.Valid() && ReadCheckedSpec(s, n).result.Err?
    ensures ReadCheckedSpec(s, n).stream == s.(pos := if s.readable then |s.bytes| else s.pos)
  {
  }

  lemma {:induction false} ReadFieldsFail(s0: StreamState, ws: seq<nat>, i: nat, before: StreamState, vals: seq<nat>, after: StreamState, e: Error)
    requires FieldWidths(ws) && i < |ws| && ReadSoFar(s0, ws, i, before, vals)
    requires ReadFieldSpec(before, ws[i]) == Step(after, Err(e))
    ensures ReadFieldsSpec(s0, ws) == Step(after, Err(e))
  {
    SumSnoc(ws, i);
    SumPrefix(ws, i + 1);
    CheckedFailure(before, ws[i]);
    CheckedFailure(s0, Sum(ws));
  }

  lemma {:induction false} ReadFieldsNext(s0: StreamState, ws: seq<nat>, i: nat, before: StreamState, vals: seq<nat>, after: StreamState, v: nat)
    requires FieldWidths(ws) && i < |ws| && ReadSoFar(s0, ws, i, before, vals)
    requires ReadFieldSpec(before, ws[i]) == Step(after, Ok(v))
    ensures ReadSoFar(s0, ws, i + 1, after, vals + [v])
  {
    FieldRead(before, ws[i]);
    var p := Sum(ws[..i]);
    assert before == s0.(pos := s0.pos + p);
    SoFarStep(s0, ws, i, p, vals, v, after);
  }

  /** The reads so far, extended by the next field: its value is that of its bytes, and the stream is past them. */
  lemma {:induction false} SoFarStep(s0: StreamState, ws: seq<nat>, i: nat, p: nat, vals: seq<nat>, v: nat, t: StreamState)
    requires s0.Valid() && s0.readable && i < |ws| && p == Sum(ws[..i]) && s0.pos + p + ws[i] <= |s0.bytes|
    requires vals == DecFields(ws[..i], s0.bytes[s0.pos..s0.pos + p])
    requires v == LeValue(s0.bytes[s0.pos + p..s0.pos + p + ws[i]])
    requires t == s0.(pos := s0.pos + p + ws[i])
    ensures ReadSoFar(s0, ws, i + 1, t, vals + [v])
  {
    SumSnoc(ws, i);
    NextValues(s0.bytes, s0.pos, ws, i, vals, v);
  }

  lemma {:induction false} NextValues(b: seq<Byte>, a: nat, ws: seq<nat>, i: nat, vals: seq<nat>, v: nat)
    requires i < |ws| && a + Sum(ws[..i]) + ws[i] <= |b| && Sum(ws[..i + 1]) == Sum(ws[..i]) + ws[i]
    requires vals == DecFields(ws[..i], b[a..a + Sum(ws[..i])])
    requires v == LeValue(b[a + Sum(ws[..i])..a + Sum(ws[..i]) + ws[i]])
    ensures vals + [v] == DecFields(ws[..i + 1], b[a..a + Sum(ws[..i + 1])])
  {
    DecFieldsSnoc(b, a, ws, i);
  }

  /** The values of the first `i + 1` fields are those of the first `i` and then the next one. */
  lemma {:induction false} DecFieldsSnoc(b: seq<Byte>, a: nat, ws: seq<nat>, i: nat)
    requires i < |ws| && a + Sum(ws[..i + 1]) <= |b|
    ensures Sum(ws[..i + 1]) == Sum(ws[..i]) + ws[i]
    ensures DecFields(ws[..i + 1], b[a..a + Sum(ws[..i + 1])]) ==
      DecFields(ws[..i], b[a..a + Sum(ws[..i])]) + [LeValue(b[a + Sum(ws[..i])..a + Sum(ws[..i + 1])])]
  {
    SumSnoc(ws, i);
    var p := Sum(ws[..i]);
    var bs := b[a..a + p + ws[i]];
    assert ws[..i + 1][..i] == ws[..i];
    assert bs[..p] == b[a..a + p];
    assert bs[p..] == b[a + p..a + p + ws[i]];
  }

  /** A field read that succeeds advances over the field and yields the value of its bytes. */
  lemma {:induction false} FieldRead(t: StreamState, w: nat)
    requires t.Valid() && (w == 1 || w == 2) && ReadFieldSpec(t, w).result.Ok?
    ensures t.readable && t.pos + w <= |t.bytes|
    ensures ReadFieldSpec(t, w) == Step(t.(pos := t.pos + w), Ok(LeValue(t.bytes[t.pos..t.pos + w])))
  {
  }

  lemma {:induction false} ReadFieldsStart(s0: StreamState, ws: seq<nat>)
    requires s0.Valid()
    ensures ReadSoFar(s0, ws, 0, s0, [])
  {
    assert ws[..0] == [];
    assert s0.bytes[s0.pos..s0.pos] == [];
  }

  lemma {:induction false} ReadFieldsDone(s0: StreamState, ws: seq<nat>, t: StreamState, vals: seq<nat>)
    requires ReadSoFar(s0, ws, |ws|, t, vals)
    ensures ReadFieldsSpec(s0, ws) == Step(t, Ok(vals))
  {
    assert ws[..|ws|] == ws;
  }

  /** Writing two pieces one after the other overwrites with both at once. */
  lemma {:induction false} OverwriteTwice(b: seq<Byte>, p: nat, x: seq<Byte>, y: seq<Byte>)
    requires p <= |b|
    ensures Overwrite(Overwrite(b, p, x), p + |x|, y) == Overwrite(b, p, x + y)
  {
    var m := Overwrite(b, p, x);
    var l := Overwrite(m, p + |x|, y);
    var r := Overwrite(b, p, x + y);
    assert |l| == |r|;
    forall k | 0 <= k < |l| ensures l[k] == r[k] {
      if k < p {
        assert l[k] == l[..p + |x|][k] == m[..p + |x|][k] == m[..p][k] == b[..p][k] == r[..p][k];
      } else if k < p + |x| {
        assert l[k] == l[..p + |x|][k] == m[..p + |x|][k] == m[p..p + |x|][k - p] == x[k - p];
        assert r[k] == r[p..p + |x + y|][k - p] == (x + y)[k - p];
      } else if k < p + |x| + |y| {
        assert l[k] == l[p + |x|..p + |x| + |y|][k - p - |x|] == y[k - p - |x|];
        assert r[k] == r[p..p + |x + y|][k - p] == (x + y)[k - p];
      } else {
        assert l[k] == l[p + |x| + |y|..][k - p - |x| - |y|] == m[p + |x| + |y|..][k - p - |x| - |y|];
        assert m[k] == m[p + |x|..][k - p - |x|] == b[p + |x|..][k - p - |x|];
        assert r[k] == r[p + |x| + |y|..][k - p - |x| - |y|] == b[p + |x| + |y|..][k - p - |x| - |y|];
      }
    }
  }

  /** After `i` fields written without failure: the stream holds their bytes written at the start position. */
  ghost predicate WrittenSoFar(s0: StreamState, ws: seq<nat>, vs: seq<nat>, i: nat, t: StreamState)
  {
    s0.Valid() && i <= |ws| == |vs| && (i > 0 ==> s0.writable) &&
    t == WriteSpec(s0, EncFields(ws[..i], vs[..i])).0
  }

  lemma {:induction false} WriteFieldsFail(s0: StreamState, ws: seq<nat>, vs: seq<nat>, i: nat, before: StreamState)
    requires FieldWidths(ws) && FieldsFit(ws, vs) && i < |ws| && WrittenSoFar(s0, ws, vs, i, before)
    requires WriteFieldSpec(before, ws[i], vs[i]).result.Err?
    ensures WriteFieldsSpec(s0, ws, vs) == WriteFieldSpec(before, ws[i], vs[i])
  {
    assert ws[0] > 0;
    assert ws[..0] == [] && vs[..0] == [];
    SumSnoc(ws, 0);
    SumPrefix(ws, 1);
  }

  lemma {:induction false} WriteFieldsNext(s0: StreamState, ws: seq<nat>, vs: seq<nat>, i: nat, before: StreamState)
    requires FieldWidths(ws) && FieldsFit(ws, vs) && i < |ws| && WrittenSoFar(s0, ws, vs, i, before)
    requires WriteFieldSpec(before, ws[i], vs[i]).result.Ok?
    ensures WrittenSoFar(s0, ws, vs, i + 1, WriteFieldSpec(before, ws[i], vs[i]).stream)
  {
    assert ws[i] > 0;
    assert ws[..0] == [] && vs[..0] == [];
    assert ws[..i + 1][..i] == ws[..i] && vs[..i + 1][..i] == vs[..i];
    var x := EncFields(ws[..i], vs[..i]);
    var y := LeBytes(vs[i], ws[i]);
    assert EncFields(ws[..i + 1], vs[..i + 1]) == x + y;
    assert before.writable;
    WriteTwice(s0, x, y);
  }

  /** Two writes one after the other leave the stream as one write of both pieces does. */
  lemma {:induction false} WriteTwice(s0: StreamState, x: seq<Byte>, y: seq<Byte>)
    requires s0.Valid() && s0.writable
    ensures WriteSpec(WriteSpec(s0, x).0, y).0 == WriteSpec(s0, x + y).0
  {
    OverwriteTwice(s0.bytes, s0.pos, x, y);
  }

  lemma {:induction false} WriteFieldsDone(s0: StreamState, ws: seq<nat>, vs: seq<nat>, t: StreamState)
    requires WrittenSoFar(s0, ws, vs, |ws|, t)
    ensures WriteFieldsSpec(s0, ws, vs) == Step(t, Ok(()))
  {
    assert ws[..|ws|] == ws && vs[..|vs|] == vs;
  }

  /** Decoding the fields' encoding gives the values back. */
  lemma {:induction false} DecEncFields(ws: seq<nat>, vs: seq<nat>)
    requires FieldWidths(ws) && FieldsFit(ws, vs)
    ensures DecFields(ws, EncFields(ws, vs)) == vs
  {
    if ws != [] {
      var n := |ws| - 1;
      var x := EncFields(ws[..n], vs[..n]);
      var y := LeBytes(vs[n], ws[n]);
      assert EncFields(ws, vs) == x + y;
      assert (x + y)[..|x|] == x && (x + y)[|x|..] == y;
      assert FieldsFit(ws[..n], vs[..n]) by {
        forall i | 0 <= i < n ensures vs[..n][i] < FieldLimit(ws[..n][i]) {
          assert vs[..n][i] == vs[i] && ws[..n][i] == ws[i];
        }
      }
      DecEncFields(ws[..n], vs[..n]);
      assert Pow256(2) == 0x1_0000;
      LeRoundTripExact(vs[n], ws[n]);
      assert vs[..n] + [vs[n]] == vs;
    }
  }

  /** What `write_header` writes at the end of a stream, `read_header` reads back unchanged. */
  lemma {:induction false} HeaderRoundTrip(s: StreamState, h: TgaHeader)
    requires ReadWrite(s) && s.pos == |s.bytes|
    ensures var w := WriteHeaderSpec(s, h);
      w.result.Ok? && Rewound(s, w).Valid() && ReadHeaderSpec(Rewound(s, w)) == Step(w.stream, Ok(h))
  {
    var e := EncHeader(h);
    AppendChecked(s, e);
    var t := s.(bytes := s.bytes + e);
    assert t.bytes[t.pos..t.pos + |e|] == e;
    HeaderAt(t, h);
    HeaderSize();
  }

  /** The bytes `write_header` writes for a header. */
  function EncHeader(h: TgaHeader): (r: seq<Byte>)
    ensures |r| == Sum(FIELD_WIDTHS)
  {
    EncFields(FIELD_WIDTHS, ToFields(h))
  }

  /** A header's bytes at the position of a readable stream read back as that header, and nothing more is read. */
  lemma {:induction false} HeaderAt(t: StreamState, h: TgaHeader)
    requires t.Valid() && t.readable && t.pos + |EncHeader(h)| <= |t.bytes|
    requires t.bytes[t.pos..t.pos + |EncHeader(h)|] == EncHeader(h)
    ensures ReadHeaderSpec(t) == Step(t.(pos := t.pos + HEADER_SIZE), Ok(h))
  {
    HeaderSize();
    DecEncFields(FIELD_WIDTHS, ToFields(h));
  }

  /** The header is eighteen bytes long. */
  lemma {:induction false} HeaderSize()
    ensures Sum(FIELD_WIDTHS) == HEADER_SIZE
  {
    var ws := FIELD_WIDTHS;
    assert ws[..0] == [];
    SumSnoc(ws, 0); SumSnoc(ws, 1); SumSnoc(ws, 2); SumSnoc(ws, 3);
    SumSnoc(ws, 4); SumSnoc(ws, 5); SumSnoc(ws, 6); SumSnoc(ws, 7);
    SumSnoc(ws, 8); SumSnoc(ws, 9); SumSnoc(ws, 10); SumSnoc(ws, 11);
    assert ws[..12] == ws;
  }
}
