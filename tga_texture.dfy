/**
 * Loading and saving whole Truevision TGA textures
 * (src/renderer/io/texture_tga.cpp, `load_texture_tga` and
 * `save_texture_tga`): the header checks, the skipped image id and colour
 * map, the pixel data read or written in one block, and the texture
 * description built from them.
 */
module TgaTexture {
  import opened Errors
  import opened Bytes
  import opened Streams
  import opened StreamIO
  import opened Textures
  import opened Tga
  import opened TgaPixels

  // ----- loading

  /**
   * The headers the loader accepts: valid, of uncompressed true-colour
   * type, and not 16 bits per pixel.
   */
  predicate Loadable(h: TgaHeader)
  {
    IsValidHeader(h) && h.imageType != IMAGE_NONE && h.imageType == IMAGE_RGB && h.bpp != 16
  }

  /** An accepted header stores 8, 24 or 32 bits per pixel. */
  lemma {:induction false} LoadableDepth(h: TgaHeader)
    requires Loadable(h)
    ensures h.bpp == 8 || Repacked(h.bpp)
    ensures h.bpp % 8 == 0
  {
  }

  /** The bytes of the colour map that the loader skips. */
  function ColorMapSize(h: TgaHeader): nat
  {
    MulNat(h.colorMapLength, h.colorMapBpp);
    h.colorMapLength * h.colorMapBpp / 8
  }

  /** The bytes of pixel data the loader reads: width times height pixels of `bpp` bits. */
  function RawSize(h: TgaHeader): nat
  {
    MulNat(h.width, h.height);
    MulNat(h.width * h.height, h.bpp);
    h.width * h.height * h.bpp / 8
  }

  /** The texture the loader returns for an accepted header and the pixel data it read. */
  function LoadedDesc(h: TgaHeader, raw: seq<Byte>): (d: TextureDesc)
    requires Loadable(h) && |raw| == RawSize(h)
    ensures d.dimension == Texture2D && d.width == h.width && d.height == h.height
    ensures d.depthArraySize == 0 && d.mipLevels == 1 && d.pixelFormat == R8G8B8A8Srgb
    ensures |d.data| == h.height * (4 * h.width)
    ensures d.subresources == [Subresource(0, |d.data|, 4 * h.width, |d.data|)]
  {
    LoadableDepth(h);
    RawSizeRows(h.width, h.height, h.bpp);
    LoadedFlipsRowsSize(raw, h);
    var data := Loaded(raw, h.width, h.height, h.bpp);
    TextureDesc(Texture2D, h.width, h.height, 0, 1, R8G8B8A8Srgb, [Subresource(0, |data|, 4 * h.width, |data|)], data)
  }

  /** The repacked data has one row of four bytes per pixel for each scanline. */
  lemma {:induction false} LoadedFlipsRowsSize(raw: seq<Byte>, h: TgaHeader)
    requires Loadable(h) && |raw| == RawSize(h)
    ensures h.height * (h.width * (h.bpp / 8)) <= |raw|
    ensures |Loaded(raw, h.width, h.height, h.bpp)| == h.height * (4 * h.width)
  {
    LoadableDepth(h);
    RawSizeRows(h.width, h.height, h.bpp);
  }

  /**
   * `load_texture_tga`: reads and checks the header, skips the image id and
   * any colour map, reads the pixel data (bytes past the end of the stream
   * stay zero) and repacks it. A header that fails the checks is an invalid
   * format; a failed read or seek is an I/O error.
   */
  function LoadTgaSpec(s: StreamState): (r: Step<TextureDesc>)
    requires s.Valid()
    ensures r.stream.Valid()
    ensures r.result.Err? ==> r.result.error == IoError || r.result.error == InvalidFormat
    ensures r.result == Err(InvalidFormat) <==>
      ReadHeaderSpec(s).result.Ok? && !Loadable(ReadHeaderSpec(s).result.value)
    ensures r.result.Ok? ==> ReadHeaderSpec(s).result.Ok? && Loadable(ReadHeaderSpec(s).result.value)
    ensures r.result.Ok? ==>
      var h := ReadHeaderSpec(s).result.value;
      var d := r.result.value;
      d.dimension == Texture2D && d.width == h.width && d.height == h.height &&
      d.pixelFormat == R8G8B8A8Srgb && d.mipLevels == 1 && |d.subresources| == 1 &&
      d.subresources[0].stride * d.height == |d.data| == d.subresources[0].dataSize
  {
    var hd := ReadHeaderSpec(s);
    if hd.result.Err? then Step(hd.stream, Err(hd.result.error))
    else
      var h := hd.result.value;
      if !Loadable(h) then Step(hd.stream, Err(InvalidFormat))
      else
        var id := SeekSpec(hd.stream, h.idLength, Current);
        if id.result.Err? then Step(id.stream, Err(IoError))
        else
          var cm := if h.colorMapType != 0 then SeekSpec(id.stream, ColorMapSize(h), Current) else id;
          if cm.result.Err? then Step(cm.stream, Err(IoError))
          else
            var (t, got) := ReadSpec(cm.stream, RawSize(h));
            Step(t, Ok(LoadedDesc(h, got + Zeros(RawSize(h) - |got|))))
  }

  method LoadTextureTga(s: ByteStream) returns (r: Result<TextureDesc>)
    requires s.Valid()
    modifies s
    ensures s.Valid() && Step(s.State(), r) == LoadTgaSpec(old(s.State()))
  {
    var hd := ReadHeader(s);
    if hd.Err? {
      return Err(hd.error);
    }
    var h := hd.value;
    if !IsValidHeader(h) || h.imageType == IMAGE_NONE || h.imageType != IMAGE_RGB || h.bpp == 16 {
      return Err(InvalidFormat);
    }
    var id := s.Seek(h.idLength, Current);
    if id.Err? {
      return Err(IoError);
    }
    if h.colorMapType != 0 {
      var cm := s.Seek(ColorMapSize(h), Current);
      if cm.Err? {
        return Err(IoError);
      }
    }
    var size := RawSize(h);
    var got := s.Read(size);
    var raw := got + Zeros(size - |got|);
    LoadedFlipsRowsSize(raw, h);
    var data := RepackLoaded(raw, h.width, h.height, h.bpp);
    r := Ok(TextureDesc(Texture2D, h.width, h.height, 0, 1, R8G8B8A8Srgb,
      [Subresource(0, data.Length, 4 * h.width, data.Length)], data[..]));
  }

  // ----- saving

  /**
   * The textures the saver accepts: two-dimensional and not an array, in
   * one of the two 8-bit RGBA layouts, and no wider or taller than a 16-bit
   * header field holds.
   */
  predicate SaveAccepted(t: TextureDesc)
  {
    t.dimension == Texture2D && t.ArraySize() == 0 && Savable(t.pixelFormat) &&
    t.width <= UINT16_MAX && t.height <= UINT16_MAX
  }

  /** The first subresource exists and its rows lie within the data. */
  predicate RowsInData(t: TextureDesc)
  {
    |t.subresources| > 0 &&
    RowsWithin(|t.data|, t.width, t.height, t.subresources[0].dataOffset, t.subresources[0].stride)
  }

  /** The header the saver writes: uncompressed true colour, 32 bits per pixel, everything else 0. */
  function SaveHeader(w: Uint16, h: Uint16): (r: TgaHeader)
    ensures Loadable(r) && r.idLength == 0 && r.colorMapType == 0
    ensures r.width == w && r.height == h && r.bpp == 32
  {
    TgaHeader(0, 0, IMAGE_RGB, 0, 0, 0, 0, 0, w, h, 32, 0)
  }

  /** The pixel data the saver writes for an accepted texture: its first subresource, repacked. */
  function SavedData(t: TextureDesc): (r: seq<Byte>)
    requires SaveAccepted(t) && RowsInData(t)
    ensures |r| == t.height * (4 * t.width)
  {
    var sub := t.GetSubresource(0);
    SavedSize(t.data, t.pixelFormat, t.width, t.height, sub.dataOffset, sub.stride);
    Saved(t.data, t.pixelFormat, t.width, t.height, sub.dataOffset, sub.stride)
  }

  lemma {:induction false} SavedSize(data: seq<Byte>, pf: PixelFormat, w: nat, h: nat, offset: nat, stride: nat)
    requires Savable(pf) && RowsWithin(|data|, w, h, offset, stride)
    ensures |Saved(data, pf, w, h, offset, stride)| == h * (4 * w)
  {
  }

  /**
   * `save_texture_tga`: a texture it does not accept is an argument error
   * and writes nothing; otherwise the header and then the repacked pixel
   * data are written, and a short write is an I/O error.
   */
  function SaveTgaSpec(s: StreamState, t: TextureDesc): (r: Step<()>)
    requires s.Valid() && (SaveAccepted(t) ==> RowsInData(t))
    ensures r.stream.Valid()
    ensures r.result == Err(ArgumentError) <==> !SaveAccepted(t)
    ensures !SaveAccepted(t) ==> r.stream == s
    ensures r.result.Ok? <==> SaveAccepted(t) && s.writable
    ensures SaveAccepted(t) && !s.writable ==> r == Step(s, Err(IoError))
  {
    if !SaveAccepted(t) then Step(s, Err(ArgumentError))
    else
      HeaderSize();
      var wh := WriteHeaderSpec(s, SaveHeader(t.width, t.height));
      if wh.result.Err? then wh
      else WriteCheckedSpec(wh.stream, SavedData(t))
  }

  method SaveTextureTga(s: ByteStream, t: TextureDesc) returns (r: Result<()>)
    requires s.Valid() && (SaveAccepted(t) ==> RowsInData(t))
    modifies s
    ensures s.Valid() && Step(s.State(), r) == SaveTgaSpec(old(s.State()), t)
  {
    if t.dimension != Texture2D || t.ArraySize() != 0 {
      return Err(ArgumentError);
    }
    var pf := t.pixelFormat;
    if pf != R8G8B8A8Srgb && pf != B8G8R8A8Srgb {
      return Err(ArgumentError);
    }
    if t.width > UINT16_MAX || t.height > UINT16_MAX {
      return Err(ArgumentError);
    }
    var wh := WriteHeader(s, SaveHeader(t.width, t.height));
    if wh.Err? {
      return wh;
    }
    var sub := t.GetSubresource(0);
    var data := RepackSaved(t.data, pf, t.width, t.height, sub.dataOffset, sub.stride);
    r := WriteChecked(s, data[..]);
  }

  // ----- properties

  /** Saving at the end of a writable stream appends the header and then the pixel data. */
  lemma {:induction false} SaveAppends(s: StreamState, t: TextureDesc)
    requires s.Valid() && s.writable && s.pos == |s.bytes|
    requires SaveAccepted(t) && RowsInData(t)
    ensures var e := EncHeader(SaveHeader(t.width, t.height)) + SavedData(t);
      SaveTgaSpec(s, t) == Step(s.(bytes := s.bytes + e, pos := |s.bytes| + |e|), Ok(()))
  {
    var h := SaveHeader(t.width, t.height);
    AppendChecked(s, EncHeader(h));
    var s1 := s.(bytes := s.bytes + EncHeader(h), pos := |s.bytes| + |EncHeader(h)|);
    AppendChecked(s1, SavedData(t));
    assert s1.bytes + SavedData(t) == s.bytes + (EncHeader(h) + SavedData(t));
  }

  /**
   * Loading a stream positioned after some bytes `pre`, where a header
   * without image id or colour map and then the complete pixel data follow,
   * returns the texture built from exactly that data and leaves the position
   * after it.
   */
  lemma {:induction false} LoadAt(u: StreamState, pre: seq<Byte>, h: TgaHeader, raw: seq<Byte>)
    requires u.Valid() && u.readable && u.seekable
    requires Loadable(h) && h.idLength == 0 && h.colorMapType == 0 && |raw| == RawSize(h)
    requires u.bytes == pre + (EncHeader(h) + raw) && u.pos == |pre|
    ensures LoadTgaSpec(u) == Step(u.(pos := |u.bytes|), Ok(LoadedDesc(h, raw)))
  {
    var e := EncHeader(h);
    assert u.bytes[u.pos..u.pos + |e|] == e;
    HeaderAt(u, h);
    HeaderSize();
    var u1 := u.(pos := u.pos + HEADER_SIZE);
    assert u1.bytes[u1.pos..] == raw;
    ReadAllAt(u1, raw);
    LoadAfterHeader(u, h, u1, raw);
  }

  /** Reading exactly the bytes that remain returns them and leaves the position at the end. */
  lemma {:induction false} ReadAllAt(u1: StreamState, raw: seq<Byte>)
    requires u1.Valid() && u1.readable && u1.pos + |raw| == |u1.bytes| && u1.bytes[u1.pos..] == raw
    ensures ReadSpec(u1, |raw|) == (u1.(pos := |u1.bytes|), raw)
  {
    assert u1.bytes[u1.pos..u1.pos + |raw|] == u1.bytes[u1.pos..];
  }

  /**
   * After an accepted header with no image id and no colour map, the loader
   * reads the pixel data where the header ends.
   */
  lemma {:induction false} LoadAfterHeader(u: StreamState, h: TgaHeader, u1: StreamState, raw: seq<Byte>)
    requires u.Valid() && ReadHeaderSpec(u) == Step(u1, Ok(h)) && u1.seekable
    requires Loadable(h) && h.idLength == 0 && h.colorMapType == 0 && |raw| == RawSize(h)
    requires ReadSpec(u1, |raw|) == (u1.(pos := |u1.bytes|), raw)
    ensures LoadTgaSpec(u) == Step(u1.(pos := |u1.bytes|), Ok(LoadedDesc(h, raw)))
  {
    assert SeekSpec(u1, h.idLength, Current) == Step(u1, Ok(u1.pos));
    assert raw + Zeros(RawSize(h) - |raw|) == raw;
  }

  /**
   * A 2D R8G8B8A8 texture whose rows are stored tightly from the start of
   * its data, saved at the end of a readable, writable and seekable stream,
   * loads back from where it was saved with the same size, format and pixels.
   */
  lemma {:induction false} TgaRoundTrip(s: StreamState, t: TextureDesc)
    requires ReadWrite(s) && s.seekable && s.pos == |s.bytes|
    requires t.dimension == Texture2D && t.depthArraySize == 0 && t.pixelFormat == R8G8B8A8Srgb
    requires t.width <= UINT16_MAX && t.height <= UINT16_MAX
    requires |t.subresources| > 0 && t.subresources[0].dataOffset == 0 && t.subresources[0].stride == 4 * t.width
    requires |t.data| == t.height * (4 * t.width)
    ensures SaveAccepted(t) && RowsInData(t)
    ensures var w := SaveTgaSpec(s, t);
      w.result.Ok? && Rewound(s, w).Valid() &&
      var l := LoadTgaSpec(Rewound(s, w));
      l.result.Ok? && l.result.value.data == t.data &&
      l.result.value.width == t.width && l.result.value.height == t.height &&
      l.result.value.pixelFormat == t.pixelFormat && l.result.value.dimension == t.dimension &&
      l.result.value.subresources[0].stride == t.subresources[0].stride
  {
    var w := t.width;
    var h := t.height;
    SavedWithin(w, h);
    assert SaveAccepted(t) && RowsInData(t);
    SaveAppends(s, t);
    var hdr := SaveHeader(w, h);
    var d := SavedData(t);
    assert d == Saved(t.data, R8G8B8A8Srgb, w, h, 0, 4 * w);
    RawSizeRows(w, h, 32);
    assert |d| == RawSize(hdr);
    var e := EncHeader(hdr);
    var u := s.(bytes := s.bytes + (e + d));
    assert Rewound(s, SaveTgaSpec(s, t)) == u;
    LoadAt(u, s.bytes, hdr, d);
    SaveLoadRoundTrip(t.data, w, h);
  }

  /** An unaccepted texture is refused before anything is written, whatever the stream. */
  lemma {:induction false} SaveRefusedWritesNothing(s: StreamState, t: TextureDesc)
    requires s.Valid() && !SaveAccepted(t)
    ensures SaveTgaSpec(s, t) == Step(s, Err(ArgumentError))
  {
  }

  /**
   * The row stride the loader records, as written: the width times the
   * bytes per pixel of the file, although the data it describes has four
   * bytes per pixel.
   */
  function LoadStrideAsWritten(h: TgaHeader): (r: nat)
    ensures h.bpp == 32 ==> r == 4 * h.width
  {
    MulNat(h.width, h.bpp);
    h.width * h.bpp / 8
  }

  /**
   * For a one-pixel 24-bit file the stride as written is 3 bytes, while the
   * loaded row it describes is 4 bytes long; the corrected stride of
   * LoadTgaSpec covers the loaded data exactly.
   */
  lemma {:induction false} LoadStrideAsWrittenMismatch()
    ensures var h := TgaHeader(0, 0, IMAGE_RGB, 0, 0, 0, 0, 0, 1, 1, 24, 0);
      Loadable(h) && LoadStrideAsWritten(h) == 3 &&
      |LoadedDesc(h, [0, 0, 0]).data| == 4 && LoadedDesc(h, [0, 0, 0]).subresources[0].stride == 4
  {
    var h := TgaHeader(0, 0, IMAGE_RGB, 0, 0, 0, 0, 0, 1, 1, 24, 0);
    assert RawSize(h) == 3;
  }
}
