/**
 * Loading a texture of any supported format (src/renderer/io/texture.cpp):
 * the stream must be readable and seekable; the formats are tried in table
 * order, DDS and then TGA, each after rewinding the stream, and the first
 * whose check succeeds is loaded from the start of the stream.
 */
module TextureLoad {
  import opened Errors
  import opened Streams
  import opened Textures
  import opened Tga
  import opened TgaTexture
  import opened Dds

  datatype Format = DdsFormat | TgaFormat

  /** The format table, in the order the formats are tried. */
  const FORMATS: seq<Format> := [DdsFormat, TgaFormat]

  /** The probe of a format: whether the stream holds that format. */
  function CheckSpec(f: Format, s: StreamState): (r: Step<bool>)
    requires s.Valid()
    ensures r.stream.Valid() && r.result.Ok?
  {
    match f
    case DdsFormat => IsTextureDdsSpec(s)
    case TgaFormat => IsTextureTgaSpec(s)
  }

  /** The loader of a format. */
  function LoadSpec(f: Format, s: StreamState): (r: Step<TextureDesc>)
    requires s.Valid()
    ensures r.stream.Valid()
  {
    match f
    case DdsFormat => LoadDdsSpec(s)
    case TgaFormat => LoadTgaSpec(s)
  }

  /**
   * Trying the formats `fs` in order: rewind, check, and on success rewind
   * again and load; when none is left, the format is invalid. A failed
   * rewind is an I/O error.
   */
  function TryFormatsSpec(s: StreamState, fs: seq<Format>): (r: Step<TextureDesc>)
    requires s.Valid()
    ensures r.stream.Valid()
    ensures fs == [] ==> r == Step(s, Err(InvalidFormat))
    decreases |fs|
  {
    if fs == [] then Step(s, Err(InvalidFormat))
    else
      var z := SeekSpec(s, 0, Begin);
      if z.result.Err? then Step(z.stream, Err(IoError))
      else
        var c := CheckSpec(fs[0], z.stream);
        if c.result.value then
          var z2 := SeekSpec(c.stream, 0, Begin);
          if z2.result.Err? then Step(z2.stream, Err(IoError)) else LoadSpec(fs[0], z2.stream)
        else TryFormatsSpec(c.stream, fs[1..])
  }

  /** `load_texture`: an argument error unless the stream is readable and seekable, then the format table. */
  function LoadTextureSpec(s: StreamState): (r: Step<TextureDesc>)
    requires s.Valid()
    ensures r.stream.Valid()
    ensures !s.readable || !s.seekable ==> r == Step(s, Err(ArgumentError))
  {
    if !s.readable || !s.seekable then Step(s, Err(ArgumentError)) else TryFormatsSpec(s, FORMATS)
  }

  method Check(f: Format, s: ByteStream) returns (r: bool)
    requires s.Valid()
    modifies s
    ensures s.Valid() && Step(s.State(), Ok(r)) == CheckSpec(f, old(s.State()))
  {
    match f
    case DdsFormat => r := IsTextureDds(s);
    case TgaFormat => r := IsTextureTga(s);
  }

  method Load(f: Format, s: ByteStream) returns (r: Result<TextureDesc>)
    requires s.Valid()
    modifies s
    ensures s.Valid() && Step(s.State(), r) == LoadSpec(f, old(s.State()))
  {
    match f
    case DdsFormat => r := LoadTextureDds(s);
    case TgaFormat => r := LoadTextureTga(s);
  }

  method LoadTexture(s: ByteStream) returns (r: Result<TextureDesc>)
    requires s.Valid()
    modifies s
    ensures s.Valid() && Step(s.State(), r) == LoadTextureSpec(old(s.State()))
  {
    if !s.readable || !s.seekable {
      return Err(ArgumentError);
    }
    ghost var s0 := s.State();
    for i := 0 to |FORMATS|
      invariant s.Valid() && TryFormatsSpec(s0, FORMATS) == TryFormatsSpec(s.State(), FORMATS[i..])
    {
      assert FORMATS[i..][1..] == FORMATS[i + 1..];
      var z := s.Seek(0, Begin);
      if z.Err? {
        return Err(IoError);
      }
      var found := Check(FORMATS[i], s);
      if found {
        var z2 := s.Seek(0, Begin);
        if z2.Err? {
          return Err(IoError);
        }
        r := Load(FORMATS[i], s);
        return;
      }
    }
    assert FORMATS[|FORMATS|..] == [];
    r := Err(InvalidFormat);
  }

  // ----- properties

  /** Rewinding a seekable stream always succeeds and only moves the position to 0. */
  lemma {:induction false} RewindSeekable(s: StreamState)
    requires s.Valid() && s.seekable
    ensures SeekSpec(s, 0, Begin) == Step(s.(pos := 0), Ok(0))
  {
  }

  /** A DDS file, recognised from its first word, is loaded as DDS from the start of the stream. */
  lemma {:induction false} DdsFirst(s: StreamState)
    requires s.Valid() && s.readable && s.seekable
    requires IsTextureDdsSpec(s.(pos := 0)).result.value
    ensures LoadTextureSpec(s) == LoadDdsSpec(s.(pos := 0))
  {
    var c := IsTextureDdsSpec(s.(pos := 0));
    assert c.stream.seekable && c.stream.(pos := 0) == s.(pos := 0);
  }

  /**
   * A stream that is not DDS but holds a valid TGA header is loaded as TGA
   * from the start of the stream.
   */
  lemma {:induction false} TgaSecond(s: StreamState)
    requires s.Valid() && s.readable && s.seekable
    requires !IsTextureDdsSpec(s.(pos := 0)).result.value && IsTextureTgaSpec(s.(pos := 0)).result.value
    ensures LoadTextureSpec(s) == LoadTgaSpec(s.(pos := 0))
  {
    var c := IsTextureDdsSpec(s.(pos := 0));
    assert c.stream.seekable && c.stream.(pos := 0) == s.(pos := 0);
    assert FORMATS[1..] == [TgaFormat];
    assert TryFormatsSpec(s, FORMATS) == TryFormatsSpec(c.stream, [TgaFormat]);
    var c2 := IsTextureTgaSpec(s.(pos := 0));
    assert c2.stream.seekable && c2.stream.(pos := 0) == s.(pos := 0);
  }

  /** A stream that neither check accepts is an invalid format. */
  lemma {:induction false} NeitherFormat(s: StreamState)
    requires s.Valid() && s.readable && s.seekable
    requires !IsTextureDdsSpec(s.(pos := 0)).result.value && !IsTextureTgaSpec(s.(pos := 0)).result.value
    ensures LoadTextureSpec(s).result == Err(InvalidFormat)
  {
    var c := IsTextureDdsSpec(s.(pos := 0));
    assert c.stream.seekable && c.stream.(pos := 0) == s.(pos := 0);
    assert FORMATS[1..] == [TgaFormat] && [TgaFormat][1..] == [];
    assert TryFormatsSpec(s, FORMATS) == TryFormatsSpec(c.stream, [TgaFormat]);
    var c2 := IsTextureTgaSpec(s.(pos := 0));
    assert TryFormatsSpec(c.stream, [TgaFormat]) == TryFormatsSpec(c2.stream, []);
  }
}
