/**
 * The Khepri container file (src/io/container_stream.cpp): a 16-byte header
 * -- the magic "KCF", format version 1, a content type id, flags 0 and the
 * content size -- followed by the content. A container opened for reading
 * checks the header and then reads at most the declared content; one opened
 * for writing writes a header with size 0 and back-patches the size on close.
 */
module Container {
  import opened Errors
  import opened Bytes
  import opened Streams
  import opened StreamIO

  const MAGIC: seq<Byte> := [0x4B, 0x43, 0x46]
  const FORMAT_VERSION: Byte := 1
  const HEADER_SIZE: nat := 16
  const UINT32_MAX: nat := 0xFFFF_FFFF

  datatype OpenMode = ReadMode | WriteMode

  /** The container's own fields; `attached` is false once close has let go of the underlying stream. */
  datatype Container = Container(attached: bool, mode: OpenMode, position: int, contentStart: nat, contentSize: nat)
  {
    predicate Readable()
    {
      attached && mode == ReadMode
    }

    predicate Writable()
    {
      attached && mode == WriteMode
    }
  }

  /** The outcome of a container operation: its new fields, the underlying stream and a result. */
  datatype CStep<T> = CStep(container: Container, stream: StreamState, result: Result<T>)

  /** The header of a container of type `typeId` holding `size` bytes. */
  function Header(typeId: Uint32, size: Uint32): (h: seq<Byte>)
    ensures |h| == HEADER_SIZE
  {
    MAGIC + [FORMAT_VERSION] + LeBytes(typeId, 4) + LeBytes(0, 4) + LeBytes(size, 4)
  }

  // ----- opening

  /**
   * Opening for reading: the stream must be readable (else ArgumentError);
   * the magic, version, type id and flags must match (else InvalidFormat,
   * or an I/O error when the stream ends inside the header); the content
   * starts where the header ends when the stream can tell its position.
   */
  function OpenReadSpec(s: StreamState, typeId: Uint32): (r: Step<Container>)
    requires s.Valid()
    ensures r.stream.Valid()
    ensures !s.readable ==> r == Step(s, Err(ArgumentError))
    ensures r.result.Ok? ==> r.result.value.Readable() && r.result.value.position == 0
  {
    if !s.readable then Step(s, Err(ArgumentError))
    else
      // A short magic read leaves indeterminate bytes, modelled as a mismatch.
      var (s1, magic) := ReadSpec(s, |MAGIC|);
      if magic != MAGIC then Step(s1, Err(InvalidFormat))
      else
        var v := ReadByteSpec(s1);
        if v.result.Err? then Step(v.stream, Err(v.result.error))
        else if v.result.value != FORMAT_VERSION then Step(v.stream, Err(InvalidFormat))
        else
          var t := ReadUintSpec(v.stream);
          if t.result.Err? then Step(t.stream, Err(t.result.error))
          else if t.result.value != typeId then Step(t.stream, Err(InvalidFormat))
          else
            var f := ReadUintSpec(t.stream);
            if f.result.Err? then Step(f.stream, Err(f.result.error))
            else if f.result.value != 0 then Step(f.stream, Err(InvalidFormat))
            else
              var z := ReadUintSpec(f.stream);
              if z.result.Err? then Step(z.stream, Err(z.result.error))
              else if !z.stream.seekable then Step(z.stream, Ok(Container(true, ReadMode, 0, 0, z.result.value)))
              else
                var c := SeekSpec(z.stream, 0, Current);
                Step(c.stream, Ok(Container(true, ReadMode, 0, c.result.value, z.result.value)))
  }

  /**
   * Opening for writing: the stream must be seekable and writable (else
   * ArgumentError); a header with flags 0 and size 0 is written and the
   * content starts right after it.
   */
  function OpenWriteSpec(s: StreamState, typeId: Uint32): (r: Step<Container>)
    requires s.Valid()
    ensures r.stream.Valid()
    ensures !(s.seekable && s.writable) ==> r == Step(s, Err(ArgumentError))
    ensures r.result.Ok? <==> s.seekable && s.writable
    ensures r.result.Ok? ==> r.result.value.Writable() && r.result.value.position == 0 && r.result.value.contentSize == 0
  {
    if !s.seekable || !s.writable then Step(s, Err(ArgumentError))
    else
      // The magic is written without checking the count; the checked writes
      // that follow cannot fall short on a writable stream.
      var (s1, _) := WriteSpec(s, MAGIC);
      var s2 := WriteByteSpec(s1, FORMAT_VERSION).stream;
      var s3 := WriteUintSpec(s2, typeId).stream;
      var s4 := WriteUintSpec(s3, 0).stream;
      var s5 := WriteUintSpec(s4, 0).stream;
      var c := SeekSpec(s5, 0, Current);
      Step(c.stream, Ok(Container(true, WriteMode, 0, c.result.value, 0)))
  }

  function OpenSpec(s: StreamState, typeId: Uint32, mode: OpenMode): Step<Container>
    requires s.Valid()
  {
    if mode == ReadMode then OpenReadSpec(s, typeId) else OpenWriteSpec(s, typeId)
  }

  // ----- close, read, write, seek

  /**
   * Closing a write container back-patches the size field four bytes before
   * the content (when the size fits 32 bits) and lets go of the stream;
   * closing anything else changes nothing.
   */
  function CloseSpec(c: Container, s: StreamState): (r: CStep<()>)
    requires s.Valid()
    ensures r.stream.Valid()
    ensures !c.Writable() ==> r == CStep(c, s, Ok(()))
    ensures r.result.Ok? ==> r.container == c.(attached := false) || !c.Writable()
  {
    if !c.Writable() then CStep(c, s, Ok(()))
    else if c.contentSize > UINT32_MAX then CStep(c.(attached := false), s, Ok(()))
    else
      var k := SeekSpec(s, c.contentStart - 4, Begin);
      if k.result.Err? then CStep(c, k.stream, Err(k.result.error))
      else
        var w := WriteUintSpec(k.stream, c.contentSize);
        if w.result.Err? then CStep(c, w.stream, Err(w.result.error))
        else CStep(c.(attached := false), w.stream, Ok(()))
  }

  /**
   * The count a read may deliver: what is left of the content. A negative
   * remainder converts to a huge size_t and so does not limit the count.
   */
  function ReadLimit(c: Container, count: nat): nat
  {
    if c.contentSize - c.position < 0 then count else Min(count, c.contentSize - c.position)
  }

  /** Reading needs a read container, delivers at most the rest of the content and advances the position by what arrived. */
  function ContentReadSpec(c: Container, s: StreamState, count: nat): (r: CStep<seq<Byte>>)
    requires s.Valid()
    ensures r.stream.Valid()
    ensures !c.Readable() ==> r == CStep(c, s, Err(IoError))
    ensures r.result.Ok? ==>
      (|r.result.value| <= ReadLimit(c, count) && r.container == c.(position := c.position + |r.result.value|))
  {
    if !c.Readable() then CStep(c, s, Err(IoError))
    else
      var (s1, got) := ReadSpec(s, ReadLimit(c, count));
      CStep(c.(position := c.position + |got|), s1, Ok(got))
  }

  /** Writing needs a write container; the position advances by what was written and the size never shrinks. */
  function ContentWriteSpec(c: Container, s: StreamState, bs: seq<Byte>): (r: CStep<nat>)
    requires s.Valid()
    ensures r.stream.Valid()
    ensures !c.Writable() ==> r == CStep(c, s, Err(IoError))
    ensures r.result.Ok? ==>
      (r.container.position == c.position + r.result.value &&
       r.container.contentSize == Max(c.contentSize, r.container.position))
  {
    if !c.Writable() then CStep(c, s, Err(IoError))
    else
      var (s1, n) := WriteSpec(s, bs);
      var p := c.position + n;
      CStep(c.(position := p, contentSize := if p > c.contentSize then p else c.contentSize), s1, Ok(n))
  }

  /** Where a seek from the current position lands: clamped below by the content start, and above by its end when reading. */
  function ClampCurrent(c: Container, at: int): int
  {
    var p := if c.mode == ReadMode then Min(at, c.contentStart + c.contentSize) else at;
    Max(p, c.contentStart)
  }

  /**
   * seek as written. `begin` clamps the offset into [0, content size] and
   * moves the stream; `current` computes a position but does not move the
   * stream; `end` moves to the content end (reading) or the stream end
   * (writing). The container's own position is never updated.
   */
  function ContentSeekAsWrittenSpec(c: Container, s: StreamState, offset: int, origin: SeekOrigin): (r: CStep<int>)
    requires s.Valid()
    ensures r.stream.Valid() && r.container == c
  {
    if !(c.attached && s.seekable) then CStep(c, s, Err(IoError))
    else
      match origin
      case Begin =>
        var k := SeekSpec(s, c.contentStart + Max(0, Min(c.contentSize, offset)), Begin);
        if k.result.Err? then CStep(c, k.stream, Err(k.result.error))
        else CStep(c, k.stream, Ok(k.result.value - c.contentStart))
      case Current =>
        var k := SeekSpec(s, 0, Current);
        if k.result.Err? then CStep(c, k.stream, Err(k.result.error))
        else CStep(c, k.stream, Ok(ClampCurrent(c, k.result.value + offset) - c.contentStart))
      case End =>
        var k := if c.mode == ReadMode then SeekSpec(s, c.contentStart + c.contentSize, Begin) else SeekSpec(s, 0, End);
        if k.result.Err? then CStep(c, k.stream, Err(k.result.error))
        else CStep(c, k.stream, Ok(k.result.value - c.contentStart))
  }

  /**
   * seek as intended: the same targets, but `current` moves the stream to the
   * clamped position and every successful seek also sets the container's
   * position, which read and write count from.
   */
  function ContentSeekSpec(c: Container, s: StreamState, offset: int, origin: SeekOrigin): (r: CStep<int>)
    requires s.Valid()
    ensures r.stream.Valid()
    ensures r.result.Ok? ==> r.container == c.(position := r.result.value)
    ensures r.result.Err? ==> r.container == c
    ensures r.result.Ok? ==> r.stream.pos == c.contentStart + r.result.value
    ensures r.result.Ok? && origin == Begin ==> 0 <= r.result.value <= Max(0, c.contentSize)
    ensures r.result.Ok? && origin == End && c.mode == ReadMode ==> r.result.value == c.contentSize
  {
    if !(c.attached && s.seekable) then CStep(c, s, Err(IoError))
    else
      var k :=
        match origin
        case Begin => SeekSpec(s, c.contentStart + Max(0, Min(c.contentSize, offset)), Begin)
        case Current => SeekSpec(s, ClampCurrent(c, s.pos + offset), Begin)
        case End => if c.mode == ReadMode then SeekSpec(s, c.contentStart + c.contentSize, Begin) else SeekSpec(s, 0, End);
      if k.result.Err? then CStep(c, k.stream, Err(k.result.error))
      else CStep(c.(position := k.result.value - c.contentStart), k.stream, Ok(k.result.value - c.contentStart))
  }

  // ----- the container as an object over a stream object

  class ContainerStream {
    const underlying: ByteStream
    const mode: OpenMode
    var attached: bool
    var position: int
    var contentStart: nat
    var contentSize: nat

    function Fields(): Container
      reads this
    {
      Container(attached, mode, position, contentStart, contentSize)
    }

    constructor Attach(s: ByteStream, m: OpenMode, start: nat, size: nat)
      ensures underlying == s && Fields() == Container(true, m, 0, start, size)
    {
      underlying := s;
      mode := m;
      attached := true;
      position := 0;
      contentStart := start;
      contentSize := size;
    }

    /** Opens a container over `s`, reading or writing its header. */
    static method Open(s: ByteStream, typeId: Uint32, m: OpenMode) returns (r: Result<ContainerStream>)
      requires s.Valid()
      modifies s
      ensures s.Valid()
      ensures var spec := OpenSpec(old(s.State()), typeId, m);
        s.State() == spec.stream && r.Ok? == spec.result.Ok? &&
        (r.Ok? ==> fresh(r.value) && r.value.underlying == s && r.value.Fields() == spec.result.value) &&
        (r.Err? ==> r.error == spec.result.error)
    {
      if m == ReadMode {
        r := OpenRead(s, typeId);
      } else {
        r := OpenWrite(s, typeId);
      }
    }

    static method OpenRead(s: ByteStream, typeId: Uint32) returns (r: Result<ContainerStream>)
      requires s.Valid()
      modifies s
      ensures s.Valid()
      ensures var spec := OpenReadSpec(old(s.State()), typeId);
        s.State() == spec.stream && r.Ok? == spec.result.Ok? &&
        (r.Ok? ==> fresh(r.value) && r.value.underlying == s && r.value.Fields() == spec.result.value) &&
        (r.Err? ==> r.error == spec.result.error)
    {
      if !s.readable {
        return Err(ArgumentError);
      }
      var magic := s.Read(|MAGIC|);
      if magic != MAGIC {
        return Err(InvalidFormat);
      }
      var version := ReadByte(s);
      if version.Err? {
        return Err(version.error);
      }
      if version.value != FORMAT_VERSION {
        return Err(InvalidFormat);
      }
      var fileTypeId := ReadUint(s);
      if fileTypeId.Err? {
        return Err(fileTypeId.error);
      }
      if fileTypeId.value != typeId {
        return Err(InvalidFormat);
      }
      var flags := ReadUint(s);
      if flags.Err? {
        return Err(flags.error);
      }
      if flags.value != 0 {
        return Err(InvalidFormat);
      }
      var size := ReadUint(s);
      if size.Err? {
        return Err(size.error);
      }
      var start := 0;
      if s.seekable {
        var at := s.Seek(0, Current);
        start := at.value;
      }
      var c := new ContainerStream.Attach(s, ReadMode, start, size.value);
      r := Ok(c);
    }

    static method OpenWrite(s: ByteStream, typeId: Uint32) returns (r: Result<ContainerStream>)
      requires s.Valid()
      modifies s
      ensures s.Valid()
      ensures var spec := OpenWriteSpec(old(s.State()), typeId);
        s.State() == spec.stream && r.Ok? == spec.result.Ok? &&
        (r.Ok? ==> fresh(r.value) && r.value.underlying == s && r.value.Fields() == spec.result.value) &&
        (r.Err? ==> r.error == spec.result.error)
    {
      if !s.seekable || !s.writable {
        return Err(ArgumentError);
      }
      var _ := s.Write(MAGIC);
      var _ := WriteByte(s, FORMAT_VERSION);
      var _ := WriteUint(s, typeId);
      var _ := WriteUint(s, 0);
      var _ := WriteUint(s, 0);
      var at := s.Seek(0, Current);
      var c := new ContainerStream.Attach(s, WriteMode, at.value, 0);
      r := Ok(c);
    }

    method Close() returns (r: Result<()>)
      requires underlying.Valid()
      modifies this, underlying
      ensures underlying.Valid()
      ensures CStep(Fields(), underlying.State(), r) == CloseSpec(old(Fields()), old(underlying.State()))
    {
      if !(attached && mode == WriteMode) {
        return Ok(());
      }
      if contentSize > UINT32_MAX {
        attached := false;
        return Ok(());
      }
      var k := underlying.Seek(contentStart - 4, Begin);
      if k.Err? {
        return Err(k.error);
      }
      r := WriteUint(underlying, contentSize);
      if r.Err? {
        return;
      }
      attached := false;
    }

    method Read(count: nat) returns (r: Result<seq<Byte>>)
      requires underlying.Valid()
      modifies this, underlying
      ensures underlying.Valid()
      ensures CStep(Fields(), underlying.State(), r) == ContentReadSpec(old(Fields()), old(underlying.State()), count)
    {
      if !(attached && mode == ReadMode) {
        return Err(IoError);
      }
      var got := underlying.Read(ReadLimit(Fields(), count));
      position := position + |got|;
      r := Ok(got);
    }

    method Write(bs: seq<Byte>) returns (r: Result<nat>)
      requires underlying.Valid()
      modifies this, underlying
      ensures underlying.Valid()
      ensures CStep(Fields(), underlying.State(), r) == ContentWriteSpec(old(Fields()), old(underlying.State()), bs)
    {
      if !(attached && mode == WriteMode) {
        return Err(IoError);
      }
      var n := underlying.Write(bs);
      position := position + n;
      if position > contentSize {
        contentSize := position;
      }
      r := Ok(n);
    }

    method SeekAsWritten(offset: int, origin: SeekOrigin) returns (r: Result<int>)
      requires underlying.Valid()
      modifies underlying
      ensures underlying.Valid()
      ensures CStep(Fields(), underlying.State(), r) == ContentSeekAsWrittenSpec(Fields(), old(underlying.State()), offset, origin)
    {
      if !(attached && underlying.seekable) {
        return Err(IoError);
      }
      var k: Result<int>;
      match origin {
        case Begin =>
          k := underlying.Seek(contentStart + Max(0, Min(contentSize, offset)), Begin);
        case Current =>
          k := underlying.Seek(0, Current);
          if k.Ok? {
            k := Ok(ClampCurrent(Fields(), k.value + offset));
          }
        case End =>
          if mode == ReadMode {
            k := underlying.Seek(contentStart + contentSize, Begin);
          } else {
            k := underlying.Seek(0, End);
          }
      }
      if k.Err? {
        return Err(k.error);
      }
      r := Ok(k.value - contentStart);
    }

    method Seek(offset: int, origin: SeekOrigin) returns (r: Result<int>)
      requires underlying.Valid()
      modifies this, underlying
      ensures underlying.Valid()
      ensures CStep(Fields(), underlying.State(), r) == ContentSeekSpec(old(Fields()), old(underlying.State()), offset, origin)
    {
      if !(attached && underlying.seekable) {
        return Err(IoError);
      }
      var k: Result<int>;
      match origin {
        case Begin =>
          k := underlying.Seek(contentStart + Max(0, Min(contentSize, offset)), Begin);
        case Current =>
          k := underlying.Seek(ClampCurrent(Fields(), underlying.pos + offset), Begin);
        case End =>
          if mode == ReadMode {
            k := underlying.Seek(contentStart + contentSize, Begin);
          } else {
            k := underlying.Seek(0, End);
          }
      }
      if k.Err? {
        return Err(k.error);
      }
      position := k.value - contentStart;
      r := Ok(k.value - contentStart);
    }
  }

  // ----- the file layout

  /** Writing at the end of a writable stream appends. */
  lemma {:induction false} AppendUint(s: StreamState, x: Uint32)
    requires s.Valid() && s.writable && s.pos == |s.bytes|
    ensures WriteUintSpec(s, x) == Step(s.(bytes := s.bytes + LeBytes(x, 4), pos := |s.bytes| + 4), Ok(()))
  {
    AppendChecked(s, LeBytes(x, 4));
  }

  /** The header is its five fields one after another. */
  lemma {:induction false} HeaderAppended(b: seq<Byte>, typeId: Uint32, size: Uint32)
    ensures b + MAGIC + [FORMAT_VERSION] + LeBytes(typeId, 4) + LeBytes(0, 4) + LeBytes(size, 4) == b + Header(typeId, size)
  {
  }

  /** Where each field of the header sits. */
  lemma {:induction false} HeaderParts(typeId: Uint32, size: Uint32)
    ensures var h := Header(typeId, size);
      h[..3] == MAGIC && h[3] == FORMAT_VERSION && h[4..8] == LeBytes(typeId, 4) &&
      h[8..12] == LeBytes(0, 4) && h[12..16] == LeBytes(size, 4)
  {
  }

  /** A piece of a stretch of bytes known to equal `w`. */
  lemma {:induction false} SliceOf(bs: seq<Byte>, p: nat, w: seq<Byte>, i: nat, j: nat)
    requires p + |w| <= |bs| && bs[p..p + |w|] == w && i <= j <= |w|
    ensures bs[p + i..p + j] == w[i..j]
  {
    forall m | 0 <= m < j - i
      ensures bs[p + i..p + j][m] == w[i..j][m]
    {
      assert w[i + m] == bs[p..p + |w|][i + m];
    }
  }

  /** Overwriting a piece of equal length replaces just that piece. */
  lemma {:induction false} Patch(pre: seq<Byte>, mid: seq<Byte>, post: seq<Byte>, bs: seq<Byte>)
    requires |mid| == |bs|
    ensures Overwrite(pre + mid + post, |pre|, bs) == pre + bs + post
  {
    var all := pre + mid + post;
    assert all[..|pre|] == pre;
    assert all[|pre| + |bs|..] == post;
  }

  /** Opening for writing at the end of a stream appends a header with size 0. */
  lemma {:induction false} OpenWriteLayout(s: StreamState, typeId: Uint32)
    requires s.Valid() && s.writable && s.seekable && s.pos == |s.bytes|
    ensures var o := OpenWriteSpec(s, typeId);
      o.result == Ok(Container(true, WriteMode, 0, |s.bytes| + HEADER_SIZE, 0)) &&
      o.stream == s.(bytes := s.bytes + Header(typeId, 0), pos := |s.bytes| + HEADER_SIZE)
  {
    var b := s.bytes;
    var n := |b|;
    HeaderStartWritten(s, typeId);
    var s3 := s.(bytes := b + MAGIC + [FORMAT_VERSION] + LeBytes(typeId, 4), pos := n + 8);
    AppendUint(s3, 0);
    var s4 := s.(bytes := b + MAGIC + [FORMAT_VERSION] + LeBytes(typeId, 4) + LeBytes(0, 4), pos := n + 12);
    AppendUint(s4, 0);
    HeaderAppended(b, typeId, 0);
  }

  /** The magic, the format version and the type id go out first, appended one after another. */
  lemma {:induction false} HeaderStartWritten(s: StreamState, typeId: Uint32)
    requires s.Valid() && s.writable && s.pos == |s.bytes|
    ensures var s1 := WriteSpec(s, MAGIC).0;
      var s2 := WriteByteSpec(s1, FORMAT_VERSION).stream;
      WriteUintSpec(s2, typeId).stream == s.(bytes := s.bytes + MAGIC + [FORMAT_VERSION] + LeBytes(typeId, 4), pos := |s.bytes| + 8)
  {
    var b := s.bytes;
    var n := |b|;
    AppendWrite(s, MAGIC);
    var s1 := s.(bytes := b + MAGIC, pos := n + 3);
    AppendChecked(s1, [FORMAT_VERSION]);
    var s2 := s.(bytes := b + MAGIC + [FORMAT_VERSION], pos := n + 4);
    AppendUint(s2, typeId);
  }

  /** Writing a 32-bit value over four bytes in the middle of a stream replaces just those. */
  lemma {:induction false} PatchUint(k: StreamState, pre: seq<Byte>, old4: seq<Byte>, post: seq<Byte>, x: Uint32)
    requires k.Valid() && k.writable && |old4| == 4 && k.bytes == pre + old4 + post && k.pos == |pre|
    ensures WriteUintSpec(k, x) == Step(k.(bytes := pre + LeBytes(x, 4) + post, pos := |pre| + 4), Ok(()))
  {
    assert x % 0x1_0000_0000 == x;
    OverwriteChecked(k, LeBytes(x, 4));
    Patch(pre, old4, post, LeBytes(x, 4));
  }

  /** Closing a write container whose header sits after `b` patches the size in and detaches. */
  lemma {:induction false} ClosePatch(c: Container, t: StreamState, b: seq<Byte>, typeId: Uint32, data: seq<Byte>)
    requires t.Valid() && t.writable && t.seekable && |data| <= UINT32_MAX
    requires c.Writable() && c.contentStart == |b| + HEADER_SIZE && c.contentSize == |data|
    requires t.bytes == b + Header(typeId, 0) + data
    ensures CloseSpec(c, t) == CStep(c.(attached := false), t.(bytes := b + Header(typeId, |data|) + data, pos := |b| + HEADER_SIZE), Ok(()))
  {
    var pre := b + MAGIC + [FORMAT_VERSION] + LeBytes(typeId, 4) + LeBytes(0, 4);
    HeaderAppended(b, typeId, 0);
    HeaderAppended(b, typeId, |data|);
    var k := t.(pos := |b| + 12);
    assert SeekSpec(t, c.contentStart - 4, Begin) == Step(k, Ok(|b| + 12));
    PatchUint(k, pre, LeBytes(0, 4), data, |data|);
  }

  /**
   * A container written at the end of a stream and closed leaves exactly its
   * header, carrying the content size, followed by the content.
   */
  lemma {:induction false} WriteCloseLayout(s: StreamState, typeId: Uint32, data: seq<Byte>)
    requires s.Valid() && s.writable && s.seekable && s.pos == |s.bytes| && |data| <= UINT32_MAX
    ensures var o := OpenWriteSpec(s, typeId);
      o.result.Ok? &&
      var w := ContentWriteSpec(o.result.value, o.stream, data);
      w.result == Ok(|data|) && w.container.contentSize == |data| &&
      var cl := CloseSpec(w.container, w.stream);
      cl.result.Ok? && !cl.container.attached &&
      cl.stream == s.(bytes := s.bytes + Header(typeId, |data|) + data, pos := |s.bytes| + HEADER_SIZE)
  {
    OpenWriteLayout(s, typeId);
    var o := OpenWriteSpec(s, typeId);
    AppendWrite(o.stream, data);
    var w := ContentWriteSpec(o.result.value, o.stream, data);
    ClosePatch(w.container, w.stream, s.bytes, typeId, data);
  }

  /** The fields of a header found at `p`. */
  lemma {:induction false} HeaderAt(bs: seq<Byte>, p: nat, typeId: Uint32, size: Uint32)
    requires p + HEADER_SIZE <= |bs| && bs[p..p + HEADER_SIZE] == Header(typeId, size)
    ensures FieldsAt(bs, p, typeId, size)
  {
    var h := Header(typeId, size);
    HeaderParts(typeId, size);
    SliceOf(bs, p, h, 0, 3);
    SliceOf(bs, p, h, 4, 8);
    SliceOf(bs, p, h, 8, 12);
    SliceOf(bs, p, h, 12, 16);
    assert bs[p + 3] == h[3];
  }

  /** The header fields of a container of `typeId` holding `size` bytes, at `p`. */
  predicate FieldsAt(bs: seq<Byte>, p: nat, typeId: Uint32, size: Uint32)
  {
    p + HEADER_SIZE <= |bs| && bs[p..p + 3] == MAGIC && bs[p + 3] == FORMAT_VERSION &&
    bs[p + 4..p + 8] == LeBytes(typeId, 4) && bs[p + 8..p + 12] == LeBytes(0, 4) && bs[p + 12..p + 16] == LeBytes(size, 4)
  }

  /** A stream positioned on the header of a container of `typeId` opens it for reading. */
  lemma {:induction false} OpenReadAt(s: StreamState, typeId: Uint32, size: Uint32)
    requires s.Valid() && s.readable && s.seekable
    requires s.pos + HEADER_SIZE <= |s.bytes| && s.bytes[s.pos..s.pos + HEADER_SIZE] == Header(typeId, size)
    ensures OpenReadSpec(s, typeId) == Step(s.(pos := s.pos + HEADER_SIZE), Ok(Container(true, ReadMode, 0, s.pos + HEADER_SIZE, size)))
  {
    HeaderAt(s.bytes, s.pos, typeId, size);
    OpenReadFields(s, typeId, size);
  }

  lemma {:induction false} OpenReadFields(s: StreamState, typeId: Uint32, size: Uint32)
    requires s.Valid() && s.readable && s.seekable && FieldsAt(s.bytes, s.pos, typeId, size)
    ensures OpenReadSpec(s, typeId) == Step(s.(pos := s.pos + HEADER_SIZE), Ok(Container(true, ReadMode, 0, s.pos + HEADER_SIZE, size)))
  {
    var p := s.pos;
    var s1, s2, s3, s4, s5 := s.(pos := p + 3), s.(pos := p + 4), s.(pos := p + 8), s.(pos := p + 12), s.(pos := p + 16);
    assert ReadSpec(s, |MAGIC|) == (s1, MAGIC);
    ByteAt(s1, FORMAT_VERSION);
    UintAt(s2, typeId);
    UintAt(s3, 0);
    UintAt(s4, size);
    assert SeekSpec(s5, 0, Current) == Step(s5, Ok(p + 16));
  }

  /** A container of another type does not open: the type id is checked. */
  lemma {:induction false} OtherTypeRejected(s: StreamState, typeId: Uint32, other: Uint32, size: Uint32)
    requires s.Valid() && s.readable && other != typeId
    requires s.pos + HEADER_SIZE <= |s.bytes| && s.bytes[s.pos..s.pos + HEADER_SIZE] == Header(other, size)
    ensures OpenReadSpec(s, typeId) == Step(s.(pos := s.pos + 8), Err(InvalidFormat))
  {
    HeaderAt(s.bytes, s.pos, other, size);
    var p := s.pos;
    ByteAt(s.(pos := p + 3), FORMAT_VERSION);
    UintAt(s.(pos := p + 4), other);
  }

  /**
   * A read container over a stream whose content is `data`, with the stream
   * sitting where the container's position says.
   */
  predicate Synced(c: Container, t: StreamState, data: seq<Byte>)
  {
    t.Valid() && t.readable && t.seekable && c.Readable() && c.contentSize == |data| &&
    0 <= c.position <= |data| && c.contentStart + |data| <= |t.bytes| &&
    t.bytes[c.contentStart..c.contentStart + |data|] == data &&
    t.pos == c.contentStart + c.position
  }

  /**
   * Opening a container whose header and content sit at the position gives
   * a container with the declared size, at the start of its content.
   */
  lemma {:induction false} ReadBackLayout(s: StreamState, typeId: Uint32, data: seq<Byte>)
    requires s.Valid() && s.readable && s.seekable && |data| <= UINT32_MAX
    requires s.pos + HEADER_SIZE + |data| <= |s.bytes|
    requires s.bytes[s.pos..s.pos + HEADER_SIZE + |data|] == Header(typeId, |data|) + data
    ensures var o := OpenReadSpec(s, typeId);
      o == Step(s.(pos := s.pos + HEADER_SIZE), Ok(Container(true, ReadMode, 0, s.pos + HEADER_SIZE, |data|))) &&
      Synced(o.result.value, o.stream, data)
  {
    var h := Header(typeId, |data|) + data;
    var p := s.pos;
    SliceOf(s.bytes, p, h, 0, HEADER_SIZE);
    SliceOf(s.bytes, p, h, HEADER_SIZE, HEADER_SIZE + |data|);
    assert h[..HEADER_SIZE] == Header(typeId, |data|);
    assert h[HEADER_SIZE..HEADER_SIZE + |data|] == data;
    OpenReadAt(s, typeId, |data|);
  }

  /** A read delivers the content from the position on, up to the count, and keeps the container in step with its stream. */
  lemma {:induction false} ReadContent(c: Container, t: StreamState, data: seq<Byte>, count: nat)
    requires Synced(c, t, data)
    ensures var n := Min(count, |data| - c.position);
      var r := ContentReadSpec(c, t, count);
      r.result == Ok(data[c.position..c.position + n]) &&
      r.container == c.(position := c.position + n) && r.stream == t.(pos := t.pos + n) &&
      Synced(r.container, r.stream, data)
  {
    var n := Min(count, |data| - c.position);
    SliceOf(t.bytes, c.contentStart, data, c.position, c.position + n);
  }

  /** Where a seek lands within content of `size` bytes. */
  function SeekTarget(c: Container, offset: int, origin: SeekOrigin, size: nat): nat
  {
    match origin
    case Begin => Max(0, Min(size, offset))
    case Current => Max(0, Min(size, c.position + offset))
    case End => size
  }

  /**
   * The intended seek always succeeds on a synced container, lands within
   * the content, and keeps the container in step with its stream.
   */
  lemma {:induction false} SeekKeepsSync(c: Container, t: StreamState, data: seq<Byte>, offset: int, origin: SeekOrigin)
    requires Synced(c, t, data)
    ensures var k := ContentSeekSpec(c, t, offset, origin);
      k.result == Ok(SeekTarget(c, offset, origin, |data|)) && Synced(k.container, k.stream, data)
  {
  }

  /** With the intended seek, seeking back to the start and reading delivers the whole content again. */
  lemma {:induction false} RereadAfterSeek(c: Container, t: StreamState, data: seq<Byte>)
    requires Synced(c, t, data)
    ensures var k := ContentSeekSpec(c, t, 0, Begin);
      k.result == Ok(0) && ContentReadSpec(k.container, k.stream, |data|).result == Ok(data)
  {
    SeekKeepsSync(c, t, data, 0, Begin);
    var k := ContentSeekSpec(c, t, 0, Begin);
    ReadContent(k.container, k.stream, data, |data|);
    assert data[0..|data|] == data;
  }

  /**
   * As written, seek(0, begin) after reading moves the stream back but
   * leaves the position, so a read then stops short of the content's end.
   */
  lemma {:induction false} SeekBeginAsWrittenRereadsShort(c: Container, t: StreamState, data: seq<Byte>)
    requires Synced(c, t, data) && c.position > 0
    ensures var k := ContentSeekAsWrittenSpec(c, t, 0, Begin);
      k.result == Ok(0) && !Synced(k.container, k.stream, data) &&
      ContentReadSpec(k.container, k.stream, |data|).result == Ok(data[..|data| - c.position])
  {
    var n := |data| - c.position;
    SliceOf(t.bytes, c.contentStart, data, 0, n);
  }

  /**
   * As written, seek(1, current) reports the next position but does not move
   * the stream, so the next read delivers the byte the seek meant to skip.
   */
  lemma {:induction false} SeekCurrentAsWrittenStays(c: Container, t: StreamState, data: seq<Byte>)
    requires Synced(c, t, data) && c.position < |data|
    ensures var k := ContentSeekAsWrittenSpec(c, t, 1, Current);
      k.result == Ok(c.position + 1) && k.stream == t && k.container == c &&
      ContentReadSpec(k.container, k.stream, 1).result == Ok(data[c.position..c.position + 1])
  {
    ReadContent(c, t, data, 1);
  }

  /** The header pieces that the reads checked, put back together. */
  lemma {:induction false} HeaderFromParts(bs: seq<Byte>, p: nat, typeId: Uint32, size: Uint32)
    requires p + HEADER_SIZE <= |bs|
    requires bs[p..p + 3] == MAGIC && bs[p + 3..p + 4] == [FORMAT_VERSION]
    requires bs[p + 4..p + 8] == LeBytes(typeId, 4) && bs[p + 8..p + 12] == LeBytes(0, 4) && bs[p + 12..p + 16] == LeBytes(size, 4)
    ensures bs[p..p + HEADER_SIZE] == Header(typeId, size)
  {
    assert bs[p..p + 16] == bs[p..p + 3] + bs[p + 3..p + 4] + bs[p + 4..p + 8] + bs[p + 8..p + 12] + bs[p + 12..p + 16];
  }

  /** Conversely, a container opens for reading only over its own header, whatever the size field says. */
  lemma {:induction false} OpenReadHeader(s: StreamState, typeId: Uint32)
    requires s.Valid()
    ensures var o := OpenReadSpec(s, typeId);
      o.result.Ok? ==>
        s.pos + HEADER_SIZE <= |s.bytes| &&
        s.bytes[s.pos..s.pos + HEADER_SIZE] == Header(typeId, o.result.value.contentSize)
  {
    var o := OpenReadSpec(s, typeId);
    if o.result.Ok? {
      var (s1, magic) := ReadSpec(s, |MAGIC|);
      var v := ReadByteSpec(s1);
      var t1 := ReadUintSpec(v.stream);
      var t2 := ReadUintSpec(t1.stream);
      var t3 := ReadUintSpec(t2.stream);
      assert magic == MAGIC && v.result == Ok(FORMAT_VERSION) && t1.result == Ok(typeId) && t2.result == Ok(0);
      assert t3.result == Ok(o.result.value.contentSize);
      HeaderFieldsRead(s, s1, v.stream, t1.stream, t2.stream, typeId, o.result.value.contentSize);
    }
  }

  /** Header fields read one after another with the expected values were stored there as a header. */
  lemma {:induction false} HeaderFieldsRead(s: StreamState, s1: StreamState, s2: StreamState, s3: StreamState, s4: StreamState,
                                            typeId: Uint32, size: Uint32)
    requires s.Valid() && s.readable && ReadSpec(s, |MAGIC|) == (s1, MAGIC)
    requires s1.Valid() && ReadByteSpec(s1) == Step(s2, Ok(FORMAT_VERSION))
    requires s2.Valid() && ReadUintSpec(s2) == Step(s3, Ok(typeId))
    requires s3.Valid() && ReadUintSpec(s3) == Step(s4, Ok(0))
    requires s4.Valid() && ReadUintSpec(s4).result == Ok(size)
    ensures s.pos + HEADER_SIZE <= |s.bytes| && s.bytes[s.pos..s.pos + HEADER_SIZE] == Header(typeId, size)
  {
    var p := s.pos;
    assert s1 == s.(pos := p + 3) && s.bytes[p..p + 3] == MAGIC;
    ByteFieldRead(s1, FORMAT_VERSION);
    assert s2 == s.(pos := p + 4);
    UintFieldRead(s2, typeId);
    UintFieldRead(s3, 0);
    UintFieldRead(s4, size);
    HeaderFromParts(s.bytes, p, typeId, size);
  }

  /** A one-byte read that returned `x` found it at the position and moved past it. */
  lemma {:induction false} ByteFieldRead(t: StreamState, x: Byte)
    requires t.Valid() && ReadByteSpec(t).result == Ok(x)
    ensures t.pos + 1 <= |t.bytes| && ReadByteSpec(t).stream == t.(pos := t.pos + 1)
    ensures t.bytes[t.pos..t.pos + 1] == [x]
  {
    UnsignedReadBytes(t, 1);
    assert LeBytes(x, 1) == [x % 256] + LeBytes(x / 256, 0);
  }

  /** A 32-bit read that returned `x` found its encoding at the position and moved past it. */
  lemma {:induction false} UintFieldRead(t: StreamState, x: Uint32)
    requires t.Valid() && ReadUintSpec(t).result == Ok(x)
    ensures t.pos + 4 <= |t.bytes| && ReadUintSpec(t).stream == t.(pos := t.pos + 4)
    ensures t.bytes[t.pos..t.pos + 4] == LeBytes(x, 4)
  {
    UnsignedReadBytes(t, 4);
  }

  lemma {:induction false} AfterPrefix(a: seq<Byte>, h: seq<Byte>, d: seq<Byte>)
    ensures (a + h + d)[|a|..|a| + |h| + |d|] == h + d
  {
  }

  /** Reading a whole container back from its header. */
  lemma {:induction false} ReadBackAll(s: StreamState, typeId: Uint32, data: seq<Byte>)
    requires s.Valid() && s.readable && s.seekable && |data| <= UINT32_MAX
    requires s.pos + HEADER_SIZE + |data| <= |s.bytes|
    requires s.bytes[s.pos..s.pos + HEADER_SIZE + |data|] == Header(typeId, |data|) + data
    ensures var i := OpenReadSpec(s, typeId);
      i.result.Ok? && i.result.value.contentSize == |data| &&
      ContentReadSpec(i.result.value, i.stream, |data|).result == Ok(data)
  {
    ReadBackLayout(s, typeId, data);
    var i := OpenReadSpec(s, typeId);
    ReadContent(i.result.value, i.stream, data, |data|);
    assert data[0..|data|] == data;
  }

  /** A container written and closed at the end of a stream reads back, from where it began, with its content intact. */
  lemma {:induction false} ContainerRoundTrip(s: StreamState, typeId: Uint32, data: seq<Byte>)
    requires s.Valid() && s.readable && s.writable && s.seekable && s.pos == |s.bytes| && |data| <= UINT32_MAX
    ensures var o := OpenWriteSpec(s, typeId);
      o.result.Ok? &&
      var w := ContentWriteSpec(o.result.value, o.stream, data);
      var cl := CloseSpec(w.container, w.stream);
      var back := cl.stream.(pos := s.pos);
      back.Valid() &&
      var i := OpenReadSpec(back, typeId);
      i.result.Ok? && i.result.value.contentSize == |data| &&
      ContentReadSpec(i.result.value, i.stream, |data|).result == Ok(data)
  {
    WriteCloseLayout(s, typeId, data);
    var o := OpenWriteSpec(s, typeId);
    var w := ContentWriteSpec(o.result.value, o.stream, data);
    var cl := CloseSpec(w.container, w.stream);
    var back := cl.stream.(pos := s.pos);
    WrittenBack(s, typeId, data, back);
    ReadBackAll(back, typeId, data);
  }

  /** The stream after the write, rewound to where the container began, holds its header and content there. */
  lemma {:induction false} WrittenBack(s: StreamState, typeId: Uint32, data: seq<Byte>, back: StreamState)
    requires s.Valid() && s.pos == |s.bytes| && |data| <= UINT32_MAX
    requires back == s.(bytes := s.bytes + Header(typeId, |data|) + data)
    ensures back.Valid() && back.pos + HEADER_SIZE + |data| <= |back.bytes|
    ensures back.bytes[back.pos..back.pos + HEADER_SIZE + |data|] == Header(typeId, |data|) + data
  {
    AfterPrefix(s.bytes, Header(typeId, |data|), data);
  }
}
