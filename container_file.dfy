/**
 * The load/write pattern shared by the engine's asset files (the KMF model
 * file of src/renderer/io/kmf.cpp and the KSF shader file of
 * src/renderer/io/ksf.cpp): a serialized payload inside a container with a
 * fixed content type id.
 */
module ContainerFile {
  import opened Errors
  import opened Bytes
  import opened Streams
  import opened Serialize
  import opened Container

  /** The payload decoded from its first byte; any decoding error becomes InvalidFormat. */
  function Decoded<T>(dec: Decoder<T>, payload: seq<Byte>): (r: Result<T>)
    ensures r.Err? ==> r.error == InvalidFormat
  {
    match dec(payload, 0)
    case Err(_) => Err(InvalidFormat)
    case Ok((x, _)) => Ok(x)
  }

  /**
   * Loading: the stream must be readable and seekable (else ArgumentError);
   * the container is opened, its content size found by seeking to its end,
   * the whole content read back from its start (a short read is an I/O
   * error) and decoded.
   */
  function LoadSpec<T>(s: StreamState, typeId: Uint32, dec: Decoder<T>): (r: Step<T>)
    requires s.Valid()
    ensures r.stream.Valid()
    ensures !(s.readable && s.seekable) ==> r == Step(s, Err(ArgumentError))
  {
    if !s.readable || !s.seekable then Step(s, Err(ArgumentError))
    else
      var o := OpenReadSpec(s, typeId);
      if o.result.Err? then Step(o.stream, Err(o.result.error))
      else
        var e := ContentSeekSpec(o.result.value, o.stream, 0, End);
        if e.result.Err? then Step(e.stream, Err(IoError))
        else
          var size: nat := e.result.value;
          var b := ContentSeekSpec(e.container, e.stream, 0, Begin);
          if b.result.Err? then Step(b.stream, Err(IoError))
          else
            var got := ContentReadSpec(b.container, b.stream, size);
            if got.result.Err? || |got.result.value| != size then Step(got.stream, Err(IoError))
            else Step(got.stream, Decoded(dec, got.result.value))
  }

  /**
   * Writing: the stream must be writable and seekable (else ArgumentError);
   * the payload is written into a fresh container (a short write is an I/O
   * error) and the container is closed.
   */
  function WriteFileSpec(s: StreamState, typeId: Uint32, payload: seq<Byte>): (r: Step<()>)
    requires s.Valid()
    ensures r.stream.Valid()
    ensures !(s.writable && s.seekable) ==> r == Step(s, Err(ArgumentError))
  {
    if !s.writable || !s.seekable then Step(s, Err(ArgumentError))
    else
      // Opening cannot fail on a writable, seekable stream.
      var o := OpenWriteSpec(s, typeId);
      var w := ContentWriteSpec(o.result.value, o.stream, payload);
      if w.result != Ok(|payload|) then Step(w.stream, Err(IoError))
      else
        var cl := CloseSpec(w.container, w.stream);
        Step(cl.stream, cl.result)
  }

  // ----- properties

  /** Writing at the end of a stream appends the container: header, then payload. */
  lemma {:induction false} WriteLayout(s: StreamState, typeId: Uint32, payload: seq<Byte>)
    requires s.Valid() && s.writable && s.seekable && s.pos == |s.bytes| && |payload| <= UINT32_MAX
    ensures WriteFileSpec(s, typeId, payload) ==
      Step(s.(bytes := s.bytes + Header(typeId, |payload|) + payload, pos := |s.bytes| + HEADER_SIZE), Ok(()))
  {
    WriteCloseLayout(s, typeId, data := payload);
  }

  /** The content of a container is found, read in full and decoded. */
  lemma {:induction false} LoadFromSync<T>(c: Container, t: StreamState, dec: Decoder<T>, payload: seq<Byte>)
    requires Synced(c, t, payload)
    ensures var e := ContentSeekSpec(c, t, 0, End);
      e.result == Ok(|payload|) &&
      var b := ContentSeekSpec(e.container, e.stream, 0, Begin);
      b.result == Ok(0) &&
      var got := ContentReadSpec(b.container, b.stream, |payload|);
      got.result == Ok(payload)
  {
    SeekKeepsSync(c, t, payload, 0, End);
    var e := ContentSeekSpec(c, t, 0, End);
    SeekKeepsSync(e.container, e.stream, payload, 0, Begin);
    var b := ContentSeekSpec(e.container, e.stream, 0, Begin);
    ReadContent(b.container, b.stream, payload, |payload|);
    assert payload[0..|payload|] == payload;
  }

  /**
   * Loading a stream positioned on a container of the expected type yields
   * the decoded payload, or InvalidFormat when it does not decode.
   */
  lemma {:induction false} LoadContent<T>(s: StreamState, typeId: Uint32, dec: Decoder<T>, payload: seq<Byte>)
    requires s.Valid() && s.readable && s.seekable && |payload| <= UINT32_MAX
    requires s.pos + HEADER_SIZE + |payload| <= |s.bytes|
    requires s.bytes[s.pos..s.pos + HEADER_SIZE + |payload|] == Header(typeId, |payload|) + payload
    ensures LoadSpec(s, typeId, dec).result == Decoded(dec, payload)
  {
    ReadBackLayout(s, typeId, payload);
    var o := OpenReadSpec(s, typeId);
    LoadFromSync(o.result.value, o.stream, dec, payload);
  }

  /** What is written loads back: the loaded value is the payload decoded. */
  lemma {:induction false} FileRoundTrip<T>(s: StreamState, typeId: Uint32, dec: Decoder<T>, payload: seq<Byte>)
    requires s.Valid() && s.readable && s.writable && s.seekable && s.pos == |s.bytes| && |payload| <= UINT32_MAX
    ensures var w := WriteFileSpec(s, typeId, payload);
      w.result == Ok(()) && w.stream.(pos := s.pos).Valid() &&
      LoadSpec(w.stream.(pos := s.pos), typeId, dec).result == Decoded(dec, payload)
  {
    WriteLayout(s, typeId, payload);
    var back := WriteFileSpec(s, typeId, payload).stream.(pos := s.pos);
    WrittenBack(s, typeId, payload, back);
    LoadContent(back, typeId, dec, payload);
  }

  /** A container of another type does not load. */
  lemma {:induction false} LoadOtherType<T>(s: StreamState, typeId: Uint32, other: Uint32, dec: Decoder<T>, size: Uint32)
    requires s.Valid() && s.readable && s.seekable && other != typeId
    requires s.pos + HEADER_SIZE <= |s.bytes| && s.bytes[s.pos..s.pos + HEADER_SIZE] == Header(other, size)
    ensures LoadSpec(s, typeId, dec).result == Err(InvalidFormat)
  {
    OtherTypeRejected(s, typeId, other, size);
  }

  /** A container that declares more content than the stream holds does not load. */
  lemma {:induction false} LoadTruncated<T>(s: StreamState, typeId: Uint32, dec: Decoder<T>, size: Uint32)
    requires s.Valid() && s.readable && s.seekable
    requires s.pos + HEADER_SIZE <= |s.bytes| && s.bytes[s.pos..s.pos + HEADER_SIZE] == Header(typeId, size)
    requires |s.bytes| < s.pos + HEADER_SIZE + size
    ensures LoadSpec(s, typeId, dec).result == Err(IoError)
  {
    OpenReadAt(s, typeId, size);
  }
}
