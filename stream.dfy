/**
 * The byte stream underneath the engine's stream helpers and containers
 * (include/khepri/io/stream.hpp). A stream is a byte file with a position
 * and three capabilities; `read` delivers what is left up to the request,
 * `write` overwrites at the position and extends the file, and `seek`
 * moves the position relative to the start, the position or the end.
 */
module Streams {
  import opened Errors
  import opened Bytes

  datatype SeekOrigin = Begin | Current | End

  /** The observable state of a stream: its bytes, its position and what it supports. */
  datatype StreamState = StreamState(bytes: seq<Byte>, pos: nat, readable: bool, writable: bool, seekable: bool)
  {
    predicate Valid()
    {
      pos <= |bytes|
    }
  }

  /** The outcome of a stream operation: the new stream state and a result or an error. */
  datatype Step<T> = Step(stream: StreamState, result: Result<T>)

  function Min(a: int, b: int): int
  {
    if a <= b then a else b
  }

  function Max(a: int, b: int): int
  {
    if a >= b then a else b
  }

  /** `bs` written over `bytes` at `pos`, extending the file where it runs past the end. */
  function Overwrite(bytes: seq<Byte>, pos: nat, bs: seq<Byte>): (r: seq<Byte>)
    requires pos <= |bytes|
    ensures |r| == Max(|bytes|, pos + |bs|)
    ensures r[..pos] == bytes[..pos]
    ensures r[pos..pos + |bs|] == bs
    ensures r[pos + |bs|..] == if pos + |bs| <= |bytes| then bytes[pos + |bs|..] else []
  {
    bytes[..pos] + bs + (if pos + |bs| <= |bytes| then bytes[pos + |bs|..] else [])
  }

  /** Reading delivers min(count, bytes left) bytes from the position; nothing when unreadable. */
  function ReadSpec(s: StreamState, count: nat): (r: (StreamState, seq<Byte>))
    requires s.Valid()
    ensures r.0.Valid() && r.0 == s.(pos := s.pos + |r.1|)
    ensures |r.1| <= count
    ensures s.readable ==> (|r.1| == count <==> s.pos + count <= |s.bytes|)
    ensures r.1 == s.bytes[s.pos..s.pos + |r.1|]
  {
    var n := if s.readable then Min(count, |s.bytes| - s.pos) else 0;
    (s.(pos := s.pos + n), s.bytes[s.pos..s.pos + n])
  }

  /** Writing overwrites at the position and advances past the written bytes; nothing when unwritable. */
  function WriteSpec(s: StreamState, bs: seq<Byte>): (r: (StreamState, nat))
    requires s.Valid()
    ensures r.0.Valid()
    ensures r.1 == if s.writable then |bs| else 0
    ensures s.writable ==> r.0.pos == s.pos + |bs| && r.0.bytes[s.pos..s.pos + |bs|] == bs
    ensures !s.writable ==> r.0 == s
  {
    if s.writable then (s.(bytes := Overwrite(s.bytes, s.pos, bs), pos := s.pos + |bs|), |bs|)
    else (s, 0)
  }

  /**
   * Seeking moves to origin + offset and returns the new position from the
   * start; a target outside the file, or an unseekable stream, is an I/O error.
   */
  function SeekSpec(s: StreamState, offset: int, origin: SeekOrigin): (r: Step<int>)
    requires s.Valid()
    ensures r.stream.Valid()
    ensures r.result.Ok? ==> r.result.value == r.stream.pos && r.stream == s.(pos := r.stream.pos)
    ensures r.result.Err? ==> r.stream == s && r.result.error == IoError
    ensures r.result.Ok? <==> s.seekable && 0 <= SeekBase(s, origin) + offset <= |s.bytes|
  {
    var target := SeekBase(s, origin) + offset;
    if s.seekable && 0 <= target <= |s.bytes| then Step(s.(pos := target), Ok(target))
    else Step(s, Err(IoError))
  }

  function SeekBase(s: StreamState, origin: SeekOrigin): int
  {
    match origin
    case Begin => 0
    case Current => s.pos
    case End => |s.bytes|
  }

  /** A stream object whose bytes and position change as it is read, written and sought. */
  class ByteStream {
    var bytes: seq<Byte>
    var pos: nat
    const readable: bool
    const writable: bool
    const seekable: bool

    function State(): StreamState
      reads this
    {
      StreamState(bytes, pos, readable, writable, seekable)
    }

    predicate Valid()
      reads this
    {
      pos <= |bytes|
    }

    constructor (contents: seq<Byte>, canRead: bool, canWrite: bool, canSeek: bool)
      ensures Valid() && State() == StreamState(contents, 0, canRead, canWrite, canSeek)
    {
      bytes := contents;
      pos := 0;
      readable := canRead;
      writable := canWrite;
      seekable := canSeek;
    }

    method Read(count: nat) returns (got: seq<Byte>)
      requires Valid()
      modifies this
      ensures Valid()
      ensures (State(), got) == ReadSpec(old(State()), count)
    {
      var n := if readable then Min(count, |bytes| - pos) else 0;
      got := bytes[pos..pos + n];
      pos := pos + n;
    }

    method Write(bs: seq<Byte>) returns (written: nat)
      requires Valid()
      modifies this
      ensures Valid()
      ensures (State(), written) == WriteSpec(old(State()), bs)
    {
      if writable {
        bytes := Overwrite(bytes, pos, bs);
        pos := pos + |bs|;
        written := |bs|;
      } else {
        written := 0;
      }
    }

    method Seek(offset: int, origin: SeekOrigin) returns (r: Result<int>)
      requires Valid()
      modifies this
      ensures Valid()
      ensures Step(State(), r) == SeekSpec(old(State()), offset, origin)
    {
      var target := match origin
        case Begin => offset
        case Current => pos + offset
        case End => |bytes| + offset;
      if seekable && 0 <= target <= |bytes| {
        pos := target;
        r := Ok(target);
      } else {
        r := Err(IoError);
      }
    }
  }

  /** A write followed by a read from the same place returns what was written. */
  lemma {:induction false} ReadAfterWrite(s: StreamState, bs: seq<Byte>)
    requires s.Valid() && s.writable && s.readable
    ensures var w := WriteSpec(s, bs).0;
      ReadSpec(w.(pos := s.pos), |bs|).1 == bs
  {
  }
}
