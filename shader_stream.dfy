/**
 * The in-memory shader source stream handed to the Diligent shader compiler
 * (src/renderer/diligent/shader_stream_factory.hpp): a read cursor over the
 * bytes of a loaded shader description, and the factory that wraps whatever
 * the shader loader returns.
 */
module ShaderStream {
  import opened Errors
  import opened Bytes

  /** A shader description: its source bytes. */
  datatype ShaderDesc = ShaderDesc(data: seq<Byte>)

  /** The number of bytes a read of `size` delivers from position `pos` of a source of `total` bytes. */
  function ReadCount(total: nat, pos: nat, size: nat): (r: nat)
    requires pos <= total
    ensures r <= size && pos + r <= total
    ensures r == size || pos + r == total
    ensures r == size <==> pos + size <= total
  {
    if total - pos < size then total - pos else size
  }

  /** What a read of `size` at `pos` does to the cursor and delivers to the caller. */
  function ReadSpec(src: seq<Byte>, pos: nat, size: nat): (r: (nat, seq<Byte>))
    requires pos <= |src|
    ensures pos <= r.0 <= |src| && r.1 == src[pos..r.0]
    ensures |r.1| <= size
  {
    var n := ReadCount(|src|, pos, size);
    (pos + n, src[pos..pos + n])
  }

  class MemoryStream {
    const shader: ShaderDesc
    var pos: nat

    predicate Valid()
      reads this
    {
      pos <= |shader.data|
    }

    constructor (shader: ShaderDesc)
      ensures Valid() && this.shader == shader && pos == 0
    {
      this.shader := shader;
      pos := 0;
    }

    /**
     * `ReadBlob`: the whole source. The cursor is asserted to be at the start
     * only in debug builds; otherwise it is ignored and left where it is.
     */
    method ReadBlob() returns (blob: seq<Byte>)
      ensures blob == shader.data
    {
      blob := shader.data;
    }

    /**
     * `Read`: copies up to `size` bytes from the cursor into `data`, moves the
     * cursor past them and reports whether all `size` bytes were delivered.
     */
    method Read(data: array<Byte>, size: nat) returns (ok: bool)
      requires Valid() && size <= data.Length
      modifies this`pos, data
      ensures Valid() && old(pos) <= pos <= old(pos) + size
      ensures (pos, data[..pos - old(pos)]) == ReadSpec(shader.data, old(pos), size)
      ensures forall k :: pos - old(pos) <= k < data.Length ==> data[k] == old(data[k])
      ensures ok <==> pos - old(pos) == size
    {
      var start := pos;
      var n := ReadCount(|shader.data|, start, size);
      for i := 0 to n
        invariant forall k :: 0 <= k < i ==> data[k] == shader.data[start + k]
        invariant forall k :: i <= k < data.Length ==> data[k] == old(data[k])
      {
        data[i] := shader.data[start + i];
      }
      assert data[..n] == shader.data[start..start + n];
      pos := start + n;
      ok := n == size;
    }

    /** `Write`: not supported; always fails and changes nothing. */
    method Write(data: seq<Byte>) returns (ok: bool)
      ensures !ok
    {
      ok := false;
    }

    /** `GetSize`: the size of the whole source, wherever the cursor is. */
    method GetSize() returns (size: nat)
      ensures size == |shader.data|
    {
      size := |shader.data|;
    }
  }

  /**
   * `CreateInputStream2`: a fresh stream at position 0 over the shader the
   * loader returns for `name`, or no stream when it returns none.
   */
  method CreateInputStream2(loader: string -> Option<ShaderDesc>, name: string) returns (stream: MemoryStream?)
    ensures stream == null <==> loader(name).None?
    ensures stream != null ==> fresh(stream) && stream.Valid() && stream.pos == 0 && stream.shader == loader(name).value
  {
    var shader := loader(name);
    if shader.Some? {
      stream := new MemoryStream(shader.value);
    } else {
      stream := null;
    }
  }

  // ----- properties

  /** Two successive reads deliver what one read of their combined size delivers. */
  lemma {:induction false} ReadsConcatenate(src: seq<Byte>, pos: nat, a: nat, b: nat)
    requires pos <= |src|
    ensures var (p1, x) := ReadSpec(src, pos, a);
      var (p2, y) := ReadSpec(src, p1, b);
      ReadSpec(src, pos, a + b) == (p2, x + y)
  {
    var (p1, x) := ReadSpec(src, pos, a);
    var (p2, y) := ReadSpec(src, p1, b);
    assert src[pos..p2] == src[pos..p1] + src[p1..p2];
  }

  /** Reading the size the stream reports from a fresh stream delivers the whole source, as `ReadBlob` does. */
  lemma {:induction false} ReadAllIsBlob(src: seq<Byte>)
    ensures ReadSpec(src, 0, |src|) == (|src|, src)
  {
    assert src[0..|src|] == src;
  }

  /** Once the cursor is at the end, every read delivers nothing and fails unless it asks for nothing. */
  lemma {:induction false} ReadAtEnd(src: seq<Byte>, size: nat)
    ensures ReadSpec(src, |src|, size) == (|src|, [])
  {
  }
}
