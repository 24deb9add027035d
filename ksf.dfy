/**
 * The Khepri Shader File (src/renderer/io/ksf.cpp): a shader serialized as
 * its vector of SPIR-V words inside a container of content type 0xd086def7.
 */
module Ksf {
  import opened Errors
  import opened Bytes
  import opened Streams
  import opened StreamIO
  import opened Serialize
  import opened Container
  import opened ContainerFile
  import Kmf

  const CONTENT_ID_KSF: Uint32 := 0xd086def7

  /** A compiled shader: its SPIR-V words. */
  datatype Shader = Shader(words: seq<Uint32>)

  function EncShader(sh: Shader): seq<Byte>
  {
    EncVector(EncU32, sh.words)
  }

  function DecShader(data: seq<Byte>, pos: nat): Result<(Shader, nat)>
  {
    match DecVector(DecU32, data, pos)
    case Err(e) => Err(e)
    case Ok((ws, next)) => Ok((Shader(ws), next))
  }

  /** A shader of fewer than 2^32 words decodes from its encoding to the same words. */
  lemma {:induction false} ShaderRoundTrip(sh: Shader, data: seq<Byte>, pos: nat)
    requires |sh.words| < 0x1_0000_0000 && At(data, pos, EncShader(sh))
    ensures DecShader(data, pos) == Ok((sh, pos + |EncShader(sh)|))
  {
    U32Inverts();
    InvertsEvery(EncU32, DecU32, sh.words);
    VectorRoundTrip(EncU32, DecU32, sh.words, data, pos);
  }

  // ----- the serializer methods

  /** Writes each word in order, as the loop over the vector does. */
  method SerializeWords(s: Serializer, xs: seq<Uint32>, ghost enc: Uint32 -> seq<Byte>)
    requires forall x {:trigger EncU32(x)} :: enc(x) == EncU32(x)
    modifies s
    ensures s.data == old(s.data) + EncElems(enc, xs)
  {
    var i := 0;
    while i < |xs|
      invariant 0 <= i <= |xs|
      invariant s.data + EncElems(enc, xs[i..]) == old(s.data) + EncElems(enc, xs)
    {
      assert xs[i..][1..] == xs[i + 1..];
      s.WriteU32(xs[i]);
      i := i + 1;
    }
    assert xs[i..] == [];
  }

  method SerializeShader(s: Serializer, sh: Shader)
    modifies s
    ensures s.data == old(s.data) + EncShader(sh)
  {
    s.WriteU32(|sh.words| % 0x1_0000_0000);
    SerializeWords(s, sh.words, EncU32);
  }

  /** Reads `count` words, as the loop over the declared size does. */
  method DeserializeWords(d: Deserializer, count: nat, ghost dec: Decoder<Uint32>) returns (r: Result<seq<Uint32>>)
    requires d.Valid()
    requires forall data, pos {:trigger DecU32(data, pos)} :: dec(data, pos) == DecU32(data, pos)
    modifies d
    ensures d.Valid()
    ensures r.Ok? <==> DecElems(dec, count, d.data, old(d.pos)).Ok?
    ensures r.Ok? ==> DecElems(dec, count, d.data, old(d.pos)) == Ok((r.value, d.pos))
  {
    ghost var start := d.pos;
    var xs: seq<Uint32> := [];
    var i := 0;
    PrependNil(DecElems(dec, count, d.data, d.pos));
    while i < count
      invariant d.Valid() && 0 <= i <= count
      invariant DecElems(dec, count, d.data, start) == Prepend(xs, DecElems(dec, count - i, d.data, d.pos))
    {
      ghost var before := d.pos;
      ghost var n := count - i;
      var x := d.ReadU32();
      if x.Err? {
        ElemsFail(dec, xs, n, d.data, before);
        return Err(x.error);
      }
      ElemsStep(dec, xs, n, d.data, before, x.value, d.pos);
      assert n - 1 == count - (i + 1);
      xs := xs + [x.value];
      i := i + 1;
    }
    assert xs + [] == xs;
    r := Ok(xs);
  }

  method DeserializeShader(d: Deserializer) returns (r: Result<Shader>)
    requires d.Valid()
    modifies d
    ensures d.Valid()
    ensures r.Ok? <==> DecShader(d.data, old(d.pos)).Ok?
    ensures r.Ok? ==> DecShader(d.data, old(d.pos)) == Ok((r.value, d.pos))
  {
    var count := d.ReadU32();
    if count.Err? { return Err(count.error); }
    var ws := DeserializeWords(d, count.value, DecU32);
    if ws.Err? { return Err(ws.error); }
    r := Ok(Shader(ws.value));
  }

  // ----- the file

  /** `load_ksf`: reads a whole container of shader type and decodes the shader in it. */
  method LoadKsf(s: ByteStream) returns (r: Result<Shader>)
    requires s.Valid()
    modifies s
    ensures s.Valid()
    ensures Step(s.State(), r) == LoadSpec(old(s.State()), CONTENT_ID_KSF, DecShader)
  {
    if !s.readable || !s.seekable {
      return Err(ArgumentError);
    }
    var openResult := ContainerStream.OpenRead(s, CONTENT_ID_KSF);
    if openResult.Err? {
      return Err(openResult.error);
    }
    var container := openResult.value;
    var size := container.Seek(0, End);
    if size.Err? {
      return Err(IoError);
    }
    var start := container.Seek(0, Begin);
    if start.Err? {
      return Err(IoError);
    }
    var buffer := container.Read(size.value);
    if buffer.Err? || |buffer.value| != size.value {
      return Err(IoError);
    }
    var d := new Deserializer(buffer.value);
    var shader := DeserializeShader(d);
    if shader.Err? {
      return Err(InvalidFormat);
    }
    r := Ok(shader.value);
  }

  /** `write_ksf`: serializes the shader and writes it into a closed container of shader type. */
  method WriteKsf(sh: Shader, s: ByteStream) returns (r: Result<()>)
    requires s.Valid()
    modifies s
    ensures s.Valid()
    ensures Step(s.State(), r) == WriteFileSpec(old(s.State()), CONTENT_ID_KSF, EncShader(sh))
  {
    if !s.writable || !s.seekable {
      return Err(ArgumentError);
    }
    ghost var o := OpenWriteSpec(s.State(), CONTENT_ID_KSF);
    var openResult := ContainerStream.OpenWrite(s, CONTENT_ID_KSF);
    var container := openResult.value;
    var serializer := new Serializer();
    SerializeShader(serializer, sh);
    var data := serializer.data;
    assert data == EncShader(sh);
    assert container.Fields() == o.result.value && s.State() == o.stream;
    ghost var w := ContentWriteSpec(o.result.value, o.stream, data);
    var written := container.Write(data);
    assert container.Fields() == w.container && s.State() == w.stream && written == w.result;
    if written != Ok(|data|) {
      return Err(IoError);
    }
    r := container.Close();
  }

  // ----- properties

  /** A shader written to the end of a stream loads back with the same words. */
  lemma {:induction false} KsfRoundTrip(s: StreamState, sh: Shader)
    requires s.Valid() && s.readable && s.writable && s.seekable && s.pos == |s.bytes|
    requires |sh.words| < 0x1_0000_0000 && |EncShader(sh)| <= UINT32_MAX
    ensures var w := WriteFileSpec(s, CONTENT_ID_KSF, EncShader(sh));
      w.result == Ok(()) && w.stream.(pos := s.pos).Valid() &&
      LoadSpec(w.stream.(pos := s.pos), CONTENT_ID_KSF, DecShader).result == Ok(sh)
  {
    FileRoundTrip(s, CONTENT_ID_KSF, DecShader, EncShader(sh));
    ShaderRoundTrip(sh, EncShader(sh), 0);
  }

  /** The first bytes of what follows a prefix. */
  lemma {:induction false} HeaderAfter(a: seq<Byte>, h: seq<Byte>, d: seq<Byte>)
    ensures (a + h + d)[|a|..|a| + |h|] == h
  {
    assert (a + h + d)[|a|..|a| + |h|] == (a + h + d)[|a|..|a| + |h| + |d|][..|h|];
    AfterPrefix(a, h, d);
  }

  /** Whatever a model file holds, loading it as a shader file fails with InvalidFormat. */
  lemma {:induction false} KmfNotKsf(s: StreamState, payload: seq<Byte>)
    requires s.Valid() && s.readable && s.writable && s.seekable && s.pos == |s.bytes| && |payload| <= UINT32_MAX
    ensures var w := WriteFileSpec(s, Kmf.CONTENT_ID_KMF, payload);
      w.stream.(pos := s.pos).Valid() &&
      LoadSpec(w.stream.(pos := s.pos), CONTENT_ID_KSF, DecShader).result == Err(InvalidFormat)
  {
    WriteLayout(s, Kmf.CONTENT_ID_KMF, payload);
    var h := Header(Kmf.CONTENT_ID_KMF, |payload|);
    var t := s.(bytes := s.bytes + h + payload);
    HeaderAfter(s.bytes, h, payload);
    LoadOtherType(t, CONTENT_ID_KSF, Kmf.CONTENT_ID_KMF, DecShader, |payload|);
  }

  /**
   * Read through the sign-extending `read_uint`, the type field of a shader
   * container is not the shader content id: the id has its top bit set, so
   * the widened value differs and the type check rejects every shader file.
   */
  lemma {:induction false} KsfIdAsWrittenRejected(t: StreamState)
    requires t.Valid() && t.readable && t.pos + 4 <= |t.bytes|
    requires t.bytes[t.pos..t.pos + 4] == LeBytes(CONTENT_ID_KSF, 4)
    ensures ReadUintSpec(t).result == Ok(CONTENT_ID_KSF)
    ensures ReadUintAsWrittenSpec(t).result.Ok? && ReadUintAsWrittenSpec(t).result.value != CONTENT_ID_KSF
  {
    UintAt(t, CONTENT_ID_KSF);
    Pow2Value32();
    Pow2Value64();
  }
}
