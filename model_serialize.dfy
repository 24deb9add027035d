/**
 * Serialization of models (include/khepri/renderer/io/serialize.hpp): a vertex
 * is its position then its normal, a mesh is its vertex vector then its index
 * vector, and a model is its mesh vector.
 */
module ModelSerialize {
  import opened Errors
  import opened Bytes
  import opened Vectors
  import opened Serialize
  import opened MathSerialize
  import opened Meshes

  type FVertex = Vertex<FloatBits>
  type FMesh = Mesh<FloatBits>
  type FModel = Model<FloatBits>

  function EncVertex(v: FVertex): seq<Byte>
  {
    EncVector3(v.position) + EncVector3(v.normal)
  }

  function EncMesh(m: FMesh): seq<Byte>
  {
    EncVector(EncVertex, m.vertices) + EncVector(EncU16, m.indices)
  }

  function EncModel(m: FModel): seq<Byte>
  {
    EncVector(EncMesh, m.meshes)
  }

  function DecVertex(data: seq<Byte>, pos: nat): Result<(FVertex, nat)>
  {
    match DecVector3(data, pos)
    case Err(e) => Err(e)
    case Ok((position, p1)) =>
      match DecVector3(data, p1)
      case Err(e) => Err(e)
      case Ok((normal, p2)) => Ok((Vertex(position, normal), p2))
  }

  /** The vertices are read before the indices. */
  function DecMesh(data: seq<Byte>, pos: nat): Result<(FMesh, nat)>
  {
    match DecVector(DecVertex, data, pos)
    case Err(e) => Err(e)
    case Ok((vertices, p1)) =>
      match DecVector(DecU16, data, p1)
      case Err(e) => Err(e)
      case Ok((indices, p2)) => Ok((Mesh(vertices, indices), p2))
  }

  function DecModel(data: seq<Byte>, pos: nat): Result<(FModel, nat)>
  {
    match DecVector(DecMesh, data, pos)
    case Err(e) => Err(e)
    case Ok((meshes, p)) => Ok((Model(meshes), p))
  }

  /** Every vector in a mesh has fewer than 2^32 elements, so its uint32 count is exact. */
  predicate MeshSized(m: FMesh)
  {
    |m.vertices| < 0x1_0000_0000 && |m.indices| < 0x1_0000_0000
  }

  predicate ModelSized(m: FModel)
  {
    |m.meshes| < 0x1_0000_0000 && forall i :: 0 <= i < |m.meshes| ==> MeshSized(m.meshes[i])
  }

  /** A vertex is written as position then normal (24 bytes) and reads back unchanged. */
  lemma {:induction false} VertexInverts()
    ensures Inverts(EncVertex, DecVertex)
    ensures forall v :: |EncVertex(v)| == 24
  {
    Vector3Inverts();
    forall v: FVertex, data: seq<Byte>, pos: nat | At(data, pos, EncVertex(v))
      ensures DecVertex(data, pos) == Ok((v, pos + |EncVertex(v)|))
    {
      AtSplit(data, pos, EncVector3(v.position), EncVector3(v.normal));
      assert DecVector3(data, pos) == Ok((v.position, pos + 12));
      assert DecVector3(data, pos + 12) == Ok((v.normal, pos + 24));
    }
  }

  /** A mesh reads back with the same vertices and indices. */
  lemma {:induction false} MeshRoundTrip(m: FMesh, data: seq<Byte>, pos: nat)
    requires MeshSized(m) && At(data, pos, EncMesh(m))
    ensures DecMesh(data, pos) == Ok((m, pos + |EncMesh(m)|))
  {
    var ev := EncVector(EncVertex, m.vertices);
    AtSplit(data, pos, ev, EncVector(EncU16, m.indices));
    VertexInverts();
    InvertsEvery(EncVertex, DecVertex, m.vertices);
    VectorRoundTrip(EncVertex, DecVertex, m.vertices, data, pos);
    U16Inverts();
    InvertsEvery(EncU16, DecU16, m.indices);
    VectorRoundTrip(EncU16, DecU16, m.indices, data, pos + |ev|);
  }

  /**
   * Every mesh of a sized model reads back. The encoder and decoder are
   * passed as values equal to EncMesh and DecMesh, which keeps the solver
   * from unfolding the mesh codec inside the quantifier.
   */
  lemma {:induction false} MeshesInvertAll(meshes: seq<FMesh>, enc: FMesh -> seq<Byte>, dec: Decoder<FMesh>)
    requires forall i :: 0 <= i < |meshes| ==> MeshSized(meshes[i])
    requires forall m {:trigger EncMesh(m)} :: enc(m) == EncMesh(m)
    requires forall data, pos {:trigger DecMesh(data, pos)} :: dec(data, pos) == DecMesh(data, pos)
    ensures InvertsAll(enc, dec, meshes)
  {
    forall i: nat, data: seq<Byte>, pos: nat | i < |meshes| && At(data, pos, enc(meshes[i]))
      ensures var next: nat := pos + |enc(meshes[i])|; dec(data, pos) == Ok((meshes[i], next))
    {
      assert enc(meshes[i]) == EncMesh(meshes[i]);
      MeshRoundTrip(meshes[i], data, pos);
    }
  }

  /** A model reads back with the same meshes. */
  lemma {:induction false} ModelRoundTrip(m: FModel, data: seq<Byte>, pos: nat)
    requires ModelSized(m) && At(data, pos, EncModel(m))
    ensures DecModel(data, pos) == Ok((m, pos + |EncModel(m)|))
  {
    MeshesInvertAll(m.meshes, EncMesh, DecMesh);
    VectorRoundTrip(EncMesh, DecMesh, m.meshes, data, pos);
  }

  lemma {:induction false} VertexMonotone()
    ensures Monotone(DecVertex)
  {
    Vector3Monotone();
  }

  lemma {:induction false} MeshMonotone()
    ensures Monotone(DecMesh)
  {
    VertexMonotone();
    U16Monotone();
    VectorMonotone(DecVertex);
    VectorMonotone(DecU16);
    forall data: seq<Byte>, ext: seq<Byte>, pos: nat {:trigger DecMesh(data + ext, pos)} | DecMesh(data, pos).Ok?
      ensures DecMesh(data + ext, pos) == DecMesh(data, pos)
      ensures pos <= |data| ==> pos <= DecMesh(data, pos).value.1 <= |data|
    {
      assert DecVector(DecVertex, data + ext, pos) == DecVector(DecVertex, data, pos);
      var p1 := DecVector(DecVertex, data, pos).value.1;
      assert DecVector(DecU16, data + ext, p1) == DecVector(DecU16, data, p1);
    }
  }

  lemma {:induction false} ModelMonotone()
    ensures Monotone(DecModel)
  {
    MeshMonotone();
    VectorMonotone(DecMesh);
    forall data: seq<Byte>, ext: seq<Byte>, pos: nat {:trigger DecModel(data + ext, pos)} | DecModel(data, pos).Ok?
      ensures DecModel(data + ext, pos) == DecModel(data, pos)
      ensures pos <= |data| ==> pos <= DecModel(data, pos).value.1 <= |data|
    {
      assert DecVector(DecMesh, data + ext, pos) == DecVector(DecMesh, data, pos);
    }
  }

  lemma {:induction false} VertexFailsAtEnd()
    ensures FailsAtEnd(DecVertex)
  {
    Vector3FailsAtEnd();
  }

  lemma {:induction false} MeshFailsAtEnd()
    ensures FailsAtEnd(DecMesh)
  {
    VertexFailsAtEnd();
    FixedFailAtEnd();
    VectorFailsAtEnd(DecVertex);
    VectorFailsAtEnd(DecU16);
    forall data: seq<Byte>, pos: nat | DecMesh(data, pos).Err?
      ensures DecMesh(data, pos).error == IoError
    {
      if DecVector(DecVertex, data, pos).Ok? {
        assert DecVector(DecU16, data, DecVector(DecVertex, data, pos).value.1).Err?;
      }
    }
  }

  lemma {:induction false} ModelFailsAtEnd()
    ensures FailsAtEnd(DecModel)
  {
    MeshFailsAtEnd();
    VectorFailsAtEnd(DecMesh);
    forall data: seq<Byte>, pos: nat | DecModel(data, pos).Err?
      ensures DecModel(data, pos).error == IoError
    {
      assert DecVector(DecMesh, data, pos).Err?;
    }
  }

  /** Decoding any proper prefix of a model's encoding fails with "unexpected end of data". */
  lemma {:induction false} ModelTruncated(m: FModel, k: nat)
    requires ModelSized(m) && k < |EncModel(m)|
    ensures DecModel(EncModel(m)[..k], 0) == Err(IoError)
  {
    assert At(EncModel(m), 0, EncModel(m));
    ModelRoundTrip(m, EncModel(m), 0);
    ModelMonotone();
    ModelFailsAtEnd();
    Truncated(DecModel, EncModel(m), k);
  }

  /** A mesh whose vertex vector is complete but whose index vector is cut short fails with "unexpected end of data". */
  lemma {:induction false} MeshIndicesTruncated(m: FMesh, k: nat)
    requires MeshSized(m)
    requires |EncVector(EncVertex, m.vertices)| <= k < |EncMesh(m)|
    ensures DecMesh(EncMesh(m)[..k], 0) == Err(IoError)
  {
    assert At(EncMesh(m), 0, EncMesh(m));
    MeshRoundTrip(m, EncMesh(m), 0);
    MeshMonotone();
    MeshFailsAtEnd();
    Truncated(DecMesh, EncMesh(m), k);
  }

  // ----- the trait methods

  method SerializeVertex(s: Serializer, v: FVertex)
    modifies s
    ensures s.data == old(s.data) + EncVertex(v)
  {
    SerializeVector3(s, v.position);
    SerializeVector3(s, v.normal);
  }

  /** Writes each element in order, as the loop over the vector does. */
  method SerializeVerticesElems(s: Serializer, xs: seq<FVertex>, ghost enc: FVertex -> seq<Byte>)
    requires forall x {:trigger EncVertex(x)} :: enc(x) == EncVertex(x)
    modifies s
    ensures s.data == old(s.data) + EncElems(enc, xs)
  {
    var i := 0;
    while i < |xs|
      invariant 0 <= i <= |xs|
      invariant s.data + EncElems(enc, xs[i..]) == old(s.data) + EncElems(enc, xs)
    {
      assert xs[i..][1..] == xs[i + 1..];
      SerializeVertex(s, xs[i]);
      i := i + 1;
    }
    assert xs[i..] == [];
  }

  method SerializeVertices(s: Serializer, vertices: seq<FVertex>)
    modifies s
    ensures s.data == old(s.data) + EncVector(EncVertex, vertices)
  {
    s.WriteU32(|vertices| % 0x1_0000_0000);
    SerializeVerticesElems(s, vertices, EncVertex);
  }

  /** Writes each element in order, as the loop over the vector does. */
  method SerializeIndicesElems(s: Serializer, xs: seq<Uint16>, ghost enc: Uint16 -> seq<Byte>)
    requires forall x {:trigger EncU16(x)} :: enc(x) == EncU16(x)
    modifies s
    ensures s.data == old(s.data) + EncElems(enc, xs)
  {
    var i := 0;
    while i < |xs|
      invariant 0 <= i <= |xs|
      invariant s.data + EncElems(enc, xs[i..]) == old(s.data) + EncElems(enc, xs)
    {
      assert xs[i..][1..] == xs[i + 1..];
      s.WriteU16(xs[i]);
      i := i + 1;
    }
    assert xs[i..] == [];
  }

  method SerializeIndices(s: Serializer, indices: seq<Uint16>)
    modifies s
    ensures s.data == old(s.data) + EncVector(EncU16, indices)
  {
    s.WriteU32(|indices| % 0x1_0000_0000);
    SerializeIndicesElems(s, indices, EncU16);
  }

  method SerializeMesh(s: Serializer, m: FMesh)
    modifies s
    ensures s.data == old(s.data) + EncMesh(m)
  {
    SerializeVertices(s, m.vertices);
    SerializeIndices(s, m.indices);
  }

  /** Writes each element in order, as the loop over the vector does. */
  method SerializeModelElems(s: Serializer, xs: seq<FMesh>, ghost enc: FMesh -> seq<Byte>)
    requires forall x {:trigger EncMesh(x)} :: enc(x) == EncMesh(x)
    modifies s
    ensures s.data == old(s.data) + EncElems(enc, xs)
  {
    var i := 0;
    while i < |xs|
      invariant 0 <= i <= |xs|
      invariant s.data + EncElems(enc, xs[i..]) == old(s.data) + EncElems(enc, xs)
    {
      assert xs[i..][1..] == xs[i + 1..];
      SerializeMesh(s, xs[i]);
      i := i + 1;
    }
    assert xs[i..] == [];
  }

  method SerializeModel(s: Serializer, m: FModel)
    modifies s
    ensures s.data == old(s.data) + EncModel(m)
  {
    s.WriteU32(|m.meshes| % 0x1_0000_0000);
    SerializeModelElems(s, m.meshes, EncMesh);
  }

  method DeserializeVertex(d: Deserializer) returns (r: Result<FVertex>)
    requires d.Valid()
    modifies d
    ensures d.Valid()
    ensures r.Ok? <==> DecVertex(d.data, old(d.pos)).Ok?
    ensures r.Ok? ==> DecVertex(d.data, old(d.pos)) == Ok((r.value, d.pos))
  {
    var position := DeserializeVector3(d);
    if position.Err? { return Err(position.error); }
    var normal := DeserializeVector3(d);
    if normal.Err? { return Err(normal.error); }
    r := Ok(Vertex(position.value, normal.value));
  }

  /** Reads `count` elements, as the loop over the declared size does. */
  method DeserializeVerticesElems(d: Deserializer, count: nat, ghost dec: Decoder<FVertex>) returns (r: Result<seq<FVertex>>)
    requires d.Valid()
    requires forall data, pos {:trigger DecVertex(data, pos)} :: dec(data, pos) == DecVertex(data, pos)
    modifies d
    ensures d.Valid()
    ensures r.Ok? <==> DecElems(dec, count, d.data, old(d.pos)).Ok?
    ensures r.Ok? ==> DecElems(dec, count, d.data, old(d.pos)) == Ok((r.value, d.pos))
  {
    ghost var start := d.pos;
    var xs: seq<FVertex> := [];
    var i := 0;
    PrependNil(DecElems(dec, count, d.data, d.pos));
    while i < count
      invariant d.Valid() && 0 <= i <= count
      invariant DecElems(dec, count, d.data, start) == Prepend(xs, DecElems(dec, count - i, d.data, d.pos))
    {
      ghost var before := d.pos;
      ghost var n := count - i;
      var x := DeserializeVertex(d);
      if x.Err? {
        ElemsFail(dec, xs, n, d.data, before);
        return Err(x.error);
      }
      ElemsStep(dec, xs, n, d.data, before, x.value, d.pos);
      assert n - 1 == count - (i + 1);
      xs := xs + [x.value];
      i := i + 1;
    }
    assert xs + [] == xs;
    r := Ok(xs);
  }

  method DeserializeVertices(d: Deserializer) returns (r: Result<seq<FVertex>>)
    requires d.Valid()
    modifies d
    ensures d.Valid()
    ensures r.Ok? <==> DecVector(DecVertex, d.data, old(d.pos)).Ok?
    ensures r.Ok? ==> DecVector(DecVertex, d.data, old(d.pos)) == Ok((r.value, d.pos))
  {
    var count := d.ReadU32();
    if count.Err? { return Err(count.error); }
    var xs := DeserializeVerticesElems(d, count.value, DecVertex);
    if xs.Err? { return Err(xs.error); }
    r := Ok(xs.value);
  }


  /** Reads `count` elements, as the loop over the declared size does. */
  method DeserializeIndicesElems(d: Deserializer, count: nat, ghost dec: Decoder<Uint16>) returns (r: Result<seq<Uint16>>)
    requires d.Valid()
    requires forall data, pos {:trigger DecU16(data, pos)} :: dec(data, pos) == DecU16(data, pos)
    modifies d
    ensures d.Valid()
    ensures r.Ok? <==> DecElems(dec, count, d.data, old(d.pos)).Ok?
    ensures r.Ok? ==> DecElems(dec, count, d.data, old(d.pos)) == Ok((r.value, d.pos))
  {
    ghost var start := d.pos;
    var xs: seq<Uint16> := [];
    var i := 0;
    PrependNil(DecElems(dec, count, d.data, d.pos));
    while i < count
      invariant d.Valid() && 0 <= i <= count
      invariant DecElems(dec, count, d.data, start) == Prepend(xs, DecElems(dec, count - i, d.data, d.pos))
    {
      ghost var before := d.pos;
      ghost var n := count - i;
      var x := d.ReadU16();
      if x.Err? {
        ElemsFail(dec, xs, n, d.data, before);
        return Err(x.error);
      }
      ElemsStep(dec, xs, n, d.data, before, x.value, d.pos);
      assert n - 1 == count - (i + 1);
      xs := xs + [x.value];
      i := i + 1;
    }
    assert xs + [] == xs;
    r := Ok(xs);
  }

  method DeserializeIndices(d: Deserializer) returns (r: Result<seq<Uint16>>)
    requires d.Valid()
    modifies d
    ensures d.Valid()
    ensures r.Ok? <==> DecVector(DecU16, d.data, old(d.pos)).Ok?
    ensures r.Ok? ==> DecVector(DecU16, d.data, old(d.pos)) == Ok((r.value, d.pos))
  {
    var count := d.ReadU32();
    if count.Err? { return Err(count.error); }
    var xs := DeserializeIndicesElems(d, count.value, DecU16);
    if xs.Err? { return Err(xs.error); }
    r := Ok(xs.value);
  }


  method DeserializeMesh(d: Deserializer) returns (r: Result<FMesh>)
    requires d.Valid()
    modifies d
    ensures d.Valid()
    ensures r.Ok? <==> DecMesh(d.data, old(d.pos)).Ok?
    ensures r.Ok? ==> DecMesh(d.data, old(d.pos)) == Ok((r.value, d.pos))
  {
    var vertices := DeserializeVertices(d);
    if vertices.Err? { return Err(vertices.error); }
    var indices := DeserializeIndices(d);
    if indices.Err? { return Err(indices.error); }
    r := Ok(Mesh(vertices.value, indices.value));
  }

  /** Reads `count` elements, as the loop over the declared size does. */
  method DeserializeModelElems(d: Deserializer, count: nat, ghost dec: Decoder<FMesh>) returns (r: Result<seq<FMesh>>)
    requires d.Valid()
    requires forall data, pos {:trigger DecMesh(data, pos)} :: dec(data, pos) == DecMesh(data, pos)
    modifies d
    ensures d.Valid()
    ensures r.Ok? <==> DecElems(dec, count, d.data, old(d.pos)).Ok?
    ensures r.Ok? ==> DecElems(dec, count, d.data, old(d.pos)) == Ok((r.value, d.pos))
  {
    ghost var start := d.pos;
    var xs: seq<FMesh> := [];
    var i := 0;
    PrependNil(DecElems(dec, count, d.data, d.pos));
    while i < count
      invariant d.Valid() && 0 <= i <= count
      invariant DecElems(dec, count, d.data, start) == Prepend(xs, DecElems(dec, count - i, d.data, d.pos))
    {
      ghost var before := d.pos;
      ghost var n := count - i;
      var x := DeserializeMesh(d);
      if x.Err? {
        ElemsFail(dec, xs, n, d.data, before);
        return Err(x.error);
      }
      ElemsStep(dec, xs, n, d.data, before, x.value, d.pos);
      assert n - 1 == count - (i + 1);
      xs := xs + [x.value];
      i := i + 1;
    }
    assert xs + [] == xs;
    r := Ok(xs);
  }

  method DeserializeModel(d: Deserializer) returns (r: Result<FModel>)
    requires d.Valid()
    modifies d
    ensures d.Valid()
    ensures r.Ok? <==> DecModel(d.data, old(d.pos)).Ok?
    ensures r.Ok? ==> DecModel(d.data, old(d.pos)) == Ok((r.value, d.pos))
  {
    var count := d.ReadU32();
    if count.Err? { return Err(count.error); }
    var xs := DeserializeModelElems(d, count.value, DecMesh);
    if xs.Err? { return Err(xs.error); }
    r := Ok(Model(xs.value));
  }

}
