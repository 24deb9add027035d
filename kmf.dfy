/**
 * The Khepri Model File (src/renderer/io/kmf.cpp): a model serialized with
 * the model traits inside a container of content type 0x3ea69ae9.
 */
module Kmf {
  import opened Errors
  import opened Bytes
  import opened Streams
  import opened Serialize
  import opened Container
  import opened ContainerFile
  import opened ModelSerialize

  const CONTENT_ID_KMF: Uint32 := 0x3ea69ae9

  /** `load_kmf`: reads a whole container of model type and decodes the model in it. */
  method LoadKmf(s: ByteStream) returns (r: Result<FModel>)
    requires s.Valid()
    modifies s
    ensures s.Valid()
    ensures Step(s.State(), r) == LoadSpec(old(s.State()), CONTENT_ID_KMF, DecModel)
  {
    if !s.readable || !s.seekable {
      return Err(ArgumentError);
    }
    var openResult := ContainerStream.OpenRead(s, CONTENT_ID_KMF);
    if openResult.Err? {
      return Err(openResult.error);
    }
    var container := openResult.value;
    var size := container.Seek(0, End);
    if size.Err? {
      return Err(IoError);
    }
    var start := container.Seek(0, Begin);
    if start.Err? {
      return Err(IoError);
    }
    var buffer := container.Read(size.value);
    if buffer.Err? || |buffer.value| != size.value {
      return Err(IoError);
    }
    var d := new Deserializer(buffer.value);
    var model := DeserializeModel(d);
    if model.Err? {
      return Err(InvalidFormat);
    }
    r := Ok(model.value);
  }

  /** `write_kmf`: serializes the model and writes it into a closed container of model type. */
  method WriteKmf(m: FModel, s: ByteStream) returns (r: Result<()>)
    requires s.Valid()
    modifies s
    ensures s.Valid()
    ensures Step(s.State(), r) == WriteFileSpec(old(s.State()), CONTENT_ID_KMF, EncModel(m))
  {
    if !s.writable || !s.seekable {
      return Err(ArgumentError);
    }
    ghost var o := OpenWriteSpec(s.State(), CONTENT_ID_KMF);
    var openResult := ContainerStream.OpenWrite(s, CONTENT_ID_KMF);
    var container := openResult.value;
    var serializer := new Serializer();
    SerializeModel(serializer, m);
    var data := serializer.data;
    assert data == EncModel(m);
    assert container.Fields() == o.result.value && s.State() == o.stream;
    ghost var w := ContentWriteSpec(o.result.value, o.stream, data);
    var written := container.Write(data);
    assert container.Fields() == w.container && s.State() == w.stream && written == w.result;
    if written != Ok(|data|) {
      return Err(IoError);
    }
    r := container.Close();
  }

  /** A model written to the end of a stream loads back unchanged from where it was written. */
  lemma {:induction false} KmfRoundTrip(s: StreamState, m: FModel)
    requires s.Valid() && s.readable && s.writable && s.seekable && s.pos == |s.bytes|
    requires ModelSized(m) && |EncModel(m)| <= UINT32_MAX
    ensures var w := WriteFileSpec(s, CONTENT_ID_KMF, EncModel(m));
      w.result == Ok(()) && w.stream.(pos := s.pos).Valid() &&
      LoadSpec(w.stream.(pos := s.pos), CONTENT_ID_KMF, DecModel).result == Ok(m)
  {
    FileRoundTrip(s, CONTENT_ID_KMF, DecModel, EncModel(m));
    ModelRoundTrip(m, EncModel(m), 0);
  }
}
