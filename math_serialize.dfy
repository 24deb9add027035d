/**
 * Serialization of the math records (include/khepri/math/serialize.hpp): each
 * vector or colour is its float components in declaration order, 4 bytes each.
 */
module MathSerialize {
  import opened Errors
  import opened Bytes
  import opened Vectors
  import opened Serialize

  function EncVector2(v: Vector2<FloatBits>): seq<Byte>
  {
    EncFloat(v.x) + EncFloat(v.y)
  }

  function EncVector3(v: Vector3<FloatBits>): seq<Byte>
  {
    EncFloat(v.x) + EncFloat(v.y) + EncFloat(v.z)
  }

  function EncVector4(v: Vector4<FloatBits>): seq<Byte>
  {
    EncFloat(v.x) + EncFloat(v.y) + EncFloat(v.z) + EncFloat(v.w)
  }

  function EncColor(c: ColorRGBA<FloatBits>): seq<Byte>
  {
    EncFloat(c.r) + EncFloat(c.g) + EncFloat(c.b) + EncFloat(c.a)
  }

  function DecVector2(data: seq<Byte>, pos: nat): Result<(Vector2<FloatBits>, nat)>
  {
    match DecFloat(data, pos)
    case Err(e) => Err(e)
    case Ok((x, p1)) =>
      match DecFloat(data, p1)
      case Err(e) => Err(e)
      case Ok((y, p2)) => Ok((Vector2(x, y), p2))
  }

  function DecVector3(data: seq<Byte>, pos: nat): Result<(Vector3<FloatBits>, nat)>
  {
    match DecFloat(data, pos)
    case Err(e) => Err(e)
    case Ok((x, p1)) =>
      match DecFloat(data, p1)
      case Err(e) => Err(e)
      case Ok((y, p2)) =>
        match DecFloat(data, p2)
        case Err(e) => Err(e)
        case Ok((z, p3)) => Ok((Vector3(x, y, z), p3))
  }

  function DecVector4(data: seq<Byte>, pos: nat): Result<(Vector4<FloatBits>, nat)>
  {
    match DecFloat(data, pos)
    case Err(e) => Err(e)
    case Ok((x, p1)) =>
      match DecFloat(data, p1)
      case Err(e) => Err(e)
      case Ok((y, p2)) =>
        match DecFloat(data, p2)
        case Err(e) => Err(e)
        case Ok((z, p3)) =>
          match DecFloat(data, p3)
          case Err(e) => Err(e)
          case Ok((w, p4)) => Ok((Vector4(x, y, z, w), p4))
  }

  function DecColor(data: seq<Byte>, pos: nat): Result<(ColorRGBA<FloatBits>, nat)>
  {
    match DecFloat(data, pos)
    case Err(e) => Err(e)
    case Ok((r, p1)) =>
      match DecFloat(data, p1)
      case Err(e) => Err(e)
      case Ok((g, p2)) =>
        match DecFloat(data, p2)
        case Err(e) => Err(e)
        case Ok((b, p3)) =>
          match DecFloat(data, p3)
          case Err(e) => Err(e)
          case Ok((a, p4)) => Ok((ColorRGBA(r, g, b, a), p4))
  }

  /** A float at the front of an encoded run reads back, and the rest of the run follows it. */
  lemma {:induction false} FloatAt(data: seq<Byte>, pos: nat, f: FloatBits, rest: seq<Byte>)
    requires At(data, pos, EncFloat(f) + rest)
    ensures DecFloat(data, pos) == Ok((f, pos + 4)) && At(data, pos + 4, rest)
  {
    AtSplit(data, pos, EncFloat(f), rest);
    FloatInverts();
    assert DecFloat(data, pos) == Ok((f, pos + |EncFloat(f)|));
  }

  /** A Vector2 is x then y, 8 bytes, and reads back as the same vector. */
  lemma {:induction false} Vector2Inverts()
    ensures Inverts(EncVector2, DecVector2)
    ensures forall v :: |EncVector2(v)| == 8
  {
    forall v: Vector2<FloatBits>, data: seq<Byte>, pos: nat | At(data, pos, EncVector2(v))
      ensures DecVector2(data, pos) == Ok((v, pos + |EncVector2(v)|))
    {
      FloatAt(data, pos, v.x, EncFloat(v.y));
      FloatAt(data, pos + 4, v.y, []);
    }
  }

  /** A Vector3 is x, y, z, 12 bytes, and reads back as the same vector. */
  lemma {:induction false} Vector3Inverts()
    ensures Inverts(EncVector3, DecVector3)
    ensures forall v :: |EncVector3(v)| == 12
  {
    forall v: Vector3<FloatBits>, data: seq<Byte>, pos: nat | At(data, pos, EncVector3(v))
      ensures DecVector3(data, pos) == Ok((v, pos + |EncVector3(v)|))
    {
      assert EncVector3(v) == EncFloat(v.x) + (EncFloat(v.y) + EncFloat(v.z));
      FloatAt(data, pos, v.x, EncFloat(v.y) + EncFloat(v.z));
      FloatAt(data, pos + 4, v.y, EncFloat(v.z));
      FloatAt(data, pos + 8, v.z, []);
    }
  }

  /** A Vector4 is x, y, z, w, 16 bytes, and reads back as the same vector. */
  lemma {:induction false} Vector4Inverts()
    ensures Inverts(EncVector4, DecVector4)
    ensures forall v :: |EncVector4(v)| == 16
  {
    forall v: Vector4<FloatBits>, data: seq<Byte>, pos: nat | At(data, pos, EncVector4(v))
      ensures DecVector4(data, pos) == Ok((v, pos + |EncVector4(v)|))
    {
      assert EncVector4(v) == EncFloat(v.x) + (EncFloat(v.y) + (EncFloat(v.z) + EncFloat(v.w)));
      FloatAt(data, pos, v.x, EncFloat(v.y) + (EncFloat(v.z) + EncFloat(v.w)));
      FloatAt(data, pos + 4, v.y, EncFloat(v.z) + EncFloat(v.w));
      FloatAt(data, pos + 8, v.z, EncFloat(v.w));
      FloatAt(data, pos + 12, v.w, []);
    }
  }

  /** A colour is r, g, b, a, 16 bytes, and reads back as the same colour. */
  lemma {:induction false} ColorInverts()
    ensures Inverts(EncColor, DecColor)
    ensures forall c :: |EncColor(c)| == 16
  {
    forall c: ColorRGBA<FloatBits>, data: seq<Byte>, pos: nat | At(data, pos, EncColor(c))
      ensures DecColor(data, pos) == Ok((c, pos + |EncColor(c)|))
    {
      assert EncColor(c) == EncFloat(c.r) + (EncFloat(c.g) + (EncFloat(c.b) + EncFloat(c.a)));
      FloatAt(data, pos, c.r, EncFloat(c.g) + (EncFloat(c.b) + EncFloat(c.a)));
      FloatAt(data, pos + 4, c.g, EncFloat(c.b) + EncFloat(c.a));
      FloatAt(data, pos + 8, c.b, EncFloat(c.a));
      FloatAt(data, pos + 12, c.a, []);
    }
  }

  lemma {:induction false} Vector3Monotone()
    ensures Monotone(DecVector3)
  {
    FloatMonotone();
  }

  lemma {:induction false} Vector3FailsAtEnd()
    ensures FailsAtEnd(DecVector3)
  {
    FixedFailAtEnd();
  }

  method SerializeVector2(s: Serializer, v: Vector2<FloatBits>)
    modifies s
    ensures s.data == old(s.data) + EncVector2(v)
  {
    s.WriteFloat(v.x);
    s.WriteFloat(v.y);
  }

  method SerializeVector3(s: Serializer, v: Vector3<FloatBits>)
    modifies s
    ensures s.data == old(s.data) + EncVector3(v)
  {
    s.WriteFloat(v.x);
    s.WriteFloat(v.y);
    s.WriteFloat(v.z);
  }

  method SerializeVector4(s: Serializer, v: Vector4<FloatBits>)
    modifies s
    ensures s.data == old(s.data) + EncVector4(v)
  {
    s.WriteFloat(v.x);
    s.WriteFloat(v.y);
    s.WriteFloat(v.z);
    s.WriteFloat(v.w);
  }

  method SerializeColor(s: Serializer, c: ColorRGBA<FloatBits>)
    modifies s
    ensures s.data == old(s.data) + EncColor(c)
  {
    s.WriteFloat(c.r);
    s.WriteFloat(c.g);
    s.WriteFloat(c.b);
    s.WriteFloat(c.a);
  }

  method DeserializeVector2(d: Deserializer) returns (r: Result<Vector2<FloatBits>>)
    requires d.Valid()
    modifies d
    ensures d.Valid()
    ensures r.Ok? <==> DecVector2(d.data, old(d.pos)).Ok?
    ensures r.Ok? ==> DecVector2(d.data, old(d.pos)) == Ok((r.value, d.pos))
  {
    var x := d.ReadFloat();
    if x.Err? { return Err(x.error); }
    var y := d.ReadFloat();
    if y.Err? { return Err(y.error); }
    r := Ok(Vector2(x.value, y.value));
  }

  method DeserializeVector3(d: Deserializer) returns (r: Result<Vector3<FloatBits>>)
    requires d.Valid()
    modifies d
    ensures d.Valid()
    ensures r.Ok? <==> DecVector3(d.data, old(d.pos)).Ok?
    ensures r.Ok? ==> DecVector3(d.data, old(d.pos)) == Ok((r.value, d.pos))
  {
    var x := d.ReadFloat();
    if x.Err? { return Err(x.error); }
    var y := d.ReadFloat();
    if y.Err? { return Err(y.error); }
    var z := d.ReadFloat();
    if z.Err? { return Err(z.error); }
    r := Ok(Vector3(x.value, y.value, z.value));
  }

  method DeserializeVector4(d: Deserializer) returns (r: Result<Vector4<FloatBits>>)
    requires d.Valid()
    modifies d
    ensures d.Valid()
    ensures r.Ok? <==> DecVector4(d.data, old(d.pos)).Ok?
    ensures r.Ok? ==> DecVector4(d.data, old(d.pos)) == Ok((r.value, d.pos))
  {
    var x := d.ReadFloat();
    if x.Err? { return Err(x.error); }
    var y := d.ReadFloat();
    if y.Err? { return Err(y.error); }
    var z := d.ReadFloat();
    if z.Err? { return Err(z.error); }
    var w := d.ReadFloat();
    if w.Err? { return Err(w.error); }
    r := Ok(Vector4(x.value, y.value, z.value, w.value));
  }

  method DeserializeColor(d: Deserializer) returns (r: Result<ColorRGBA<FloatBits>>)
    requires d.Valid()
    modifies d
    ensures d.Valid()
    ensures r.Ok? <==> DecColor(d.data, old(d.pos)).Ok?
    ensures r.Ok? ==> DecColor(d.data, old(d.pos)) == Ok((r.value, d.pos))
  {
    var cr := d.ReadFloat();
    if cr.Err? { return Err(cr.error); }
    var cg := d.ReadFloat();
    if cg.Err? { return Err(cg.error); }
    var cb := d.ReadFloat();
    if cb.Err? { return Err(cb.error); }
    var ca := d.ReadFloat();
    if ca.Err? { return Err(ca.error); }
    r := Ok(ColorRGBA(cr.value, cg.value, cb.value, ca.value));
  }
}
