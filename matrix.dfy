/**
 * 4x4 matrices (include/khepri/math/matrix.hpp, src/math/matrix.cpp): four
 * stored column vectors, accessed by row and column, with transposition,
 * the translation row, the product, the scale-rotation-translation factory
 * and the transformation of a direction vector. Components are modelled as
 * reals. A matrix value is its sequence of columns; the operations that
 * change a matrix in place work on an array of its four columns.
 */
module Matrices {
  import opened Errors
  import opened Vectors

  /** The four columns (`m_cols`): entry (row, col) is component `row` of column `col`. */
  type Matrix = m: seq<Vector4<real>> | |m| == 4 witness seq(4, _ => Vector4(0.0, 0.0, 0.0, 0.0))

  /** A matrix with every component zero: a value-initialised matrix. */
  const ZERO: Matrix := seq(4, _ => Vector4(0.0, 0.0, 0.0, 0.0))

  /** A rotation as a quaternion (x, y, z, w). */
  datatype Quaternion = Quaternion(x: real, y: real, z: real, w: real)

  /** `operator[]` on a four-vector; the index is asserted to be below 4. */
  function Component(v: Vector4<real>, i: nat): real
    requires i < 4
  {
    if i == 0 then v.x else if i == 1 then v.y else if i == 2 then v.z else v.w
  }

  /** The four-vector v with component i replaced by e. */
  function WithComponent(v: Vector4<real>, i: nat, e: real): (r: Vector4<real>)
    requires i < 4
    ensures forall k :: 0 <= k < 4 ==> Component(r, k) == if k == i then e else Component(v, k)
  {
    if i == 0 then v.(x := e) else if i == 1 then v.(y := e) else if i == 2 then v.(z := e) else v.(w := e)
  }

  /** Entry (row, col). */
  function At(m: Matrix, row: nat, col: nat): real
    requires row < 4 && col < 4
  {
    Component(m[col], row)
  }

  /** The matrix m with entry (row, col) replaced by e: an assignment `m(row, col) = e`. */
  function SetAt(m: Matrix, row: nat, col: nat, e: real): (r: Matrix)
    requires row < 4 && col < 4
    ensures forall i, j :: 0 <= i < 4 && 0 <= j < 4 ==> At(r, i, j) == if i == row && j == col then e else At(m, i, j)
  {
    m[col := WithComponent(m[col], row, e)]
  }

  /** The sixteen-argument constructor: the arguments are the entries row by row. */
  function FromRows(v: seq<real>): (m: Matrix)
    requires |v| == 16
    ensures forall r, c :: 0 <= r < 4 && 0 <= c < 4 ==> At(m, r, c) == v[4 * r + c]
  {
    [Vector4(v[0], v[4], v[8], v[12]), Vector4(v[1], v[5], v[9], v[13]),
     Vector4(v[2], v[6], v[10], v[14]), Vector4(v[3], v[7], v[11], v[15])]
  }

  /**
   * `operator()(row, col)`: an out-of-range error when the column is past 3
   * (the column array is indexed with a checked access); the row index into
   * the column vector is asserted to be below 4.
   */
  function Get(m: Matrix, row: nat, col: nat): (r: Result<real>)
    requires col < 4 ==> row < 4
    ensures col >= 4 <==> r == Err(OutOfRange)
    ensures col < 4 ==> r == Ok(At(m, row, col))
  {
    if col >= 4 then Err(OutOfRange) else Ok(Component(m[col], row))
  }

  /** `col(c)`: the c-th stored column. */
  function Col(m: Matrix, c: nat): Vector4<real>
    requires c < 4
  {
    m[c]
  }

  /** `row(r)`: the r-th component of every column. */
  function Row(m: Matrix, r: nat): Vector4<real>
    requires r < 4
  {
    Vector4(Component(m[0], r), Component(m[1], r), Component(m[2], r), Component(m[3], r))
  }

  /** The dot product of two four-vectors. */
  function Dot(a: Vector4<real>, b: Vector4<real>): real
  {
    a.x * b.x + a.y * b.y + a.z * b.z + a.w * b.w
  }

  /** The transpose: entry (r, c) is entry (c, r) of m. */
  function Transposed(m: Matrix): (t: Matrix)
    ensures forall r, c :: 0 <= r < 4 && 0 <= c < 4 ==> At(t, r, c) == At(m, c, r)
  {
    [Row(m, 0), Row(m, 1), Row(m, 2), Row(m, 3)]
  }

  /** `IDENTITY`. */
  const IDENTITY: Matrix := FromRows([1.0, 0.0, 0.0, 0.0, 0.0, 1.0, 0.0, 0.0, 0.0, 0.0, 1.0, 0.0, 0.0, 0.0, 0.0, 1.0])

  /** Column j of a product: the dot products of the rows of m1 with column j of m2. */
  function ProductColumn(m1: Matrix, m2: Matrix, j: nat): Vector4<real>
    requires j < 4
  {
    Vector4(Dot(Row(m1, 0), m2[j]), Dot(Row(m1, 1), m2[j]), Dot(Row(m1, 2), m2[j]), Dot(Row(m1, 3), m2[j]))
  }

  /** `operator*(Matrix, Matrix)`: entry (i, j) is the dot product of row i of m1 and column j of m2. */
  function Mul(m1: Matrix, m2: Matrix): (m: Matrix)
    ensures forall i, j :: 0 <= i < 4 && 0 <= j < 4 ==> At(m, i, j) == Dot(Row(m1, i), Col(m2, j))
  {
    [ProductColumn(m1, m2, 0), ProductColumn(m1, m2, 1), ProductColumn(m1, m2, 2), ProductColumn(m1, m2, 3)]
  }

  /** `get_translation`: the first three entries of row 3. */
  function GetTranslation(m: Matrix): (t: Vector3<real>)
    ensures forall c :: 0 <= c < 3 ==> Component3(t, c) == At(m, 3, c)
  {
    Vector3(m[0].w, m[1].w, m[2].w)
  }

  /** `create_translation`: the identity with t in the first three entries of row 3. */
  function CreateTranslation(t: Vector3<real>): (m: Matrix)
    ensures GetTranslation(m) == t
    ensures forall r, c :: 0 <= r < 4 && 0 <= c < 4 && !(r == 3 && c < 3) ==> At(m, r, c) == At(IDENTITY, r, c)
  {
    FromRows([1.0, 0.0, 0.0, 0.0, 0.0, 1.0, 0.0, 0.0, 0.0, 0.0, 1.0, 0.0, t.x, t.y, t.z, 1.0])
  }

  /** The 3x3 rotation block of a quaternion, row by row, as `create_rotation` computes it. */
  function RotationBlock(q: Quaternion): (b: seq<real>)
    ensures |b| == 9
  {
    [1.0 - 2.0 * q.y * q.y - 2.0 * q.z * q.z, 2.0 * q.x * q.y + 2.0 * q.w * q.z, 2.0 * q.x * q.z - 2.0 * q.w * q.y,
     2.0 * q.x * q.y - 2.0 * q.w * q.z, 1.0 - 2.0 * q.x * q.x - 2.0 * q.z * q.z, 2.0 * q.y * q.z + 2.0 * q.w * q.x,
     2.0 * q.x * q.z + 2.0 * q.w * q.y, 2.0 * q.y * q.z - 2.0 * q.w * q.x, 1.0 - 2.0 * q.x * q.x - 2.0 * q.y * q.y]
  }

  /** The rotation matrix with 3x3 block b (row by row): no translation and no projection part. */
  function RotationMatrix(b: seq<real>): (m: Matrix)
    requires |b| == 9
    ensures forall i, j :: 0 <= i < 3 && 0 <= j < 3 ==> At(m, i, j) == b[3 * i + j]
    ensures At(m, 3, 0) == 0.0 && At(m, 3, 1) == 0.0 && At(m, 3, 2) == 0.0 && At(m, 3, 3) == 1.0
    ensures At(m, 0, 3) == 0.0 && At(m, 1, 3) == 0.0 && At(m, 2, 3) == 0.0
  {
    FromRows([b[0], b[1], b[2], 0.0, b[3], b[4], b[5], 0.0, b[6], b[7], b[8], 0.0, 0.0, 0.0, 0.0, 1.0])
  }

  /** `create_rotation`: the rotation matrix of a quaternion. */
  function CreateRotation(q: Quaternion): (m: Matrix)
    ensures GetTranslation(m) == Vector3(0.0, 0.0, 0.0)
    ensures At(m, 0, 3) == 0.0 && At(m, 1, 3) == 0.0 && At(m, 2, 3) == 0.0 && At(m, 3, 3) == 1.0
    ensures q == Quaternion(0.0, 0.0, 0.0, 1.0) ==> m == IDENTITY
  {
    RotationMatrix(RotationBlock(q))
  }

  /** Component i of a three-vector (`operator[]`, index asserted to be below 3). */
  function Component3(v: Vector3<real>, i: nat): real
    requires i < 3
  {
    if i == 0 then v.x else if i == 1 then v.y else v.z
  }

  /** Row i of the 3x3 block b scaled by component i of s, with t and 1 in row 3. */
  function SrtMatrix(s: Vector3<real>, b: seq<real>, t: Vector3<real>): Matrix
    requires |b| == 9
  {
    FromRows([s.x * b[0], s.x * b[1], s.x * b[2], 0.0,
              s.y * b[3], s.y * b[4], s.y * b[5], 0.0,
              s.z * b[6], s.z * b[7], s.z * b[8], 0.0,
              t.x, t.y, t.z, 1.0])
  }

  /**
   * `create_srt` (src/math/matrix.cpp): the rotation's 3x3 block with row i
   * scaled by component i of the scale, and the translation in row 3.
   * Every scale component must be positive.
   */
  function CreateSrt(s: Vector3<real>, r: Quaternion, t: Vector3<real>): (m: Matrix)
    requires s.x > 0.0 && s.y > 0.0 && s.z > 0.0
    ensures forall i, j :: 0 <= i < 3 && 0 <= j < 3 ==> At(m, i, j) == Component3(s, i) * At(CreateRotation(r), i, j)
    ensures GetTranslation(m) == t
    ensures At(m, 0, 3) == 0.0 && At(m, 1, 3) == 0.0 && At(m, 2, 3) == 0.0 && At(m, 3, 3) == 1.0
  {
    SrtBlock(s, RotationBlock(r), t);
    SrtMatrix(s, RotationBlock(r), t)
  }

  /** `operator*(Vector3, Matrix)`: the vector times the 3x3 block, as a direction (w = 0). */
  function TransformVector(v: Vector3<real>, m: Matrix): (r: Vector3<real>)
    ensures forall j :: 0 <= j < 3 ==> Component3(r, j) == Dot(Vector4(v.x, v.y, v.z, 0.0), Col(m, j))
  {
    Vector3(
      v.x * At(m, 0, 0) + v.y * At(m, 1, 0) + v.z * At(m, 2, 0),
      v.x * At(m, 0, 1) + v.y * At(m, 1, 1) + v.z * At(m, 2, 1),
      v.x * At(m, 0, 2) + v.y * At(m, 1, 2) + v.z * At(m, 2, 2))
  }

  // ----- operations in place and loops

  /**
   * Member `transpose`: swaps entry (i, j) with entry (j, i) for every
   * j < i, in place.
   */
  method Transpose(a: array<Vector4<real>>)
    requires a.Length == 4
    modifies a
    ensures a[..] == Transposed(old(a[..]))
  {
    ghost var o: Matrix := a[..];
    for i := 1 to 4
      invariant forall r, c :: 0 <= r < 4 && 0 <= c < 4 ==>
        At(a[..], r, c) == (if r < i && c < i then At(o, c, r) else At(o, r, c))
    {
      for j := 0 to i
        invariant forall r, c :: 0 <= r < 4 && 0 <= c < 4 ==>
          At(a[..], r, c) == (if (r < i && c < i) || (r == i && c < j) || (c == i && r < j) then At(o, c, r) else At(o, r, c))
      {
        var tmp := Component(a[j], i);
        a[j] := WithComponent(a[j], i, Component(a[i], j));
        a[i] := WithComponent(a[i], j, tmp);
      }
    }
    Ext(a[..], Transposed(o));
  }

  /**
   * Free `transpose` as written: the result starts as a zero matrix and the
   * loops copy only the pairs below and above the diagonal, so the diagonal
   * of the result stays zero.
   */
  method TransposeCopyAsWritten(m: Matrix) returns (x: Matrix)
    ensures forall r, c :: 0 <= r < 4 && 0 <= c < 4 ==> At(x, r, c) == (if r == c then 0.0 else At(m, c, r))
  {
    x := ZERO;
    for i := 1 to 4
      invariant forall r, c :: 0 <= r < 4 && 0 <= c < 4 ==>
        At(x, r, c) == (if r != c && r < i && c < i then At(m, c, r) else 0.0)
    {
      for j := 0 to i
        invariant forall r, c :: 0 <= r < 4 && 0 <= c < 4 ==>
          At(x, r, c) == (if r != c && ((r < i && c < i) || (r == i && c < j) || (c == i && r < j)) then At(m, c, r) else 0.0)
      {
        x := SetAt(x, i, j, At(m, j, i));
        x := SetAt(x, j, i, At(m, i, j));
      }
    }
  }

  /** The free `transpose` with the diagonal copied as well: the transpose of m. */
  method TransposeCopy(m: Matrix) returns (x: Matrix)
    ensures x == Transposed(m)
  {
    x := ZERO;
    for i := 0 to 4
      invariant forall r, c :: 0 <= r < 4 && 0 <= c < 4 ==>
        At(x, r, c) == (if r < i && c < i then At(m, c, r) else 0.0)
    {
      for j := 0 to i + 1
        invariant forall r, c :: 0 <= r < 4 && 0 <= c < 4 ==>
          At(x, r, c) == (if (r < i && c < i) || (r == i && c < j) || (c == i && r < j) then At(m, c, r) else 0.0)
      {
        x := SetAt(x, i, j, At(m, j, i));
        x := SetAt(x, j, i, At(m, i, j));
      }
    }
    Ext(x, Transposed(m));
  }

  /** The free `transpose` as written does not transpose the identity: it loses the diagonal. */
  method TransposeCopyAsWrittenLosesDiagonal() returns (x: Matrix)
    ensures x != Transposed(IDENTITY)
  {
    x := TransposeCopyAsWritten(IDENTITY);
    assert At(x, 0, 0) == 0.0;
    assert At(Transposed(IDENTITY), 0, 0) == 1.0;
  }

  /** `set_translation`: stores v in the first three entries of row 3 and changes nothing else. */
  method SetTranslation(a: array<Vector4<real>>, v: Vector3<real>)
    requires a.Length == 4
    modifies a
    ensures GetTranslation(a[..]) == v
    ensures forall r, c :: 0 <= r < 4 && 0 <= c < 4 && !(r == 3 && c < 3) ==> At(a[..], r, c) == At(old(a[..]), r, c)
  {
    a[0] := a[0].(w := v.x);
    a[1] := a[1].(w := v.y);
    a[2] := a[2].(w := v.z);
  }

  /** `operator*=(Matrix)`: post-multiplies the matrix in place. */
  method MulAssign(a: array<Vector4<real>>, m: Matrix)
    requires a.Length == 4
    modifies a
    ensures a[..] == Mul(old(a[..]), m)
  {
    var p := Mul(a[..], m);
    a[0], a[1], a[2], a[3] := p[0], p[1], p[2], p[3];
  }

  /**
   * The product of the template header: entry (i, j) of the result is set
   * to the dot product of row i of m1 and column j of m2, one entry at a time.
   */
  method Product(m1: Matrix, m2: Matrix) returns (m: Matrix)
    ensures m == Mul(m1, m2)
  {
    m := ZERO;
    for i := 0 to 4
      invariant forall r, c :: 0 <= r < i && 0 <= c < 4 ==> At(m, r, c) == Dot(Row(m1, r), Col(m2, c))
    {
      for j := 0 to 4
        invariant forall r, c :: 0 <= r < 4 && 0 <= c < 4 && (r < i || (r == i && c < j)) ==>
          At(m, r, c) == Dot(Row(m1, r), Col(m2, c))
      {
        m := SetAt(m, i, j, Dot(Row(m1, i), Col(m2, j)));
      }
    }
    Ext(m, Mul(m1, m2));
  }

  /** Entries (i, 0), (i, 1) and (i, 2) multiplied by k: one pass of the scaling loop of `create_srt`. */
  function ScaleRow(m: Matrix, i: nat, k: real): (r: Matrix)
    requires i < 3
    ensures forall row, c :: 0 <= row < 4 && 0 <= c < 4 ==>
      At(r, row, c) == if row == i && c < 3 then k * At(m, row, c) else At(m, row, c)
  {
    var m0 := SetAt(m, i, 0, At(m, i, 0) * k);
    var m1 := SetAt(m0, i, 1, At(m0, i, 1) * k);
    SetAt(m1, i, 2, At(m1, i, 2) * k)
  }

  /** The rotation with block b and the translation set in row 3: the start of `create_srt` in the template header. */
  function RotationWithTranslation(b: seq<real>, t: Vector3<real>): Matrix
    requires |b| == 9
  {
    var rot := RotationMatrix(b);
    [rot[0].(w := t.x), rot[1].(w := t.y), rot[2].(w := t.z), rot[3]]
  }

  /**
   * `create_srt` of the template header: the rotation, then the translation
   * set, then rows 0 to 2 of the 3x3 block scaled one row at a time.
   */
  method BuildSrt(s: Vector3<real>, q: Quaternion, t: Vector3<real>) returns (m: Matrix)
    requires s.x > 0.0 && s.y > 0.0 && s.z > 0.0
    ensures m == CreateSrt(s, q, t)
  {
    m := ScaleRotation(s, RotationBlock(q), t);
  }

  /** The loop of `create_srt` for the rotation with block b. */
  method ScaleRotation(s: Vector3<real>, b: seq<real>, t: Vector3<real>) returns (m: Matrix)
    requires |b| == 9
    ensures m == SrtMatrix(s, b, t)
  {
    var m0 := RotationWithTranslation(b, t);
    m := m0;
    for i := 0 to 3
      invariant ScaledUpTo(m, m0, s, i)
    {
      ScaleRowStep(m, m0, s, i);
      m := ScaleRow(m, i, Component3(s, i));
    }
    ScaledAll(m, s, b, t);
  }

  /** Rows below i of the 3x3 block are those of m0 scaled by the matching scale component; the rest are those of m0. */
  ghost predicate ScaledUpTo(m: Matrix, m0: Matrix, s: Vector3<real>, i: nat)
  {
    forall r, c :: 0 <= r < 4 && 0 <= c < 4 ==>
      At(m, r, c) == if r < i && r < 3 && c < 3 then Component3(s, r) * At(m0, r, c) else At(m0, r, c)
  }

  lemma {:induction false} ScaleRowStep(m: Matrix, m0: Matrix, s: Vector3<real>, i: nat)
    requires i < 3 && ScaledUpTo(m, m0, s, i)
    ensures ScaledUpTo(ScaleRow(m, i, Component3(s, i)), m0, s, i + 1)
  {
  }

  lemma {:induction false} ScaledAll(m: Matrix, s: Vector3<real>, b: seq<real>, t: Vector3<real>)
    requires |b| == 9 && ScaledUpTo(m, RotationWithTranslation(b, t), s, 3)
    ensures m == SrtMatrix(s, b, t)
  {
    forall r, c | 0 <= r < 3 && 0 <= c < 4
      ensures At(m, r, c) == At(SrtMatrix(s, b, t), r, c)
    {
      SrtEntry(s, b, t, r, c);
    }
    SrtRow3(s, b, t);
    Ext(m, SrtMatrix(s, b, t));
  }

  // ----- properties

  /** Two matrices with the same entries are equal. */
  lemma {:induction false} Ext(a: Matrix, b: Matrix)
    requires forall r, c :: 0 <= r < 4 && 0 <= c < 4 ==> At(a, r, c) == At(b, r, c)
    ensures a == b
  {
    forall c | 0 <= c < 4
      ensures a[c] == b[c]
    {
      assert At(a, 0, c) == At(b, 0, c) && At(a, 1, c) == At(b, 1, c);
      assert At(a, 2, c) == At(b, 2, c) && At(a, 3, c) == At(b, 3, c);
    }
  }

  /**
   * Entry (r, c) with r < 3 of the scale-rotation-translation matrix: the
   * matching entry of the rotation with the translation set, scaled by
   * component r of the scale in the 3x3 block and unscaled in column 3.
   */
  lemma {:induction false} SrtEntry(s: Vector3<real>, b: seq<real>, t: Vector3<real>, r: nat, c: nat)
    requires |b| == 9 && r < 3 && c < 4
    ensures c < 3 ==> At(SrtMatrix(s, b, t), r, c) == Component3(s, r) * At(RotationWithTranslation(b, t), r, c)
    ensures c == 3 ==> At(SrtMatrix(s, b, t), r, c) == At(RotationWithTranslation(b, t), r, c)
  {
    var m0 := RotationWithTranslation(b, t);
    if c < 3 {
      assert At(m0, r, c) == At(RotationMatrix(b), r, c);
    }
  }

  /** The 3x3 block of the scale-rotation-translation matrix is the rotation's, row i scaled by scale i. */
  lemma {:induction false} SrtBlock(s: Vector3<real>, b: seq<real>, t: Vector3<real>)
    requires |b| == 9
    ensures forall i, j :: 0 <= i < 3 && 0 <= j < 3 ==>
      At(SrtMatrix(s, b, t), i, j) == Component3(s, i) * At(RotationMatrix(b), i, j)
  {
    forall i, j | 0 <= i < 3 && 0 <= j < 3
      ensures At(SrtMatrix(s, b, t), i, j) == Component3(s, i) * At(RotationMatrix(b), i, j)
    {
      SrtEntry(s, b, t, i, j);
      assert At(RotationWithTranslation(b, t), i, j) == At(RotationMatrix(b), i, j);
    }
  }

  /** Row 3 of the scale-rotation-translation matrix is the translation and 1, as set before scaling. */
  lemma {:induction false} SrtRow3(s: Vector3<real>, b: seq<real>, t: Vector3<real>)
    requires |b| == 9
    ensures GetTranslation(SrtMatrix(s, b, t)) == t && At(SrtMatrix(s, b, t), 3, 3) == 1.0
    ensures forall c :: 0 <= c < 4 ==> At(SrtMatrix(s, b, t), 3, c) == At(RotationWithTranslation(b, t), 3, c)
  {
  }

  /** Row r holds the entries (r, 0..3) and column c the entries (0..3, c): `row(r)[c] == m(r, c) == col(c)[r]`. */
  lemma {:induction false} RowColLayout(m: Matrix, r: nat, c: nat)
    requires r < 4 && c < 4
    ensures Component(Row(m, r), c) == At(m, r, c) == Component(Col(m, c), r)
  {
  }

  /** Transposing twice gives the original matrix. */
  lemma {:induction false} TransposeInvolution(m: Matrix)
    ensures Transposed(Transposed(m)) == m
  {
    Ext(Transposed(Transposed(m)), m);
  }

  /** Entry (i, j) of the identity is 1 on the diagonal and 0 elsewhere. */
  lemma {:induction false} IdentityEntries(r: nat, c: nat)
    requires r < 4 && c < 4
    ensures At(IDENTITY, r, c) == if r == c then 1.0 else 0.0
  {
  }

  /** The identity is a left unit of the product. */
  lemma {:induction false} IdentityLeftUnit(m: Matrix)
    ensures Mul(IDENTITY, m) == m
  {
    forall r, c | 0 <= r < 4 && 0 <= c < 4
      ensures At(Mul(IDENTITY, m), r, c) == At(m, r, c)
    {
      IdentityEntries(r, 0);
      IdentityEntries(r, 1);
      IdentityEntries(r, 2);
      IdentityEntries(r, 3);
    }
    Ext(Mul(IDENTITY, m), m);
  }

  /** The identity is a right unit of the product. */
  lemma {:induction false} IdentityRightUnit(m: Matrix)
    ensures Mul(m, IDENTITY) == m
  {
    forall r, c | 0 <= r < 4 && 0 <= c < 4
      ensures At(Mul(m, IDENTITY), r, c) == At(m, r, c)
    {
      IdentityEntries(0, c);
      IdentityEntries(1, c);
      IdentityEntries(2, c);
      IdentityEntries(3, c);
    }
    Ext(Mul(m, IDENTITY), m);
  }

  /** Setting a translation and reading it back gives that translation. */
  lemma {:induction false} TranslationRoundTrip(t: Vector3<real>)
    ensures GetTranslation(CreateTranslation(t)) == t
  {
  }

  /** Transforming a direction ignores row 3 and column 3 of the matrix. */
  lemma {:induction false} TransformIgnoresRow3AndCol3(v: Vector3<real>, m1: Matrix, m2: Matrix)
    requires forall r, c :: 0 <= r < 3 && 0 <= c < 3 ==> At(m1, r, c) == At(m2, r, c)
    ensures TransformVector(v, m1) == TransformVector(v, m2)
  {
    assert At(m1, 0, 0) == At(m2, 0, 0) && At(m1, 1, 0) == At(m2, 1, 0) && At(m1, 2, 0) == At(m2, 2, 0);
    assert At(m1, 0, 1) == At(m2, 0, 1) && At(m1, 1, 1) == At(m2, 1, 1) && At(m1, 2, 1) == At(m2, 2, 1);
    assert At(m1, 0, 2) == At(m2, 0, 2) && At(m1, 1, 2) == At(m2, 1, 2) && At(m1, 2, 2) == At(m2, 2, 2);
    assert TransformVector(v, m1).x == TransformVector(v, m2).x;
    assert TransformVector(v, m1).y == TransformVector(v, m2).y;
    assert TransformVector(v, m1).z == TransformVector(v, m2).z;
  }

  /** A translation leaves directions unchanged, as the identity does. */
  lemma {:induction false} TranslationKeepsDirections(v: Vector3<real>, t: Vector3<real>)
    ensures TransformVector(v, CreateTranslation(t)) == v
  {
    TransformIgnoresRow3AndCol3(v, CreateTranslation(t), IDENTITY);
    IdentityEntries(0, 0);
  }
}
