/**
 * Sprite rendering in the Diligent renderer (src/renderer/diligent/renderer.cpp):
 * the index buffer made once at construction, which turns every four
 * vertices into a quad of two triangles, and `render_sprites`, which copies
 * the sprites' corners into the vertex buffer one batch at a time and draws
 * each batch. The batch capacity `SPRITE_BUFFER_COUNT` is a parameter.
 */
module DiligentSprites {
  import opened Bytes
  import opened Vectors

  const TRIANGLES_PER_SPRITE: nat := 2
  const VERTICES_PER_TRIANGLE: nat := 3
  /** The corners of a sprite: the four vertices written per sprite. */
  const VERTICES_PER_SPRITE: nat := 4

  /**
   * Index t of quad q in the index buffer: the triangles (0, 2, 1) and
   * (0, 3, 2) over the quad's four vertices 4q .. 4q + 3.
   */
  function QuadIndex(q: nat, t: nat): (r: nat)
    requires t < 6
    ensures 4 * q <= r < 4 * q + 4
  {
    [4 * q, 4 * q + 2, 4 * q + 1, 4 * q, 4 * q + 3, 4 * q + 2][t]
  }

  /**
   * The index buffer of the constructor as written: the loop counts the
   * vertex offset i up in steps of four but stops once i reaches the
   * sprite count, so only the quads q with 4q below the count are filled;
   * the others keep the zeros the buffer starts with.
   */
  method FillSpriteIndicesAsWritten(count: nat) returns (indices: array<Uint16>)
    requires count <= 0x4000
    ensures indices.Length == 6 * count
    ensures forall q, t :: 0 <= q < count && 4 * q < count && 0 <= t < 6 ==> indices[6 * q + t] == QuadIndex(q, t)
    ensures forall m :: 0 <= m < indices.Length && count <= 4 * (m / 6) ==> indices[m] == 0
  {
    indices := new Uint16[6 * count](_ => 0);
    var i, j := 0, 0;
    ghost var q := 0;
    while i < count
      invariant i == 4 * q && j == 6 * q && q <= count && 4 * q < count + 4
      invariant forall p, t :: 0 <= p < q && 0 <= t < 6 ==> indices[6 * p + t] == QuadIndex(p, t)
      invariant forall m :: j <= m < indices.Length ==> indices[m] == 0
      decreases count - i
    {
      StoreQuad(indices, q, i, j);
      i, j, q := i + VERTICES_PER_SPRITE, j + TRIANGLES_PER_SPRITE * VERTICES_PER_TRIANGLE, q + 1;
    }
    forall m | 0 <= m < indices.Length && count <= 4 * (m / 6)
      ensures indices[m] == 0
    {
      assert m / 6 >= q;
    }
  }

  /**
   * The index buffer with the loop bound the draw calls need: one quad per
   * sprite of a full batch.
   */
  method FillSpriteIndices(count: nat) returns (indices: array<Uint16>)
    requires count <= 0x4000
    ensures indices.Length == 6 * count
    ensures forall q, t :: 0 <= q < count && 0 <= t < 6 ==> indices[6 * q + t] == QuadIndex(q, t)
  {
    indices := new Uint16[6 * count](_ => 0);
    var i, j := 0, 0;
    ghost var q := 0;
    while i < VERTICES_PER_SPRITE * count
      invariant i == 4 * q && j == 6 * q && q <= count
      invariant forall p, t :: 0 <= p < q && 0 <= t < 6 ==> indices[6 * p + t] == QuadIndex(p, t)
      decreases 4 * count - i
    {
      StoreQuad(indices, q, i, j);
      i, j, q := i + VERTICES_PER_SPRITE, j + TRIANGLES_PER_SPRITE * VERTICES_PER_TRIANGLE, q + 1;
    }
  }

  /** One pass of the index loop: writes the six indices of quad q at j = 6q, for vertices from i = 4q. */
  method StoreQuad(indices: array<Uint16>, ghost q: nat, i: nat, j: nat)
    requires i == 4 * q && j == 6 * q && j + 6 <= indices.Length && i + 4 <= 0x1_0000
    requires forall p, t :: 0 <= p < q && 0 <= t < 6 ==> indices[6 * p + t] == QuadIndex(p, t)
    modifies indices
    ensures forall p, t :: 0 <= p <= q && 0 <= t < 6 ==> indices[6 * p + t] == QuadIndex(p, t)
    ensures forall m :: j + 6 <= m < indices.Length ==> indices[m] == old(indices[m])
  {
    var triangle0 := j;
    indices[triangle0 + 0] := i + 0;
    indices[triangle0 + 1] := i + 2;
    indices[triangle0 + 2] := i + 1;
    var triangle1 := j + VERTICES_PER_TRIANGLE;
    indices[triangle1 + 0] := i + 0;
    indices[triangle1 + 1] := i + 3;
    indices[triangle1 + 2] := i + 2;
    forall p, t | 0 <= p <= q && 0 <= t < 6
      ensures indices[6 * p + t] == QuadIndex(p, t)
    {
      if p == q {
        assert 6 * p + t == j + t;
      } else {
        assert 6 * p + t < j;
      }
    }
  }

  // ----- sprites and batches

  /** `Sprite`: a camera-aligned rectangle, by its corners and their texture coordinates. */
  datatype Sprite = Sprite(
    positionTopLeft: Vector2<real>, positionBottomRight: Vector2<real>,
    uvTopLeft: Vector2<real>, uvBottomRight: Vector2<real>)

  /** `SpriteVertex`: a position (z = 0) and texture coordinates. */
  datatype SpriteVertex = SpriteVertex(position: Vector3<real>, uv: Vector2<real>)

  const ZERO_VERTEX := SpriteVertex(Vector3(0.0, 0.0, 0.0), Vector2(0.0, 0.0))

  /**
   * The four vertices of a sprite, top-left, top-right, bottom-right and
   * bottom-left: an axis-aligned rectangle at z = 0 whose texture
   * coordinates follow the same corners.
   */
  function Corners(s: Sprite): (r: seq<SpriteVertex>)
    ensures |r| == 4
    ensures r[0].position == Vector3(s.positionTopLeft.x, s.positionTopLeft.y, 0.0)
    ensures r[2].position == Vector3(s.positionBottomRight.x, s.positionBottomRight.y, 0.0)
    ensures r[0].position.x == r[3].position.x && r[1].position.x == r[2].position.x
    ensures r[0].position.y == r[1].position.y && r[2].position.y == r[3].position.y
    ensures r[0].uv == s.uvTopLeft && r[2].uv == s.uvBottomRight
    ensures r[0].uv.x == r[3].uv.x && r[1].uv.x == r[2].uv.x && r[0].uv.y == r[1].uv.y && r[2].uv.y == r[3].uv.y
  {
    var tl, br := s.positionTopLeft, s.positionBottomRight;
    var uvTl, uvBr := s.uvTopLeft, s.uvBottomRight;
    [SpriteVertex(Vector3(tl.x, tl.y, 0.0), Vector2(uvTl.x, uvTl.y)),
     SpriteVertex(Vector3(br.x, tl.y, 0.0), Vector2(uvBr.x, uvTl.y)),
     SpriteVertex(Vector3(br.x, br.y, 0.0), Vector2(uvBr.x, uvBr.y)),
     SpriteVertex(Vector3(tl.x, br.y, 0.0), Vector2(uvTl.x, uvBr.y))]
  }

  /** The corners of the sprites, four per sprite, in order. */
  function AllCorners(ss: seq<Sprite>): (r: seq<SpriteVertex>)
    ensures |r| == 4 * |ss|
  {
    if ss == [] then [] else AllCorners(ss[..|ss| - 1]) + Corners(ss[|ss| - 1])
  }

  /** One draw of `render_sprites`: the sprites it covers, the vertices it copies and the indices it draws. */
  datatype Batch = Batch(first: nat, count: nat, vertices: seq<SpriteVertex>, indexCount: nat)

  /**
   * A batch is as `render_sprites` makes it: it takes as many of the
   * remaining sprites as fit (at least one), copies their corners, and
   * draws six indices per sprite.
   */
  ghost predicate BatchOk(b: Batch, sprites: seq<Sprite>, capacity: nat)
  {
    0 < b.count && b.first + b.count <= |sprites| &&
    b.count == (if |sprites| - b.first < capacity then |sprites| - b.first else capacity) &&
    b.vertices == AllCorners(sprites[b.first..b.first + b.count]) &&
    b.indexCount == b.count * TRIANGLES_PER_SPRITE * VERTICES_PER_TRIANGLE
  }

  /** The batches follow each other from the first sprite, without gap or overlap, up to `end`. */
  ghost predicate Consecutive(batches: seq<Batch>, end: nat)
  {
    (batches == [] ==> end == 0) &&
    (batches != [] ==>
      batches[0].first == 0 && batches[|batches| - 1].first + batches[|batches| - 1].count == end) &&
    forall k :: 0 <= k < |batches| - 1 ==> batches[k + 1].first == batches[k].first + batches[k].count
  }

  /** The batches cover the sprites before `end` one after the other and copy exactly their corners. */
  ghost predicate Rendered(batches: seq<Batch>, sprites: seq<Sprite>, capacity: nat, end: nat)
    requires end <= |sprites|
  {
    Consecutive(batches, end) &&
    (forall k :: 0 <= k < |batches| ==> BatchOk(batches[k], sprites, capacity)) &&
    VerticesOf(batches) == AllCorners(sprites[..end])
  }

  /** The vertices the batches copy, in order. */
  function VerticesOf(batches: seq<Batch>): seq<SpriteVertex>
  {
    if batches == [] then [] else VerticesOf(batches[..|batches| - 1]) + batches[|batches| - 1].vertices
  }

  /**
   * `render_sprites`: handles the sprites in batches of the remaining
   * count or the buffer capacity, whichever is smaller, each batch
   * following the last; every sprite's corners are copied exactly once,
   * in order.
   */
  method RenderSprites(sprites: seq<Sprite>, capacity: nat) returns (batches: seq<Batch>)
    requires capacity > 0
    ensures Consecutive(batches, |sprites|)
    ensures forall k :: 0 <= k < |batches| ==> BatchOk(batches[k], sprites, capacity)
    ensures VerticesOf(batches) == AllCorners(sprites)
  {
    batches := [];
    var spriteIndex := 0;
    while spriteIndex < |sprites|
      invariant spriteIndex <= |sprites|
      invariant Rendered(batches, sprites, capacity, spriteIndex)
      decreases |sprites| - spriteIndex
    {
      var batch := DrawBatch(sprites, spriteIndex, capacity);
      ghost var done, doneIndex := batches, spriteIndex;
      batches, spriteIndex := batches + [batch], spriteIndex + batch.count;
      BatchLoopStep(done, batch, batches, sprites, capacity, doneIndex, spriteIndex);
    }
    assert sprites[..|sprites|] == sprites;
  }

  /**
   * One pass of the batch loop: takes the remaining sprites or as many as
   * the buffer holds, whichever is fewer, copies their corners and draws
   * six indices per sprite.
   */
  method DrawBatch(sprites: seq<Sprite>, spriteIndex: nat, capacity: nat) returns (batch: Batch)
    requires spriteIndex < |sprites| && capacity > 0
    ensures batch.first == spriteIndex && BatchOk(batch, sprites, capacity)
  {
    var spritesLeft := |sprites| - spriteIndex;
    var spriteCount := if spritesLeft < capacity then spritesLeft else capacity;
    var vertices := CopyBatch(sprites, spriteIndex, spriteCount, capacity);
    batch := Batch(spriteIndex, spriteCount, vertices, spriteCount * TRIANGLES_PER_SPRITE * VERTICES_PER_TRIANGLE);
  }

  /**
   * The copy loop of one batch: maps the vertex buffer of `capacity`
   * sprites and writes the corners of `count` sprites from `first` into
   * it, four vertices per sprite; the written part is the batch's data.
   */
  method CopyBatch(sprites: seq<Sprite>, first: nat, count: nat, capacity: nat) returns (written: seq<SpriteVertex>)
    requires first + count <= |sprites| && count <= capacity
    ensures written == AllCorners(sprites[first..first + count])
  {
    var buffer := new SpriteVertex[VERTICES_PER_SPRITE * capacity](_ => ZERO_VERTEX);
    var i := 0;
    var spriteIndex := first;
    assert sprites[first..first] == [];
    while i < count * VERTICES_PER_SPRITE
      invariant first <= spriteIndex <= first + count && i == 4 * (spriteIndex - first)
      invariant buffer[..i] == AllCorners(sprites[first..spriteIndex])
      decreases count * VERTICES_PER_SPRITE - i
    {
      StoreCorners(buffer, i, sprites[spriteIndex]);
      AllCornersStep(sprites, first, spriteIndex);
      i, spriteIndex := i + VERTICES_PER_SPRITE, spriteIndex + 1;
    }
    written := buffer[..i];
  }

  /** One pass of the copy loop: the sprite's corners go to buffer[i .. i + 3]. */
  method StoreCorners(buffer: array<SpriteVertex>, i: nat, s: Sprite)
    requires i + 4 <= buffer.Length
    modifies buffer
    ensures buffer[..i + 4] == old(buffer[..i]) + Corners(s)
  {
    var c := Corners(s);
    buffer[i + 0] := c[0];
    buffer[i + 1] := c[1];
    buffer[i + 2] := c[2];
    buffer[i + 3] := c[3];
  }

  // ----- properties

  /** One more sprite adds its corners. */
  lemma {:induction false} AllCornersStep(ss: seq<Sprite>, a: nat, b: nat)
    requires a <= b < |ss|
    ensures AllCorners(ss[a..b + 1]) == AllCorners(ss[a..b]) + Corners(ss[b])
  {
    assert ss[a..b + 1][..b - a] == ss[a..b];
  }

  /** The corners of two runs of sprites are the corners of each, one after the other. */
  lemma {:induction false} AllCornersAppend(a: seq<Sprite>, b: seq<Sprite>)
    ensures AllCorners(a + b) == AllCorners(a) + AllCorners(b)
    decreases |b|
  {
    if b == [] {
      assert a + b == a;
    } else {
      var init := b[..|b| - 1];
      AllCornersAppend(a, init);
      assert (a + b)[..|a + b| - 1] == a + init;
    }
  }

  /** The corners of a prefix split at a are those before a followed by those from a. */
  lemma {:induction false} AllCornersPrefix(ss: seq<Sprite>, a: nat, e: nat)
    requires a <= e <= |ss|
    ensures AllCorners(ss[..e]) == AllCorners(ss[..a]) + AllCorners(ss[a..e])
  {
    assert ss[..e] == ss[..a] + ss[a..e];
    AllCornersAppend(ss[..a], ss[a..e]);
  }

  /** One pass of the batch loop: the batches with the new one copy the corners up to its end. */
  lemma {:induction false} VerticesStep(batches: seq<Batch>, batch: Batch, next: seq<Batch>, sprites: seq<Sprite>, nextIndex: nat)
    requires batch.first + batch.count <= |sprites| && next == batches + [batch] && nextIndex == batch.first + batch.count
    requires VerticesOf(batches) == AllCorners(sprites[..batch.first])
    requires batch.vertices == AllCorners(sprites[batch.first..batch.first + batch.count])
    ensures VerticesOf(next) == AllCorners(sprites[..nextIndex])
  {
    AllCornersPrefix(sprites, batch.first, batch.first + batch.count);
    VerticesOfAppend(batches, batch);
  }

  /** One pass of the batch loop: the new batch follows the others and is well formed like them. */
  lemma {:induction false} BatchesStep(batches: seq<Batch>, batch: Batch, next: seq<Batch>, sprites: seq<Sprite>, capacity: nat, nextIndex: nat)
    requires next == batches + [batch] && nextIndex == batch.first + batch.count
    requires Consecutive(batches, batch.first)
    requires forall k :: 0 <= k < |batches| ==> BatchOk(batches[k], sprites, capacity)
    requires BatchOk(batch, sprites, capacity)
    ensures Consecutive(next, nextIndex)
    ensures forall k :: 0 <= k < |next| ==> BatchOk(next[k], sprites, capacity)
  {
  }

  /** One pass of the batch loop keeps its invariants. */
  lemma {:induction false} BatchLoopStep(batches: seq<Batch>, batch: Batch, next: seq<Batch>, sprites: seq<Sprite>, capacity: nat,
                      spriteIndex: nat, nextIndex: nat)
    requires spriteIndex <= |sprites| && Rendered(batches, sprites, capacity, spriteIndex)
    requires batch.first == spriteIndex && BatchOk(batch, sprites, capacity)
    requires next == batches + [batch] && nextIndex == spriteIndex + batch.count
    ensures nextIndex <= |sprites| && Rendered(next, sprites, capacity, nextIndex)
  {
    VerticesStep(batches, batch, next, sprites, nextIndex);
    BatchesStep(batches, batch, next, sprites, capacity, nextIndex);
  }

  /** Appending a batch appends its vertices. */
  lemma {:induction false} VerticesOfAppend(batches: seq<Batch>, b: Batch)
    ensures VerticesOf(batches + [b]) == VerticesOf(batches) + b.vertices
  {
    assert (batches + [b])[..|batches|] == batches;
  }

  /** Every sprite lies in exactly one batch. */
  lemma {:induction false} EachSpriteOnce(batches: seq<Batch>, sprites: seq<Sprite>, capacity: nat, s: nat)
    requires Consecutive(batches, |sprites|)
    requires forall k :: 0 <= k < |batches| ==> BatchOk(batches[k], sprites, capacity)
    requires s < |sprites|
    ensures exists k :: 0 <= k < |batches| && batches[k].first <= s < batches[k].first + batches[k].count
    ensures forall k, l ::
      (0 <= k < |batches| && 0 <= l < |batches| &&
       batches[k].first <= s < batches[k].first + batches[k].count &&
       batches[l].first <= s < batches[l].first + batches[l].count) ==> k == l
  {
    BatchesIncrease(batches, sprites, capacity);
    var k := 0;
    while k < |batches| - 1 && batches[k].first + batches[k].count <= s
      invariant 0 <= k < |batches| && batches[k].first <= s
      decreases |batches| - k
    {
      k := k + 1;
    }
  }

  /** The batches' starts strictly increase, and a later batch starts after an earlier one ends. */
  lemma {:induction false} BatchesIncrease(batches: seq<Batch>, sprites: seq<Sprite>, capacity: nat)
    requires Consecutive(batches, |sprites|)
    requires forall k :: 0 <= k < |batches| ==> BatchOk(batches[k], sprites, capacity)
    ensures forall k, l :: 0 <= k < l < |batches| ==> batches[k].first + batches[k].count <= batches[l].first
  {
    forall k, l | 0 <= k < l < |batches|
      ensures batches[k].first + batches[k].count <= batches[l].first
    {
      var m := k + 1;
      while m < l
        invariant k < m <= l
        invariant batches[k].first + batches[k].count <= batches[m].first
        decreases l - m
      {
        assert BatchOk(batches[m], sprites, capacity);
        m := m + 1;
      }
    }
  }

  /** With the index loop as written, the second quad of a two-sprite batch is all zeros, so its sprite is not drawn. */
  method SpriteIndicesAsWrittenDropsQuad() returns (indices: array<Uint16>)
    ensures indices.Length == 12
    ensures forall m :: 6 <= m < 12 ==> indices[m] == 0
    ensures forall t :: 0 <= t < 6 ==> QuadIndex(1, t) >= 4
  {
    indices := FillSpriteIndicesAsWritten(2);
    forall m | 6 <= m < 12
      ensures indices[m] == 0
    {
      assert m / 6 == 1;
    }
  }
}
