/**
 * Collision meshes (src/physics/collision_mesh.cpp, src/renderer/model.cpp):
 * triangles given by index triples into a vertex list, the distance along a
 * ray to the closest triangle it hits, the all-vertices frustum test, and
 * the bounding sphere and collision mesh a model derives from its meshes.
 * The renderer's and the physics' collision meshes run the same code, on
 * floats and on doubles; both are modelled once, on reals, with the type's
 * largest value as a parameter.
 */
module Collision {
  import opened Bytes
  import opened Vectors
  import opened Meshes

  /** A ray: a start point and a direction. */
  datatype Ray = Ray(start: Vector3<real>, direction: Vector3<real>)

  /** A sphere: a centre and a radius. */
  datatype Sphere = Sphere(center: Vector3<real>, radius: real)

  function Sub(a: Vector3<real>, b: Vector3<real>): Vector3<real>
  {
    Vector3(a.x - b.x, a.y - b.y, a.z - b.z)
  }

  function Cross(a: Vector3<real>, b: Vector3<real>): Vector3<real>
  {
    Vector3(a.y * b.z - a.z * b.y, a.z * b.x - a.x * b.z, a.x * b.y - a.y * b.x)
  }

  function Dot(a: Vector3<real>, b: Vector3<real>): real
  {
    a.x * b.x + a.y * b.y + a.z * b.z
  }

  /** Below this determinant the triangle faces away from the ray or lies parallel to it. */
  const MAX_PARALLEL_DETERMINANT: real := 0.00001

  /** The Möller-Trumbore determinant of a ray and a triangle. */
  function Determinant(ray: Ray, v0: Vector3<real>, v1: Vector3<real>, v2: Vector3<real>): real
  {
    Dot(Sub(v1, v0), Cross(ray.direction, Sub(v2, v0)))
  }

  /**
   * The per-triangle `intersect_distance` (Möller-Trumbore): -1 for a
   * back-facing or parallel triangle, for a crossing point outside the
   * triangle and for one behind the ray's start; otherwise the distance
   * along the ray, which is then not negative.
   */
  function TriangleDistance(ray: Ray, v0: Vector3<real>, v1: Vector3<real>, v2: Vector3<real>): (r: real)
    ensures r == -1.0 || r >= 0.0
    ensures Determinant(ray, v0, v1, v2) < MAX_PARALLEL_DETERMINANT ==> r == -1.0
  {
    var e1 := Sub(v1, v0);
    var e2 := Sub(v2, v0);
    var h := Cross(ray.direction, e2);
    var det := Dot(e1, h);
    if det < MAX_PARALLEL_DETERMINANT then -1.0
    else
      var invDet := 1.0 / det;
      var s := Sub(ray.start, v0);
      var u := invDet * Dot(s, h);
      if u < 0.0 || u > 1.0 then -1.0
      else
        var q := Cross(s, e1);
        var v := invDet * Dot(ray.direction, q);
        if v < 0.0 || u + v > 1.0 then -1.0
        else
          var d := invDet * Dot(e2, q);
          if d < 0.0 then -1.0 else d
  }

  /** `CollisionMesh`: vertices and the index triples of its triangles. */
  datatype CollisionMesh = CollisionMesh(vertices: seq<Vector3<real>>, indices: seq<Uint16>)

  /** Whole triangles only, each index naming a vertex. */
  predicate ValidMesh(m: CollisionMesh)
  {
    |m.indices| % 3 == 0 && forall i :: 0 <= i < |m.indices| ==> m.indices[i] < |m.vertices|
  }

  /** The number of triangles. */
  function TriangleCount(m: CollisionMesh): nat
  {
    |m.indices| / 3
  }

  /** A per-triangle test: -1 for a miss, a distance that is not negative for a hit. */
  type TriangleTest = (Ray, Vector3<real>, Vector3<real>, Vector3<real>) -> real

  /** Whether a per-triangle test answers -1 or a distance that is not negative, as `TriangleDistance` does. */
  ghost predicate IsDistanceTest(test: TriangleTest)
  {
    forall ray, v0, v1, v2 :: test(ray, v0, v1, v2) == -1.0 || test(ray, v0, v1, v2) >= 0.0
  }

  /** The per-triangle result for triangle t. */
  function Hit(m: CollisionMesh, ray: Ray, t: nat, test: TriangleTest): real
    requires ValidMesh(m) && t < TriangleCount(m)
  {
    test(ray, m.vertices[m.indices[3 * t]], m.vertices[m.indices[3 * t + 1]], m.vertices[m.indices[3 * t + 2]])
  }

  /**
   * `intersect_distance`: -1 exactly when no triangle is hit; otherwise the
   * smallest hit distance, capped at the type's largest value, which is not
   * negative. The per-triangle test is a parameter; the meshes use
   * `TriangleDistance`.
   */
  method IntersectDistance(m: CollisionMesh, ray: Ray, maxValue: real, test: TriangleTest) returns (r: real)
    requires ValidMesh(m) && maxValue > 0.0 && IsDistanceTest(test)
    ensures r == -1.0 <==> forall t :: 0 <= t < TriangleCount(m) ==> Hit(m, ray, t, test) == -1.0
    ensures r != -1.0 ==> 0.0 <= r <= maxValue
    ensures r != -1.0 ==> forall t :: 0 <= t < TriangleCount(m) && Hit(m, ray, t, test) != -1.0 ==> r <= Hit(m, ray, t, test)
    ensures r != -1.0 && r != maxValue ==> exists t :: 0 <= t < TriangleCount(m) && Hit(m, ray, t, test) == r
  {
    var minDistance := maxValue;
    var found := false;
    var i := 0;
    var t := 0;
    while i < |m.indices|
      invariant i == 3 * t && t <= TriangleCount(m)
      invariant found <==> exists k :: 0 <= k < t && Hit(m, ray, k, test) != -1.0
      invariant 0.0 <= minDistance <= maxValue
      invariant forall k :: 0 <= k < t && Hit(m, ray, k, test) != -1.0 ==> minDistance <= Hit(m, ray, k, test)
      invariant minDistance != maxValue ==> exists k :: 0 <= k < t && Hit(m, ray, k, test) == minDistance
    {
      // the triangle made of indices i, i + 1 and i + 2
      var distance := test(ray, m.vertices[m.indices[i]], m.vertices[m.indices[i + 1]], m.vertices[m.indices[i + 2]]);
      assert distance == Hit(m, ray, t, test);
      if distance != -1.0 {
        minDistance := if distance < minDistance then distance else minDistance;
        found := true;
      }
      i := i + 3;
      t := t + 1;
    }
    r := if found then minDistance else -1.0;
  }

  /**
   * `intersect(frustum)`: whether every vertex is inside the frustum, so
   * true for a mesh without vertices. The frustum's own inside test is a
   * parameter.
   */
  function Intersect(vertices: seq<Vector3<real>>, inside: Vector3<real> -> bool): (r: bool)
    ensures r <==> forall i :: 0 <= i < |vertices| ==> inside(vertices[i])
  {
    if vertices == [] then true else inside(vertices[0]) && Intersect(vertices[1..], inside)
  }

  /**
   * `compute_bounding_sphere`: centred at the origin, with the largest
   * vertex distance from it as radius (0 without vertices), so it holds
   * every vertex. The vector length is a parameter.
   */
  method ComputeBoundingSphere(meshes: seq<Mesh<real>>, length: Vector3<real> -> real) returns (s: Sphere)
    ensures s.center == Vector3(0.0, 0.0, 0.0) && s.radius >= 0.0
    ensures forall i, j :: 0 <= i < |meshes| && 0 <= j < |meshes[i].vertices| ==>
      length(meshes[i].vertices[j].position) <= s.radius
    ensures s.radius != 0.0 ==>
      exists i, j :: 0 <= i < |meshes| && 0 <= j < |meshes[i].vertices| && length(meshes[i].vertices[j].position) == s.radius
  {
    var center := Vector3(0.0, 0.0, 0.0);
    var radius := 0.0;
    for i := 0 to |meshes|
      invariant radius >= 0.0
      invariant forall a, b :: 0 <= a < i && 0 <= b < |meshes[a].vertices| ==>
        length(meshes[a].vertices[b].position) <= radius
      invariant radius != 0.0 ==>
        exists a, b :: 0 <= a < i && 0 <= b < |meshes[a].vertices| && length(meshes[a].vertices[b].position) == radius
    {
      var vs := meshes[i].vertices;
      for j := 0 to |vs|
        invariant radius >= 0.0
        invariant forall a, b :: 0 <= a < i && 0 <= b < |meshes[a].vertices| ==>
          length(meshes[a].vertices[b].position) <= radius
        invariant forall b :: 0 <= b < j ==> length(vs[b].position) <= radius
        invariant radius != 0.0 ==>
          (exists a, b :: 0 <= a < i && 0 <= b < |meshes[a].vertices| && length(meshes[a].vertices[b].position) == radius) ||
          (exists b :: 0 <= b < j && length(vs[b].position) == radius)
      {
        var d := length(Sub(vs[j].position, center));
        assert Sub(vs[j].position, center) == vs[j].position;
        radius := if radius < d then d else radius;
      }
    }
    s := Sphere(center, radius);
  }

  /**
   * `create_collision_mesh`: the positions and the indices of the first
   * mesh, or an empty collision mesh for a model without meshes. The
   * collision mesh constructor asserts whole triangles only in debug builds,
   * so the result is a valid mesh only when the first mesh's indices are.
   */
  method CreateCollisionMesh(meshes: seq<Mesh<real>>) returns (m: CollisionMesh)
    ensures meshes == [] ==> m.vertices == [] && m.indices == []
    ensures meshes != [] ==> |m.vertices| == |meshes[0].vertices| && m.indices == meshes[0].indices
    ensures meshes != [] ==> forall i :: 0 <= i < |m.vertices| ==> m.vertices[i] == meshes[0].vertices[i].position
    ensures (meshes != [] && |meshes[0].indices| % 3 == 0 &&
             (forall k :: 0 <= k < |meshes[0].indices| ==> meshes[0].indices[k] < |meshes[0].vertices|)) ==>
      ValidMesh(m)
  {
    var vertices: seq<Vector3<real>> := [];
    var indices: seq<Uint16> := [];
    if meshes != [] {
      var vs := meshes[0].vertices;
      for i := 0 to |vs|
        invariant |vertices| == i
        invariant forall k :: 0 <= k < i ==> vertices[k] == vs[k].position
      {
        vertices := vertices + [vs[i].position];
      }
      indices := meshes[0].indices;
    }
    m := CollisionMesh(vertices, indices);
  }

  // ----- properties

  /** A mesh with one vertex inside and one outside does not intersect, though it lies partly in the frustum. */
  lemma {:induction false} PartlyInsideIsNoIntersection(a: Vector3<real>, b: Vector3<real>, inside: Vector3<real> -> bool)
    requires inside(a) && !inside(b)
    ensures !Intersect([a, b], inside)
  {
  }

  /** Möller-Trumbore is a distance test, and it misses every triangle whose determinant is too small. */
  lemma {:induction false} TriangleDistanceIsDistanceTest(m: CollisionMesh, ray: Ray, t: nat)
    requires ValidMesh(m) && t < TriangleCount(m)
    ensures IsDistanceTest(TriangleDistance)
    ensures var d := Determinant(ray, m.vertices[m.indices[3 * t]], m.vertices[m.indices[3 * t + 1]], m.vertices[m.indices[3 * t + 2]]);
      d < MAX_PARALLEL_DETERMINANT ==> Hit(m, ray, t, TriangleDistance) == -1.0
  {
  }
}
