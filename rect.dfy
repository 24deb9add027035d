/**
 * Discrete rectangles (include/khepri/math/rect.hpp): a top-left corner with
 * signed coordinates and an unsigned width and height, and the test whether
 * a point with real coordinates lies inside. The right and bottom edges are
 * exclusive.
 */
module Rects {
  /** `Point`: a point with floating-point coordinates, modelled as reals. */
  datatype Point = Point(x: real, y: real)

  /** `Rect`: the top-left corner and the (unsigned) extent. */
  datatype Rect = Rect(x: int, y: int, width: nat, height: nat)

  /**
   * The conversion of a non-negative floating-point value to `unsigned long`:
   * truncation, which for a non-negative value is the floor.
   */
  function Truncate(d: real): (r: nat)
    requires d >= 0.0
    ensures r as real <= d < r as real + 1.0
  {
    d.Floor
  }

  /**
   * `inside`: p lies at or right of and below the corner, and its offsets
   * from the corner, truncated to unsigned integers, are below the width and
   * the height.
   */
  predicate Inside(p: Point, r: Rect)
    ensures Inside(p, r) ==>
      r.x as real <= p.x < (r.x + r.width) as real && r.y as real <= p.y < (r.y + r.height) as real
  {
    p.x >= r.x as real && p.y >= r.y as real &&
    Truncate(p.x - r.x as real) < r.width && Truncate(p.y - r.y as real) < r.height
  }

  // ----- properties

  /** A point is inside exactly when it lies in the half-open box [x, x + width) by [y, y + height). */
  lemma {:induction false} InsideIsHalfOpenBox(p: Point, r: Rect)
    ensures Inside(p, r) <==>
      (r.x as real <= p.x < (r.x + r.width) as real && r.y as real <= p.y < (r.y + r.height) as real)
  {
    if p.x >= r.x as real && p.y >= r.y as real {
      TruncateBelow(p.x - r.x as real, r.width);
      TruncateBelow(p.y - r.y as real, r.height);
    }
  }

  lemma {:induction false} TruncateBelow(d: real, n: nat)
    requires d >= 0.0
    ensures Truncate(d) < n <==> d < n as real
  {
  }

  /** The right and bottom edges are outside. */
  lemma {:induction false} EdgesExclusive(r: Rect, px: real, py: real)
    ensures !Inside(Point((r.x + r.width) as real, py), r)
    ensures !Inside(Point(px, (r.y + r.height) as real), r)
  {
    InsideIsHalfOpenBox(Point((r.x + r.width) as real, py), r);
    InsideIsHalfOpenBox(Point(px, (r.y + r.height) as real), r);
  }

  /** A rectangle with no width or no height contains no point. */
  lemma {:induction false} EmptyContainsNothing(p: Point, r: Rect)
    requires r.width == 0 || r.height == 0
    ensures !Inside(p, r)
  {
  }

  /** The top-left corner is inside whenever the rectangle is not empty. */
  lemma {:induction false} CornerInside(r: Rect)
    requires r.width > 0 && r.height > 0
    ensures Inside(Point(r.x as real, r.y as real), r)
  {
  }
}
