/**
 * Interpolators (src/math/interpolator.cpp, include/khepri/math/interpolator.hpp):
 * control points sorted on strictly increasing x, an input clamped into
 * their x range, the control point at or left of the input found by an
 * upper-bound search, and either its y (step) or the straight line to the
 * next point (linear). Doubles are modelled as reals.
 */
module Interpolators {
  import opened Errors
  import opened Rects
  import opened MathUtil

  /** Every point's x is below the next point's x. */
  predicate AdjacentIncreasing(ps: seq<Point>)
  {
    forall i :: 1 <= i < |ps| ==> ps[i - 1].x < ps[i].x
  }

  /** The x values strictly increase. */
  predicate Increasing(ps: seq<Point>)
  {
    forall i, j :: 0 <= i < j < |ps| ==> ps[i].x < ps[j].x
  }

  /** The points an interpolator keeps: at least one, on strictly increasing x. */
  type ControlPoints = ps: seq<Point> | |ps| > 0 && Increasing(ps) witness [Point(0.0, 0.0)]

  /**
   * `check_sorted`: an argument error for no points or for a point whose x
   * is not above its predecessor's; otherwise the points, which are then
   * strictly increasing throughout.
   */
  method CheckSorted(points: seq<Point>) returns (r: Result<ControlPoints>)
    ensures r.Ok? <==> |points| > 0 && AdjacentIncreasing(points)
    ensures r.Ok? ==> r.value == points
    ensures r.Err? ==> r.error == ArgumentError
  {
    if |points| == 0 {
      return Err(ArgumentError);
    }
    for i := 1 to |points|
      invariant forall a, b :: 0 <= a < b < i ==> points[a].x < points[b].x
      invariant forall k :: 1 <= k < i ==> points[k - 1].x < points[k].x
    {
      if points[i].x <= points[i - 1].x {
        return Err(ArgumentError);
      }
    }
    return Ok(points);
  }

  /** `is_near`: closer than 10^-8. */
  predicate IsNear(v1: real, v2: real)
  {
    -0.00000001 < v1 - v2 < 0.00000001
  }

  /** Point i brackets x: x is at or right of it and left of the next point, if any. */
  predicate Brackets(ps: seq<Point>, i: nat, x: real)
    requires i < |ps|
  {
    ps[i].x <= x && (i + 1 == |ps| || x < ps[i + 1].x)
  }

  /**
   * `std::upper_bound` on x: the first index whose point lies right of x,
   * or the count when there is none.
   */
  method UpperBound(ps: ControlPoints, x: real) returns (it: nat)
    ensures it <= |ps|
    ensures forall k :: 0 <= k < it ==> ps[k].x <= x
    ensures forall k :: it <= k < |ps| ==> x < ps[k].x
  {
    var lo, hi := 0, |ps|;
    while lo < hi
      invariant 0 <= lo <= hi <= |ps|
      invariant forall k :: 0 <= k < lo ==> ps[k].x <= x
      invariant forall k :: hi <= k < |ps| ==> x < ps[k].x
      decreases hi - lo
    {
      var mid := lo + (hi - lo) / 2;
      if x < ps[mid].x {
        hi := mid;
      } else {
        lo := mid + 1;
      }
    }
    it := lo;
  }

  /**
   * `find_index`: the point that brackets x when x is at or right of the
   * first point; the first point when x lies left of it.
   */
  method FindIndex(ps: ControlPoints, x: real) returns (index: nat)
    ensures index < |ps|
    ensures ps[0].x <= x ==> Brackets(ps, index, x)
    ensures x < ps[0].x ==> index == 0
  {
    var it := UpperBound(ps, x);
    if it == 0 {
      it := 1;
    }
    index := it - 1;
  }

  /** The input clamped into the x range of the points. */
  function ClampToRange(ps: ControlPoints, x: real): (r: real)
    ensures ps[0].x <= r <= ps[|ps| - 1].x
    ensures ps[0].x <= x <= ps[|ps| - 1].x ==> r == x
    ensures x <= ps[0].x ==> r == ps[0].x
    ensures ps[|ps| - 1].x <= x ==> r == ps[|ps| - 1].x
  {
    assert |ps| > 1 ==> ps[0].x < ps[|ps| - 1].x;
    Clamp(x, ps[0].x, ps[|ps| - 1].x)
  }

  /** The straight line through a and b, at x. */
  function Lerp(a: Point, b: Point, x: real): (y: real)
    requires a.x < b.x
    ensures x == a.x ==> y == a.y
    ensures x == b.x ==> y == b.y
  {
    a.y + (b.y - a.y) * ((x - a.x) / (b.x - a.x))
  }

  /** `StepInterpolator`. */
  datatype StepInterpolator = StepInterpolator(points: ControlPoints)
  {
    /**
     * `interpolate`: the y of the point that brackets the clamped input;
     * so the first y left of the range and the last y right of it.
     */
    method Interpolate(x: real) returns (y: real)
      ensures forall i :: 0 <= i < |points| && Brackets(points, i, ClampToRange(points, x)) ==> y == points[i].y
      ensures x <= points[0].x ==> y == points[0].y
      ensures points[|points| - 1].x <= x ==> y == points[|points| - 1].y
    {
      var cx := ClampToRange(points, x);
      var index := FindIndex(points, cx);
      BracketUnique(points, cx, index);
      y := points[index].y;
    }
  }

  /** The `StepInterpolator` constructor: `check_sorted`, then the points are kept. */
  method NewStepInterpolator(points: seq<Point>) returns (r: Result<StepInterpolator>)
    ensures r.Ok? <==> |points| > 0 && AdjacentIncreasing(points)
    ensures r.Ok? ==> r.value.points == points
    ensures r.Err? ==> r.error == ArgumentError
  {
    var checked := CheckSorted(points);
    r := if checked.Ok? then Ok(StepInterpolator(checked.value)) else Err(checked.error);
  }

  /** `LinearInterpolator`. */
  datatype LinearInterpolator = LinearInterpolator(points: ControlPoints)
  {
    /**
     * `interpolate`: with the bracketing point i of the clamped input, its y
     * when i is the last point or the input is within 10^-8 of it,
     * otherwise the straight line from point i to point i + 1. The result
     * lies between the two y values, is the control point's y at each
     * control point, and is the first or last y outside the range.
     */
    method Interpolate(x: real) returns (y: real)
      ensures forall i :: 0 <= i < |points| && Brackets(points, i, ClampToRange(points, x)) ==>
        (if i + 1 == |points| || IsNear(ClampToRange(points, x) - points[i].x, 0.0) then y == points[i].y
         else (y == Lerp(points[i], points[i + 1], ClampToRange(points, x)) &&
               Between(y, points[i].y, points[i + 1].y)))
      ensures forall k :: 0 <= k < |points| && x == points[k].x ==> y == points[k].y
      ensures x <= points[0].x ==> y == points[0].y
      ensures points[|points| - 1].x <= x ==> y == points[|points| - 1].y
    {
      var cx := ClampToRange(points, x);
      var index := FindIndex(points, cx);
      BracketUnique(points, cx, index);
      var dx0 := cx - points[index].x;
      if index == |points| - 1 || IsNear(dx0, 0.0) {
        y := points[index].y;
      } else {
        var dx := points[index + 1].x - points[index].x;
        var dy := points[index + 1].y - points[index].y;
        y := points[index].y + dy * (dx0 / dx);
        LerpBetween(points[index], points[index + 1], cx);
      }
      forall k | 0 <= k < |points| && x == points[k].x
        ensures y == points[k].y
      {
        assert Brackets(points, k, cx);
      }
    }
  }

  /** The `LinearInterpolator` constructor: `check_sorted`, then the points are kept. */
  method NewLinearInterpolator(points: seq<Point>) returns (r: Result<LinearInterpolator>)
    ensures r.Ok? <==> |points| > 0 && AdjacentIncreasing(points)
    ensures r.Ok? ==> r.value.points == points
    ensures r.Err? ==> r.error == ArgumentError
  {
    var checked := CheckSorted(points);
    r := if checked.Ok? then Ok(LinearInterpolator(checked.value)) else Err(checked.error);
  }

  /** v lies between a and b, whichever is larger. */
  predicate Between(v: real, a: real, b: real)
  {
    (a <= v <= b) || (b <= v <= a)
  }

  // ----- properties

  /** The adjacent check `check_sorted` makes is exactly strict increase throughout. */
  lemma {:induction false} AdjacentIffIncreasing(ps: seq<Point>)
    ensures AdjacentIncreasing(ps) <==> Increasing(ps)
  {
    if AdjacentIncreasing(ps) {
      forall i, j | 0 <= i < j < |ps|
        ensures ps[i].x < ps[j].x
      {
        AdjacentChain(ps, i, j);
      }
    }
  }

  lemma {:induction false} AdjacentChain(ps: seq<Point>, i: nat, j: nat)
    requires AdjacentIncreasing(ps) && i < j < |ps|
    ensures ps[i].x < ps[j].x
    decreases j - i
  {
    if j > i + 1 {
      AdjacentChain(ps, i, j - 1);
    }
  }

  /** At most one point brackets a given x. */
  lemma {:induction false} BracketUnique(ps: ControlPoints, x: real, i: nat)
    requires i < |ps| && Brackets(ps, i, x)
    ensures forall j :: 0 <= j < |ps| && Brackets(ps, j, x) ==> j == i
  {
    forall j | 0 <= j < |ps| && Brackets(ps, j, x)
      ensures j == i
    {
    }
  }

  /** The line passes through both points and stays between their y values in between. */
  lemma {:induction false} LerpBetween(a: Point, b: Point, x: real)
    requires a.x < b.x
    ensures Lerp(a, b, a.x) == a.y && Lerp(a, b, b.x) == b.y
    ensures a.x <= x <= b.x ==> Between(Lerp(a, b, x), a.y, b.y)
  {
    var w := b.x - a.x;
    assert w / w == 1.0;
    if a.x <= x <= b.x {
      var t := (x - a.x) / w;
      assert 0.0 <= t <= 1.0 by {
        assert t * w == x - a.x;
      }
      ScaleBetween(b.y - a.y, t);
    }
  }

  /** A fraction t in [0, 1] of d lies between 0 and d. */
  lemma {:induction false} ScaleBetween(d: real, t: real)
    requires 0.0 <= t <= 1.0
    ensures Between(d * t, 0.0, d)
  {
    if d >= 0.0 {
      assert d * t <= d * 1.0;
    } else {
      assert d * 1.0 <= d * t;
    }
  }

  /** A single point gives a constant: both interpolators return its y for every input. */
  lemma {:induction false} SinglePointConstant(ps: ControlPoints, x: real)
    requires |ps| == 1
    ensures ClampToRange(ps, x) == ps[0].x && Brackets(ps, 0, ClampToRange(ps, x))
  {
  }
}
