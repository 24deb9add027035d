/**
 * Scalar helpers (include/khepri/math/math.hpp): clamping a value into a
 * range, clamping into [0, 1], and converting between degrees and radians.
 * The source restricts them to floating-point types; they are modelled over
 * the reals.
 */
module MathUtil {
  /** The value of pi the conversions use. */
  const PI: real := 3.1415926535897932384626433832795

  /** `clamp`: min when val is at or below min, else max when val is at or above max, else val. */
  function Clamp(val: real, min: real, max: real): (r: real)
    ensures val <= min ==> r == min
    ensures min < val && max <= val ==> r == max
    ensures min < val < max ==> r == val
  {
    if val <= min then min else if val >= max then max else val
  }

  /** `saturate`: the value clamped into [0, 1]. */
  function Saturate(val: real): (r: real)
    ensures 0.0 <= r <= 1.0
    ensures 0.0 <= val <= 1.0 ==> r == val
    ensures val < 0.0 ==> r == 0.0
    ensures 1.0 < val ==> r == 1.0
  {
    ClampInRange(val, 0.0, 1.0);
    Clamp(val, 0.0, 1.0)
  }

  /** `to_radians`: degrees divided by 180, times pi. */
  function ToRadians(degrees: real): (r: real)
    ensures degrees == 180.0 ==> r == PI
  {
    degrees / 180.0 * PI
  }

  /** `to_degrees`: radians divided by pi, times 180. */
  function ToDegrees(radians: real): (r: real)
    ensures radians == PI ==> r == 180.0
  {
    radians / PI * 180.0
  }

  // ----- properties

  /** With min <= max the result lies in [min, max], and a value already inside is returned as is. */
  lemma {:induction false} ClampInRange(val: real, min: real, max: real)
    requires min <= max
    ensures min <= Clamp(val, min, max) <= max
    ensures min <= val <= max ==> Clamp(val, min, max) == val
  {
  }

  /** Clamping twice into the same range is clamping once. */
  lemma {:induction false} ClampIdempotent(val: real, min: real, max: real)
    requires min <= max
    ensures Clamp(Clamp(val, min, max), min, max) == Clamp(val, min, max)
  {
    ClampInRange(val, min, max);
    ClampInRange(Clamp(val, min, max), min, max);
  }

  /** Clamping is monotone in the value. */
  lemma {:induction false} ClampMonotone(a: real, b: real, min: real, max: real)
    requires min <= max && a <= b
    ensures Clamp(a, min, max) <= Clamp(b, min, max)
  {
  }

  /** Degrees to radians and back gives the original angle. */
  lemma {:induction false} DegreesRoundTrip(d: real)
    ensures ToDegrees(ToRadians(d)) == d
  {
  }

  /** Radians to degrees and back gives the original angle. */
  lemma {:induction false} RadiansRoundTrip(r: real)
    ensures ToRadians(ToDegrees(r)) == r
  {
  }
}
