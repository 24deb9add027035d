/**
 * Polynomials (include/khepri/math/polynomial.hpp): a polynomial of degree
 * n has n + 1 coefficients c0 .. cn and denotes c0 + c1 x + ... + cn x^n.
 * Coefficients are modelled as reals.
 */
module Polynomials {
  /** A polynomial, as its coefficients from c0 up; the degree is one less than the count. */
  type Polynomial = c: seq<real> | |c| >= 1 witness [0.0]

  /** x to the power k. */
  function Pow(x: real, k: nat): real
  {
    if k == 0 then 1.0 else x * Pow(x, k - 1)
  }

  /** The sum of c[k] x^k over k < n. */
  function PartialSum(c: seq<real>, x: real, n: nat): real
    requires n <= |c|
  {
    if n == 0 then 0.0 else PartialSum(c, x, n - 1) + c[n - 1] * Pow(x, n - 1)
  }

  /** The value the polynomial with coefficients c denotes at x: the sum of c[k] x^k over all k. */
  function Value(c: seq<real>, x: real): real
  {
    PartialSum(c, x, |c|)
  }

  /** Horner's nesting from coefficient i on: c[i] + x (c[i+1] + x (...)). */
  function Horner(c: seq<real>, x: real, i: nat): real
    decreases |c| - i
  {
    if i >= |c| then 0.0 else c[i] + x * Horner(c, x, i + 1)
  }

  /**
   * `sample`: starts from the leading coefficient and folds in the lower
   * ones by Horner's rule; the result is the polynomial's value at x.
   */
  method Sample(p: Polynomial, x: real) returns (y: real)
    ensures y == Value(p, x)
  {
    var degree := |p| - 1;
    y := p[degree];
    var i := degree;
    while i >= 1
      invariant 0 <= i <= degree
      invariant y == Horner(p, x, i)
    {
      y := p[i - 1] + x * y;
      i := i - 1;
    }
    HornerIsValue(p, x);
  }

  /**
   * `derivative`: for degree 0 the zero constant, otherwise the polynomial
   * one degree lower whose coefficient i - 1 is i times coefficient i.
   */
  method Derivative(p: Polynomial) returns (d: Polynomial)
    ensures d == Derived(p)
  {
    if |p| == 1 {
      return [0.0];
    }
    var degree := |p| - 1;
    var q := seq(degree, _ => 0.0);
    for i := 1 to degree + 1
      invariant |q| == degree
      invariant forall k :: 0 <= k < i - 1 ==> q[k] == (k + 1) as real * p[k + 1]
    {
      q := q[i - 1 := i as real * p[i]];
    }
    d := q;
  }

  /** The derivative's coefficients: coefficient i - 1 is i times coefficient i; a constant's derivative is zero. */
  function Derived(p: Polynomial): (d: Polynomial)
    ensures |p| == 1 ==> d == [0.0]
    ensures |p| > 1 ==> |d| == |p| - 1 && forall i :: 1 <= i < |p| ==> d[i - 1] == i as real * p[i]
  {
    if |p| == 1 then [0.0] else seq(|p| - 1, k requires 0 <= k < |p| - 1 => (k + 1) as real * p[k + 1])
  }

  /** The derivative taken k times. */
  function DerivedTimes(p: Polynomial, k: nat): Polynomial
    decreases k
  {
    if k == 0 then p else DerivedTimes(Derived(p), k - 1)
  }

  // ----- properties

  /** The terms c[k] x^k for k from i on, summed. */
  function Tail(c: seq<real>, x: real, i: nat): real
    decreases |c| - i
  {
    if i >= |c| then 0.0 else c[i] * Pow(x, i) + Tail(c, x, i + 1)
  }

  /** The terms from i on complete the partial sum below i to the whole value. */
  lemma {:induction false} TailSum(c: seq<real>, x: real, i: nat)
    requires i <= |c|
    ensures Tail(c, x, i) + PartialSum(c, x, i) == Value(c, x)
    decreases |c| - i
  {
    if i < |c| {
      TailSum(c, x, i + 1);
    }
  }

  /** Horner's nesting from i on, scaled by p = x^i, is the sum of the terms from i on. */
  lemma {:induction false} HornerTail(c: seq<real>, x: real, i: nat, p: real)
    requires i <= |c| && p == Pow(x, i)
    ensures Horner(c, x, i) * p == Tail(c, x, i)
    decreases |c| - i
  {
    if i < |c| {
      HornerTail(c, x, i + 1, x * p);
    }
  }

  /** Horner's rule computes the polynomial's value. */
  lemma {:induction false} HornerIsValue(c: seq<real>, x: real)
    ensures Horner(c, x, 0) == Value(c, x)
  {
    HornerTail(c, x, 0, 1.0);
    TailSum(c, x, 0);
  }

  /** A degree-0 polynomial is the constant c0 whatever x is. */
  lemma {:induction false} ConstantSample(p: Polynomial, x: real)
    requires |p| == 1
    ensures Value(p, x) == p[0]
  {
    assert Pow(x, 0) == 1.0;
    assert Value(p, x) == PartialSum(p, x, 0) + p[0] * Pow(x, 0);
  }

  /** Each derivation lowers the degree by one, down to the zero constant. */
  lemma {:induction false} DerivedDegree(p: Polynomial, k: nat)
    ensures k < |p| ==> |DerivedTimes(p, k)| == |p| - k
    ensures k >= |p| ==> DerivedTimes(p, k) == [0.0]
    decreases k
  {
    if k > 0 {
      DerivedDegree(Derived(p), k - 1);
      if |p| == 1 {
        ZeroStaysZero(k - 1);
      }
    }
  }

  /** The zero constant derives to itself. */
  lemma {:induction false} ZeroStaysZero(k: nat)
    ensures DerivedTimes([0.0], k) == [0.0]
  {
    if k > 0 {
      ZeroStaysZero(k - 1);
    }
  }

  /** The cubic 1 + 2x + 3x^2 + 4x^3 samples 1, 10 and 4321 at 0, 1 and 10, and its fourth derivative is zero. */
  lemma {:induction false} CubicExample()
    ensures Value([1.0, 2.0, 3.0, 4.0], 0.0) == 1.0
    ensures Value([1.0, 2.0, 3.0, 4.0], 1.0) == 10.0
    ensures Value([1.0, 2.0, 3.0, 4.0], 10.0) == 4321.0
    ensures Derived([1.0, 2.0, 3.0, 4.0]) == [2.0, 6.0, 12.0]
    ensures DerivedTimes([1.0, 2.0, 3.0, 4.0], 4) == [0.0]
  {
    var c: seq<real> := [1.0, 2.0, 3.0, 4.0];
    HornerIsValue(c, 0.0);
    HornerIsValue(c, 1.0);
    HornerIsValue(c, 10.0);
    DerivedDegree(c, 4);
  }
}
