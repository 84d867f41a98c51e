/**
 * Exact real-valued stand-in for the engine's `Vector3` arithmetic:
 * sums, scaling, lengths and normalisation.
 */
module Vectors {

  datatype Vec3 = Vec3(x: real, y: real, z: real)

  const Zero := Vec3(0.0, 0.0, 0.0)
  const Up := Vec3(0.0, 1.0, 0.0)

  function Add(a: Vec3, b: Vec3): Vec3 {
    Vec3(a.x + b.x, a.y + b.y, a.z + b.z)
  }

  function Scale(v: Vec3, k: real): Vec3 {
    Vec3(v.x * k, v.y * k, v.z * k)
  }

  function Id(a: real): real { a }

  /**
   * The square of `a`. The second factor goes through `Id` so that the
   * solver sees a product of two terms rather than a power, which its
   * arithmetic decides more reliably.
   */
  function Sq(a: real): real { a * Id(a) }

  function SqrMagnitude(v: Vec3): real {
    Sq(v.x) + Sq(v.y) + Sq(v.z)
  }

  /** The horizontal part of `v`: its y component replaced by 0. */
  function Flat(v: Vec3): Vec3 {
    Vec3(v.x, 0.0, v.z)
  }

  /** The squared horizontal speed, x*x + z*z. */
  function SqrFlatSpeed(v: Vec3): real {
    Sq(v.x) + Sq(v.z)
  }

  lemma MulPositive(a: real, b: real)
    requires a > 0.0 && b > 0.0
    ensures a * b > 0.0
  {}

  lemma CancelPositive(a: real, b: real, m: real)
    requires m > 0.0 && a * m == b * m
    ensures a == b
  {
    if a < b {
      MulPositive(b - a, m);
    } else if b < a {
      MulPositive(a - b, m);
    }
  }

  lemma SignThroughPositive(a: real, m: real)
    requires m > 0.0 && a * m >= 0.0
    ensures a >= 0.0
  {
    if a < 0.0 {
      MulPositive(-a, m);
    }
  }

  lemma SqNonNegative(a: real)
    ensures Sq(a) >= 0.0
    ensures Sq(a) == 0.0 <==> a == 0.0
  {}

  lemma SqStrictlyMonotone(k: real, m: real)
    requires 0.0 <= k < m
    ensures Sq(k) < Sq(m)
  {
    MulPositive(m - k, m + k);
    assert Sq(m) - Sq(k) == (m - k) * (m + k);
  }

  /** A non-negative length exceeds a non-negative bound exactly when its square exceeds the bound's square. */
  lemma SqExceeds(m: real, k: real)
    requires m >= 0.0 && k >= 0.0
    ensures m > k <==> Sq(m) > Sq(k)
  {
    if m > k {
      SqStrictlyMonotone(k, m);
    } else if m < k {
      SqStrictlyMonotone(m, k);
    }
  }

  lemma SqrMagnitudeNonNegative(v: Vec3)
    ensures SqrMagnitude(v) >= 0.0
    ensures SqrMagnitude(v) == 0.0 <==> v == Zero
  {
    SqNonNegative(v.x);
    SqNonNegative(v.y);
    SqNonNegative(v.z);
  }

  lemma ScaleCommutes(v: Vec3, a: real, b: real)
    ensures Scale(Scale(v, a), b) == Scale(Scale(v, b), a)
    ensures Scale(Scale(v, a), b) == Scale(v, a * b)
  {
    ScaleTwice(v, a, b);
    ScaleTwice(v, b, a);
    assert a * b == b * a;
  }

  lemma ScaleTwice(v: Vec3, a: real, b: real)
    ensures Scale(Scale(v, a), b) == Scale(v, a * b)
  {
    assert (v.x * a) * b == v.x * (a * b);
    assert (v.y * a) * b == v.y * (a * b);
    assert (v.z * a) * b == v.z * (a * b);
  }

  lemma ScaleZero(k: real)
    ensures Scale(Zero, k) == Zero
  {}

  lemma SqrMagnitudeScale(v: Vec3, k: real)
    ensures SqrMagnitude(Scale(v, k)) == SqrMagnitude(v) * Sq(k)
  {}

  /**
   * The engine's square root, taken exactly: the model is parameterised by
   * a function `root` that returns the non-negative square root of every
   * non-negative real.
   */
  ghost predicate IsSqrt(root: real -> real) {
    forall s: real :: s >= 0.0 ==> root(s) >= 0.0 && Sq(root(s)) == s
  }

  /** `Vector3.magnitude`: the length of `v`. */
  function Magnitude(root: real -> real, v: Vec3): real {
    root(SqrMagnitude(v))
  }

  /** The length is the non-negative root of the squared length, and is 0 only for the zero vector. */
  lemma MagnitudeFacts(root: real -> real, v: Vec3)
    requires IsSqrt(root)
    ensures Magnitude(root, v) >= 0.0 && Sq(Magnitude(root, v)) == SqrMagnitude(v)
    ensures Magnitude(root, v) == 0.0 <==> v == Zero
  {
    SqrMagnitudeNonNegative(v);
    SqNonNegative(root(SqrMagnitude(v)));
  }

  /**
   * `Vector3.normalized`, taken exactly: the unit vector along `v`, and
   * the zero vector for a zero `v`.
   */
  function Normalized(root: real -> real, v: Vec3): Vec3 {
    var m := Magnitude(root, v);
    if m == 0.0 then Zero else Scale(v, 1.0 / m)
  }

  /** Dividing by a positive length and multiplying back is the identity. */
  lemma DivideThenScale(v: Vec3, m: real)
    requires m > 0.0
    ensures Scale(Scale(v, 1.0 / m), m) == v
  {
    assert (1.0 / m) * m == 1.0;
    ScaleCommutes(v, 1.0 / m, m);
  }

  /** Dividing a vector by its length gives a vector of length 1. */
  lemma DivideByLength(v: Vec3, m: real)
    requires m > 0.0 && Sq(m) == SqrMagnitude(v)
    ensures SqrMagnitude(Scale(v, 1.0 / m)) == 1.0
  {
    SqrMagnitudeScale(v, 1.0 / m);
    var k := 1.0 / m;
    assert k * m == 1.0;
    assert Sq(k) * Sq(m) == (k * m) * (k * m);
  }

  /** The normalised vector is zero exactly for a zero `v`, has length 1 otherwise, and times |v| gives `v` back. */
  lemma NormalizedFacts(root: real -> real, v: Vec3)
    requires IsSqrt(root)
    ensures v == Zero <==> Normalized(root, v) == Zero
    ensures v != Zero ==> SqrMagnitude(Normalized(root, v)) == 1.0
    ensures Scale(Normalized(root, v), Magnitude(root, v)) == v
  {
    var m := Magnitude(root, v);
    MagnitudeFacts(root, v);
    if m != 0.0 {
      DivideByLength(v, m);
      DivideThenScale(v, m);
    }
  }
}
