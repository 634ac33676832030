/** Exact real 3-vectors and 3x3 matrices standing in for nalgebra's f64 types.
    The square root is not definable without an axiom, so every operation that
    needs it (norms, normalisation) takes the square-root function as a
    parameter; the lemmas that rely on it require `IsSqrt(sqrt)`. */
module Vectors {

  datatype Vec3 = Vec3(x: real, y: real, z: real)

  /** A 2-vector, used for surface (u, v) coordinates. */
  datatype UV = UV(u: real, v: real)

  const Zero: Vec3 := Vec3(0.0, 0.0, 0.0)

  /** `f64::MAX`, the largest finite double, written out exactly. */
  const MaxF64: real := 179769313486231570814527423731704356798070567525844996598917476803157260780028538760589558632766878171540458953514382464234321326889464182768467546703537516986049910576551282076245490090389328944075868508455133942304583236903222948165808559332123348274797826204144723168738177180919299881250404026184124858368.0

  function Add(a: Vec3, b: Vec3): Vec3 { Vec3(a.x + b.x, a.y + b.y, a.z + b.z) }
  function Sub(a: Vec3, b: Vec3): Vec3 { Vec3(a.x - b.x, a.y - b.y, a.z - b.z) }
  function Neg(a: Vec3): Vec3 { Vec3(-a.x, -a.y, -a.z) }
  function Scale(a: Vec3, k: real): Vec3 { Vec3(k * a.x, k * a.y, k * a.z) }
  /** Componentwise product (nalgebra's `component_mul`). */
  function Mul(a: Vec3, b: Vec3): Vec3 { Vec3(a.x * b.x, a.y * b.y, a.z * b.z) }
  function Dot(a: Vec3, b: Vec3): real { a.x * b.x + a.y * b.y + a.z * b.z }
  function Cross(a: Vec3, b: Vec3): Vec3 {
    Vec3(a.y * b.z - a.z * b.y, a.z * b.x - a.x * b.z, a.x * b.y - a.y * b.x)
  }
  function NormSquared(a: Vec3): real { Dot(a, a) }

  function Min(a: real, b: real): real { if a <= b then a else b }
  function Max(a: real, b: real): real { if a >= b then a else b }
  function Abs(a: real): real { if a < 0.0 then -a else a }

  /** Componentwise minimum and maximum (nalgebra's `simd_min` / `simd_max`). */
  function VMin(a: Vec3, b: Vec3): Vec3 { Vec3(Min(a.x, b.x), Min(a.y, b.y), Min(a.z, b.z)) }
  function VMax(a: Vec3, b: Vec3): Vec3 { Vec3(Max(a.x, b.x), Max(a.y, b.y), Max(a.z, b.z)) }

  /** Componentwise order: a <= b on every axis. */
  predicate Le(a: Vec3, b: Vec3) { a.x <= b.x && a.y <= b.y && a.z <= b.z }

  /** `sqrt` is a square root on the non-negative reals. */
  ghost predicate IsSqrt(sqrt: real -> real) {
    forall t: real {:trigger sqrt(t)} :: 0.0 <= t ==> 0.0 <= sqrt(t) && sqrt(t) * sqrt(t) == t
  }

  function Norm(sqrt: real -> real, a: Vec3): real { sqrt(NormSquared(a)) }

  /** nalgebra's `Unit::new_normalize`: the vector divided by its length. */
  function Normalize(sqrt: real -> real, a: Vec3): Vec3 {
    var n := Norm(sqrt, a);
    if n == 0.0 then Vec3(0.0, 0.0, 0.0) else Scale(a, 1.0 / n)
  }

  predicate IsUnit(a: Vec3) { NormSquared(a) == 1.0 }

  /** A product kept behind a function so that the solver's rewriting of
      squares cannot hide facts stated about it. */
  function Times(a: real, b: real): real { a * b }

  lemma TimesPos(a: real, b: real)
    requires (0.0 < a && 0.0 < b) || (a < 0.0 && b < 0.0)
    ensures 0.0 < Times(a, b)
  {
  }

  lemma SquarePos(t: real)
    requires t != 0.0
    ensures 0.0 < Times(t, t) && Times(t, t) == t * t
  {
    TimesPos(t, t);
  }

  lemma ProductZero(a: real, b: real)
    requires a * b == 0.0
    ensures a == 0.0 || b == 0.0
  {
  }

  lemma NormSquaredNonNeg(a: Vec3)
    ensures 0.0 <= NormSquared(a)
    ensures NormSquared(a) == 0.0 <==> a == Zero
  {
    if a.x != 0.0 { SquarePos(a.x); }
    else if a.y != 0.0 { SquarePos(a.y); }
    else if a.z != 0.0 { SquarePos(a.z); }
  }

  /** A square root of a square is the absolute value. */
  lemma {:induction false} SqrtOfSquare(sqrt: real -> real, k: real)
    requires IsSqrt(sqrt)
    ensures sqrt(k * k) == Abs(k)
  {
    var s := sqrt(k * k);
    assert 0.0 <= s && s * s == k * k;
    var a := Abs(k);
    assert a * a == k * k;
    assert 0.0 <= a;
    assert (s - a) * (s + a) == s * s - a * a;
    ProductZero(s - a, s + a);
  }

  /** The square root of a positive number is positive. */
  lemma SqrtPositive(sqrt: real -> real, t: real)
    requires IsSqrt(sqrt) && 0.0 < t
    ensures 0.0 < sqrt(t)
  {
    assert 0.0 <= sqrt(t) && sqrt(t) * sqrt(t) == t;
  }

  /** Normalising a nonzero vector yields a unit vector pointing the same way. */
  lemma {:induction false} NormalizeUnit(sqrt: real -> real, a: Vec3)
    requires IsSqrt(sqrt) && a != Zero
    ensures IsUnit(Normalize(sqrt, a))
    ensures 0.0 < Norm(sqrt, a)
    ensures Scale(Normalize(sqrt, a), Norm(sqrt, a)) == a
  {
    var n2 := NormSquared(a);
    NormSquaredNonNeg(a);
    var n := sqrt(n2);
    SqrtPositive(sqrt, n2);
    var k := 1.0 / n;
    assert k * n == 1.0;
    var r := Scale(a, k);
    calc {
      NormSquared(r);
      k * k * n2;
      k * k * (n * n);
      (k * n) * (k * n);
      1.0;
    }
    assert Scale(r, n) == a by {
      assert n * (k * a.x) == (n * k) * a.x;
      assert n * (k * a.y) == (n * k) * a.y;
      assert n * (k * a.z) == (n * k) * a.z;
    }
  }

  lemma SqrtZero(sqrt: real -> real, t: real)
    requires IsSqrt(sqrt) && 0.0 <= t
    ensures 0.0 <= sqrt(t)
    ensures sqrt(t) == 0.0 <==> t == 0.0
  {
    var s := sqrt(t);
    assert 0.0 <= s && s * s == t;
    if s != 0.0 {
      SquarePos(s);
    }
  }

  /** The length of a vector is its Euclidean norm: zero exactly for zero. */
  lemma NormZero(sqrt: real -> real, a: Vec3)
    requires IsSqrt(sqrt)
    ensures 0.0 <= Norm(sqrt, a)
    ensures Norm(sqrt, a) == 0.0 <==> a == Zero
  {
    NormSquaredNonNeg(a);
    SqrtZero(sqrt, NormSquared(a));
  }

  /** |k d| = k for k >= 0 and a unit d. */
  lemma {:induction false} NormOfScaledUnit(sqrt: real -> real, d: Vec3, k: real)
    requires IsSqrt(sqrt) && IsUnit(d) && 0.0 <= k
    ensures Norm(sqrt, Scale(d, k)) == k
  {
    var v := Scale(d, k);
    assert NormSquared(v) == k * k * (d.x * d.x + d.y * d.y + d.z * d.z) by {
      assert v.x * v.x == k * k * (d.x * d.x);
      assert v.y * v.y == k * k * (d.y * d.y);
      assert v.z * v.z == k * k * (d.z * d.z);
    }
    assert d.x * d.x + d.y * d.y + d.z * d.z == 1.0;
    assert NormSquared(v) == k * k;
    SqrtOfSquare(sqrt, k);
  }

  // ----- 3x3 matrices (rotations) -----

  /** A 3x3 matrix given by its rows. */
  datatype Mat3 = Mat3(r0: Vec3, r1: Vec3, r2: Vec3)

  const Identity: Mat3 := Mat3(Vec3(1.0, 0.0, 0.0), Vec3(0.0, 1.0, 0.0), Vec3(0.0, 0.0, 1.0))

  function Apply(m: Mat3, v: Vec3): Vec3 { Vec3(Dot(m.r0, v), Dot(m.r1, v), Dot(m.r2, v)) }

  function Col(m: Mat3, j: nat): Vec3
    requires j < 3
  {
    if j == 0 then Vec3(m.r0.x, m.r1.x, m.r2.x)
    else if j == 1 then Vec3(m.r0.y, m.r1.y, m.r2.y)
    else Vec3(m.r0.z, m.r1.z, m.r2.z)
  }

  function MatMul(a: Mat3, b: Mat3): Mat3 {
    Mat3(Vec3(Dot(a.r0, Col(b, 0)), Dot(a.r0, Col(b, 1)), Dot(a.r0, Col(b, 2))),
         Vec3(Dot(a.r1, Col(b, 0)), Dot(a.r1, Col(b, 1)), Dot(a.r1, Col(b, 2))),
         Vec3(Dot(a.r2, Col(b, 0)), Dot(a.r2, Col(b, 1)), Dot(a.r2, Col(b, 2))))
  }

  /** Applying a product is applying its factors in turn. */
  lemma ApplyMatMul(a: Mat3, b: Mat3, v: Vec3)
    ensures Apply(MatMul(a, b), v) == Apply(a, Apply(b, v))
  {
  }

  /** If b undoes a (b·a = I) then applying a and then b gives back the vector. */
  lemma ApplyInverse(a: Mat3, b: Mat3, v: Vec3)
    requires MatMul(b, a) == Identity
    ensures Apply(b, Apply(a, v)) == v
  {
    ApplyMatMul(b, a, v);
  }

  lemma ApplyLinear(m: Mat3, a: Vec3, b: Vec3, k: real)
    ensures Apply(m, Add(a, b)) == Add(Apply(m, a), Apply(m, b))
    ensures Apply(m, Scale(a, k)) == Scale(Apply(m, a), k)
  {
  }
}
