/** Parallelograms (geom/quad.rs): a corner q and edges u, v. The cached
    values are the unit normal, the plane offset d = q . normal, and
    w = n / (n . n) with n = u x v, which recovers the surface coordinates. */
module Quads {
  import opened Vectors
  import I = Intervals
  import opened Rays
  import B = Boxes
  import opened Hits
  import opened Options

  datatype Quad = Quad(q: Vec3, u: Vec3, v: Vec3, normal: Vec3, d: real, w: Vec3, bbox: B.AABB, material: MaterialRef)

  /** Below this |normal . dir| the ray counts as parallel to the quad. */
  const ParallelTolerance: real := 0.00000001

  /** The four corners. */
  function Corners(q: Vec3, u: Vec3, v: Vec3): seq<Vec3> {
    [q, Add(q, u), Add(q, v), Add(Add(q, u), v)]
  }

  /** `Quad::new`. A degenerate quad (u x v = 0) would divide by zero when
      computing `w`, so the model requires a proper parallelogram. */
  function NewQuad(sqrt: real -> real, q: Vec3, u: Vec3, v: Vec3, material: MaterialRef): (r: Quad)
    requires Cross(u, v) != Zero
    ensures r.q == q && r.u == u && r.v == v && r.material == material
    ensures r.normal == Normalize(sqrt, Cross(u, v))
    ensures r.d == Dot(q, r.normal)
    ensures Dot(r.w, Cross(u, v)) == 1.0
    ensures forall k :: 0 <= k < 4 ==> B.ContainsPoint(r.bbox, Corners(q, u, v)[k])
    ensures B.WellFormed(r.bbox)
  {
    var bb1 := B.FromPoints(q, Add(Add(q, u), v));
    var bb2 := B.FromPoints(Add(q, u), Add(q, v));
    var bbox := B.Union(bb1, bb2);
    var n := Cross(u, v);
    var normal := Normalize(sqrt, n);
    var d := Dot(q, normal);
    NormSquaredNonNeg(n);
    var w := Vectors.Scale(n, 1.0 / Dot(n, n));
    BboxCorners(q, u, v, bb1, bb2, bbox);
    WeightInverts(n);
    Quad(q, u, v, normal, d, w, bbox, material)
  }

  lemma BboxCorners(q: Vec3, u: Vec3, v: Vec3, bb1: B.AABB, bb2: B.AABB, bbox: B.AABB)
    requires bb1 == B.FromPoints(q, Add(Add(q, u), v)) && bb2 == B.FromPoints(Add(q, u), Add(q, v))
    requires bbox == B.Union(bb1, bb2)
    ensures forall k :: 0 <= k < 4 ==> B.ContainsPoint(bbox, Corners(q, u, v)[k])
  {
    B.CoversBoxPoint(bbox, bb1, q);
    B.CoversBoxPoint(bbox, bb1, Add(Add(q, u), v));
    B.CoversBoxPoint(bbox, bb2, Add(q, u));
    B.CoversBoxPoint(bbox, bb2, Add(q, v));
  }

  lemma WeightInverts(n: Vec3)
    requires Dot(n, n) != 0.0
    ensures Dot(Vectors.Scale(n, 1.0 / Dot(n, n)), n) == 1.0
  {
    var k := 1.0 / Dot(n, n);
    assert Dot(Vectors.Scale(n, k), n) == k * Dot(n, n);
  }

  /** The surface coordinates of a point p, as `intersect` computes them. */
  function SurfaceUV(qd: Quad, p: Vec3): UV {
    var planar := Sub(p, qd.q);
    UV(Dot(qd.w, Cross(planar, qd.v)), 1.0 - Dot(qd.w, Cross(qd.u, planar)))
  }

  /** The distance at which the ray meets the quad's plane. */
  function PlaneDist(qd: Quad, ray: Ray): real
    requires Dot(qd.normal, ray.dir) != 0.0
  {
    (qd.d - Dot(qd.normal, ray.origin)) / Dot(qd.normal, ray.dir)
  }

  /** `Quad::intersect`. */
  function Intersect(qd: Quad, ray: Ray, i: I.Interval): (r: Option<Intersection>)
    ensures Abs(Dot(qd.normal, ray.dir)) < ParallelTolerance ==> r.None?
    ensures r.Some? <==>
      ParallelTolerance <= Abs(Dot(qd.normal, ray.dir)) &&
      I.Contains(i, PlaneDist(qd, ray)) &&
      I.Contains(I.Unit, SurfaceUV(qd, At(ray, PlaneDist(qd, ray))).u) &&
      I.Contains(I.Unit, SurfaceUV(qd, At(ray, PlaneDist(qd, ray))).v)
    ensures r.Some? ==>
      r.value.dist == PlaneDist(qd, ray) && I.Contains(i, r.value.dist) &&
      r.value.point == At(ray, r.value.dist) &&
      r.value.normal == qd.normal && r.value.material == qd.material &&
      r.value.uv == SurfaceUV(qd, r.value.point) &&
      0.0 <= r.value.uv.u <= 1.0 && 0.0 <= r.value.uv.v <= 1.0
  {
    var denom := Dot(qd.normal, ray.dir);
    if Abs(denom) < ParallelTolerance then None
    else
      var t := (qd.d - Dot(qd.normal, ray.origin)) / denom;
      if !I.Contains(i, t) then None
      else
        var p := At(ray, t);
        var planar := Sub(p, qd.q);
        var u := Dot(qd.w, Cross(planar, qd.v));
        var v := 1.0 - Dot(qd.w, Cross(qd.u, planar));
        if !(I.Contains(I.Unit, u) && I.Contains(I.Unit, v)) then None
        else Some(Intersection(At(ray, t), t, qd.normal, qd.material, UV(u, v)))
  }

  /** `Quad::bbox`: the cached box. */
  function Bbox(qd: Quad): B.AABB {
    qd.bbox
  }

  /** The box a built quad reports holds its four corners. */
  lemma BboxHoldsCorners(sqrt: real -> real, q: Vec3, u: Vec3, v: Vec3, material: MaterialRef)
    requires Cross(u, v) != Zero
    ensures var qd := NewQuad(sqrt, q, u, v, material);
            B.WellFormed(Bbox(qd)) && forall k :: 0 <= k < 4 ==> B.ContainsPoint(Bbox(qd), Corners(q, u, v)[k])
  {
  }

  /** A point of the plane of a hit: normal . p = d. */
  lemma {:induction false} HitOnPlane(qd: Quad, ray: Ray, i: I.Interval)
    requires Intersect(qd, ray, i).Some?
    ensures Dot(qd.normal, Intersect(qd, ray, i).value.point) == qd.d
  {
    var t := Intersect(qd, ray, i).value.dist;
    var denom := Dot(qd.normal, ray.dir);
    var num := qd.d - Dot(qd.normal, ray.origin);
    QuotientTimes(num, denom);
    DotAlong(qd.normal, ray, t);
  }

  lemma QuotientTimes(num: real, denom: real)
    requires denom != 0.0
    ensures num / denom * denom == num
  {
  }

  /** One component of a cross product with one factor scaled by k. */
  lemma ScaledChannel(s1: real, s2: real, a1: real, a2: real, c1: real, c2: real, k: real, n: real)
    requires s1 == k * a1 && s2 == k * a2 && n == a1 * c2 - a2 * c1
    ensures s1 * c2 - s2 * c1 == k * n
  {
  }

  lemma CrossScaleLeft(a: Vec3, c: Vec3, k: real)
    ensures Cross(Vectors.Scale(a, k), c) == Vectors.Scale(Cross(a, c), k)
  {
    var s := Vectors.Scale(a, k);
    var n := Cross(a, c);
    ScaledChannel(s.y, s.z, a.y, a.z, c.y, c.z, k, n.x);
    ScaledChannel(s.z, s.x, a.z, a.x, c.z, c.x, k, n.y);
    ScaledChannel(s.x, s.y, a.x, a.y, c.x, c.y, k, n.z);
  }

  lemma CrossScaleRight(a: Vec3, c: Vec3, k: real)
    ensures Cross(c, Vectors.Scale(a, k)) == Vectors.Scale(Cross(c, a), k)
  {
    var s := Vectors.Scale(a, k);
    var n := Cross(c, a);
    ScaledChannel(s.z, s.y, a.z, a.y, c.z, c.y, k, n.x);
    ScaledChannel(s.x, s.z, a.x, a.z, c.x, c.z, k, n.y);
    ScaledChannel(s.y, s.x, a.y, a.x, c.y, c.x, k, n.z);
  }

  lemma CrossAddLeft(a: Vec3, b: Vec3, c: Vec3)
    ensures Cross(Add(a, b), c) == Add(Cross(a, c), Cross(b, c))
  {
  }

  lemma CrossAddRight(a: Vec3, b: Vec3, c: Vec3)
    ensures Cross(c, Add(a, b)) == Add(Cross(c, a), Cross(c, b))
  {
  }

  lemma DotScale(w: Vec3, a: Vec3, k: real)
    ensures Dot(w, Vectors.Scale(a, k)) == k * Dot(w, a)
  {
  }

  lemma DotLinear(w: Vec3, a: Vec3, b: Vec3, x: real, y: real)
    ensures Dot(w, Add(Vectors.Scale(a, x), Vectors.Scale(b, y))) == x * Dot(w, a) + y * Dot(w, b)
  {
  }

  /** For a point q + alpha u + beta v the computed surface coordinates are
      (alpha, 1 - beta). */
  lemma {:induction false} SurfaceUVOfCombination(qd: Quad, alpha: real, beta: real)
    requires Dot(qd.w, Cross(qd.u, qd.v)) == 1.0
    ensures SurfaceUV(qd, Add(qd.q, Add(Vectors.Scale(qd.u, alpha), Vectors.Scale(qd.v, beta)))) == UV(alpha, 1.0 - beta)
  {
    var u := qd.u;
    var v := qd.v;
    var n := Cross(u, v);
    var planar := Add(Vectors.Scale(u, alpha), Vectors.Scale(v, beta));
    assert Sub(Add(qd.q, planar), qd.q) == planar;
    CrossAddLeft(Vectors.Scale(u, alpha), Vectors.Scale(v, beta), v);
    CrossScaleLeft(u, v, alpha);
    CrossScaleLeft(v, v, beta);
    assert Cross(v, v) == Zero;
    assert Cross(planar, v) == Vectors.Scale(n, alpha);
    CrossAddRight(Vectors.Scale(u, alpha), Vectors.Scale(v, beta), u);
    CrossScaleRight(u, u, alpha);
    CrossScaleRight(v, u, beta);
    assert Cross(u, u) == Zero;
    assert Cross(u, planar) == Vectors.Scale(n, beta);
    DotScale(qd.w, n, alpha);
    DotScale(qd.w, n, beta);
  }

  /** A ray meeting the plane at q + alpha u + beta v within range and not
      parallel is accepted exactly when alpha and beta both lie in [0, 1]. */
  lemma AcceptedIffInside(sqrt: real -> real, qd: Quad, ray: Ray, i: I.Interval, alpha: real, beta: real)
    requires Cross(qd.u, qd.v) != Zero
    requires qd == NewQuad(sqrt, qd.q, qd.u, qd.v, qd.material)
    requires ParallelTolerance <= Abs(Dot(qd.normal, ray.dir)) && I.Contains(i, PlaneDist(qd, ray))
    requires At(ray, PlaneDist(qd, ray)) == Add(qd.q, Add(Vectors.Scale(qd.u, alpha), Vectors.Scale(qd.v, beta)))
    ensures Intersect(qd, ray, i).Some? <==> 0.0 <= alpha <= 1.0 && 0.0 <= beta <= 1.0
    ensures Intersect(qd, ray, i).Some? ==> Intersect(qd, ray, i).value.uv == UV(alpha, 1.0 - beta)
  {
    SurfaceUVOfCombination(qd, alpha, beta);
  }
}
