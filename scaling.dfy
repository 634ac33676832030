/** Scalings (geom/scaling.rs): the ray is divided componentwise by the
    scale factors, the inner geometry is queried, and its hit is multiplied
    back. The inner geometry is represented by its intersection function. */
module Scalings {
  import opened Vectors
  import I = Intervals
  import opened Rays
  import B = Boxes
  import opened Hits
  import opened Options
  import Geoms

  datatype Scaling = Scaling(scale: Vec3, scaleInv: Vec3)

  /** Squared lengths below this are treated as zero (1e-10). */
  const SmallTolerance: real := 0.0000000001

  predicate Positive(v: Vec3) {
    0.0 < v.x && 0.0 < v.y && 0.0 < v.z
  }

  /** The scaling as `Scaling::new` builds it: positive factors and their
      reciprocals. */
  predicate Valid(s: Scaling) {
    Positive(s.scale) && s.scaleInv == Vec3(1.0 / s.scale.x, 1.0 / s.scale.y, 1.0 / s.scale.z)
  }

  /** `Scaling::new`, which asserts that every factor is positive. */
  function NewScaling(scale: Vec3): (s: Scaling)
    requires Positive(scale)
    ensures s.scale == scale && Valid(s)
    ensures Mul(s.scale, s.scaleInv) == Vec3(1.0, 1.0, 1.0)
    ensures Positive(s.scaleInv)
  {
    Scaling(scale, Vec3(1.0 / scale.x, 1.0 / scale.y, 1.0 / scale.z))
  }

  /** The direction divided by the scale, before normalisation. */
  function ScaledDir(s: Scaling, ray: Ray): Vec3 {
    Mul(ray.dir, s.scaleInv)
  }

  /** The ray in the inner geometry's frame. */
  function LocalRay(sqrt: real -> real, s: Scaling, ray: Ray): (r: Ray)
    ensures r.origin == Mul(ray.origin, s.scaleInv)
    ensures r.dir == Normalize(sqrt, ScaledDir(s, ray))
  {
    Rays.New(Mul(ray.origin, s.scaleInv), Normalize(sqrt, ScaledDir(s, ray)))
  }

  /** `Scaling::intersect`. The distance of a hit is recomputed in world
      space from the mapped point. */
  function Intersect(sqrt: real -> real, s: Scaling, inner: (Ray, I.Interval) -> Option<Intersection>, ray: Ray, i: I.Interval)
    : (r: Option<Intersection>)
    ensures NormSquared(ScaledDir(s, ray)) < SmallTolerance ==> r.None?
    ensures r.Some? <==>
      SmallTolerance <= NormSquared(ScaledDir(s, ray)) &&
      inner(LocalRay(sqrt, s, ray), i).Some? &&
      SmallTolerance <= NormSquared(Mul(inner(LocalRay(sqrt, s, ray), i).value.normal, s.scaleInv))
    ensures r.Some? ==>
      var h := inner(LocalRay(sqrt, s, ray), i).value;
      r.value.point == Mul(h.point, s.scale) &&
      r.value.dist == Norm(sqrt, Sub(r.value.point, ray.origin)) &&
      r.value.normal == Normalize(sqrt, Mul(h.normal, s.scaleInv)) &&
      r.value.material == h.material && r.value.uv == h.uv
  {
    var scaledDir := ScaledDir(s, ray);
    if NormSquared(scaledDir) < SmallTolerance then None
    else
      match inner(LocalRay(sqrt, s, ray), i)
      case None => None
      case Some(h) =>
        var point := Mul(h.point, s.scale);
        var dist := Norm(sqrt, Sub(point, ray.origin));
        var scaledNormal := Mul(h.normal, s.scaleInv);
        if NormSquared(scaledNormal) < SmallTolerance then None
        else Some(Intersection(point, dist, Normalize(sqrt, scaledNormal), h.material, h.uv))
  }

  /** The recomputed distance is a length: non-negative, and zero only at
      the ray's origin. */
  lemma DistIsLength(sqrt: real -> real, s: Scaling, inner: (Ray, I.Interval) -> Option<Intersection>, ray: Ray, i: I.Interval)
    requires IsSqrt(sqrt)
    requires Intersect(sqrt, s, inner, ray, i).Some?
    ensures 0.0 <= Intersect(sqrt, s, inner, ray, i).value.dist
    ensures Intersect(sqrt, s, inner, ray, i).value.dist == 0.0 <==> Intersect(sqrt, s, inner, ray, i).value.point == ray.origin
  {
    var h := Intersect(sqrt, s, inner, ray, i).value;
    NormZero(sqrt, Sub(h.point, ray.origin));
    assert Sub(h.point, ray.origin) == Zero <==> h.point == ray.origin;
  }

  /** One axis of the hit point mapped back: (o / sc + t m d / sc) sc. */
  lemma ScaleBack(o: real, d: real, iv: real, sc: real, t: real, m: real)
    requires iv * sc == 1.0
    ensures (o * iv + t * (m * (d * iv))) * sc == o + (t * m) * d
  {
    assert (o * iv) * sc == o * (iv * sc);
    assert (t * (m * (d * iv))) * sc == ((t * m) * d) * (iv * sc);
  }

  /** A hit on the local ray at distance t maps to the world ray's point at
      t / |dir / scale|. */
  lemma {:induction false} HitOnWorldRay(sqrt: real -> real, s: Scaling, ray: Ray, t: real)
    requires IsSqrt(sqrt) && Valid(s)
    requires SmallTolerance <= NormSquared(ScaledDir(s, ray))
    ensures 0.0 < Norm(sqrt, ScaledDir(s, ray))
    ensures Mul(At(LocalRay(sqrt, s, ray), t), s.scale) == At(ray, t * (1.0 / Norm(sqrt, ScaledDir(s, ray))))
  {
    var sd := ScaledDir(s, ray);
    NormSquaredNonNeg(sd);
    SqrtPositive(sqrt, NormSquared(sd));
    var n := Norm(sqrt, sd);
    assert LocalRay(sqrt, s, ray) == Ray(Mul(ray.origin, s.scaleInv), Vectors.Scale(sd, 1.0 / n));
    InverseFactors(s);
    MapBack(s, ray, t, 1.0 / n);
  }

  lemma InverseFactors(s: Scaling)
    requires Valid(s)
    ensures s.scaleInv.x * s.scale.x == 1.0 && s.scaleInv.y * s.scale.y == 1.0 && s.scaleInv.z * s.scale.z == 1.0
  {
  }

  /** The point at t on the local ray, whose direction is m (dir / scale),
      multiplied by the scale, is the world ray's point at t m. */
  lemma MapBack(s: Scaling, ray: Ray, t: real, m: real)
    requires s.scaleInv.x * s.scale.x == 1.0 && s.scaleInv.y * s.scale.y == 1.0 && s.scaleInv.z * s.scale.z == 1.0
    ensures Mul(At(Ray(Mul(ray.origin, s.scaleInv), Vectors.Scale(ScaledDir(s, ray), m)), t), s.scale) == At(ray, t * m)
  {
    ScaleBack(ray.origin.x, ray.dir.x, s.scaleInv.x, s.scale.x, t, m);
    ScaleBack(ray.origin.y, ray.dir.y, s.scaleInv.y, s.scale.y, t, m);
    ScaleBack(ray.origin.z, ray.dir.z, s.scaleInv.z, s.scale.z, t, m);
  }

  /** `Scaling::bbox`: the inner corners scaled, reordered per axis, and
      boxed with `from_points`. */
  function Bbox(s: Scaling, innerBox: B.AABB): (r: B.AABB)
    ensures var smin := Mul(B.MinCorner(innerBox), s.scale);
            var smax := Mul(B.MaxCorner(innerBox), s.scale);
            Le(VMin(smin, smax), VMax(smin, smax)) &&
            r == B.FromPoints(VMin(smin, smax), VMax(smin, smax))
    ensures B.WellFormed(r)
  {
    var smin := Mul(B.MinCorner(innerBox), s.scale);
    var smax := Mul(B.MaxCorner(innerBox), s.scale);
    B.FromPoints(VMin(smin, smax), VMax(smin, smax))
  }

  lemma ScaleBetween(lo: real, p: real, hi: real, k: real)
    requires lo <= p <= hi && 0.0 < k
    ensures Min(lo * k, hi * k) <= p * k <= Max(lo * k, hi * k)
  {
    assert lo * k <= p * k <= hi * k;
  }

  /** Every point of the inner box, scaled, lies in the scaled box. */
  lemma {:induction false} ScaledBoxContains(s: Scaling, innerBox: B.AABB, p: Vec3)
    requires Positive(s.scale)
    requires B.ContainsPoint(innerBox, p)
    ensures B.ContainsPoint(Bbox(s, innerBox), Mul(p, s.scale))
  {
    var smin := Mul(B.MinCorner(innerBox), s.scale);
    var smax := Mul(B.MaxCorner(innerBox), s.scale);
    var lo := B.MinCorner(innerBox);
    var hi := B.MaxCorner(innerBox);
    ScaleBetween(lo.x, p.x, hi.x, s.scale.x);
    ScaleBetween(lo.y, p.y, hi.y, s.scale.y);
    ScaleBetween(lo.z, p.z, hi.z, s.scale.z);
    B.FromOrderedContains(VMin(smin, smax), VMax(smin, smax), Mul(p, s.scale));
  }

  /** A hit inside the inner box lands inside the scaled box. */
  lemma HitInBox(sqrt: real -> real, s: Scaling, inner: (Ray, I.Interval) -> Option<Intersection>, innerBox: B.AABB, ray: Ray, i: I.Interval)
    requires Positive(s.scale)
    requires Intersect(sqrt, s, inner, ray, i).Some?
    requires B.ContainsPoint(innerBox, inner(LocalRay(sqrt, s, ray), i).value.point)
    ensures B.ContainsPoint(Bbox(s, innerBox), Intersect(sqrt, s, inner, ray, i).value.point)
  {
    ScaledBoxContains(s, innerBox, inner(LocalRay(sqrt, s, ray), i).value.point);
  }

  /** `into_geoms`: every piece of the inner geometry, in order, wrapped in a
      copy of this transform with the same scale and inverse scale. */
  function IntoGeoms<G>(s: Scaling, pieces: seq<G>): (gs: seq<(Scaling, G)>)
    ensures |gs| == |pieces|
    ensures forall k :: 0 <= k < |gs| ==>
      gs[k].0.scale == s.scale && gs[k].0.scaleInv == s.scaleInv && gs[k].1 == pieces[k]
  {
    Geoms.WrapAll(s, pieces)
  }
}
