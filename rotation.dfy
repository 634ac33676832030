/** Rotations (geom/rotation.rs): the ray is rotated into the inner
    geometry's frame by R^-1, and the hit is rotated back by R. The matrices
    come from the constructors, which are not part of this model; the lemmas
    only need R^-1 to undo R. The inner geometry is represented by its
    intersection function. */
module Rotations {
  import opened Vectors
  import I = Intervals
  import opened Rays
  import B = Boxes
  import opened Hits
  import opened Options
  import Geoms
  import opened Axes

  datatype Rotation = Rotation(rotation: Mat3, rotationInv: Mat3)

  /** The two matrices are inverse to each other. */
  predicate Valid(rot: Rotation) {
    MatMul(rot.rotationInv, rot.rotation) == Identity && MatMul(rot.rotation, rot.rotationInv) == Identity
  }

  /** The ray in the inner geometry's frame. */
  function LocalRay(sqrt: real -> real, rot: Rotation, ray: Ray): (r: Ray)
    ensures r.origin == Apply(rot.rotationInv, ray.origin)
    ensures r.dir == Normalize(sqrt, Apply(rot.rotationInv, ray.dir))
  {
    Rays.New(Apply(rot.rotationInv, ray.origin), Normalize(sqrt, Apply(rot.rotationInv, ray.dir)))
  }

  /** `Rotation::intersect`: the distance of a hit is recomputed in world
      space from the rotated point. */
  function Intersect(sqrt: real -> real, rot: Rotation, inner: (Ray, I.Interval) -> Option<Intersection>, ray: Ray, i: I.Interval)
    : (r: Option<Intersection>)
    ensures r.None? <==> inner(LocalRay(sqrt, rot, ray), i).None?
    ensures r.Some? ==>
      var h := inner(LocalRay(sqrt, rot, ray), i).value;
      r.value.point == Apply(rot.rotation, h.point) &&
      r.value.dist == Norm(sqrt, Sub(r.value.point, ray.origin)) &&
      r.value.normal == Normalize(sqrt, Apply(rot.rotation, h.normal)) &&
      r.value.material == h.material && r.value.uv == h.uv
  {
    match inner(LocalRay(sqrt, rot, ray), i)
    case None => None
    case Some(h) =>
      var point := Apply(rot.rotation, h.point);
      var dist := Norm(sqrt, Sub(point, ray.origin));
      var normal := Normalize(sqrt, Apply(rot.rotation, h.normal));
      Some(Intersection(point, dist, normal, h.material, h.uv))
  }

  /** Rotating the local origin back gives the world origin. */
  lemma LocalOriginMapsBack(sqrt: real -> real, rot: Rotation, ray: Ray)
    requires Valid(rot)
    ensures Apply(rot.rotation, LocalRay(sqrt, rot, ray).origin) == ray.origin
  {
    ApplyInverse(rot.rotationInv, rot.rotation, ray.origin);
  }

  /** A point of the local ray at t maps to the world ray's point at
      t / |R^-1 dir|. */
  lemma {:induction false} HitOnWorldRay(sqrt: real -> real, rot: Rotation, ray: Ray, t: real)
    requires IsSqrt(sqrt) && Valid(rot)
    requires Apply(rot.rotationInv, ray.dir) != Zero
    ensures 0.0 < Norm(sqrt, Apply(rot.rotationInv, ray.dir))
    ensures Apply(rot.rotation, At(LocalRay(sqrt, rot, ray), t)) ==
            At(ray, t * (1.0 / Norm(sqrt, Apply(rot.rotationInv, ray.dir))))
  {
    var ld := Apply(rot.rotationInv, ray.dir);
    NormZero(sqrt, ld);
    var m := 1.0 / Norm(sqrt, ld);
    assert LocalRay(sqrt, rot, ray) == Ray(Apply(rot.rotationInv, ray.origin), Scale(ld, m));
    MapBack(rot, ray, t, m);
  }

  /** The point at t on the rotated ray whose direction is scaled by m,
      rotated back, is the world ray's point at t m. */
  lemma MapBack(rot: Rotation, ray: Ray, t: real, m: real)
    requires MatMul(rot.rotation, rot.rotationInv) == Identity
    ensures Apply(rot.rotation, At(Ray(Apply(rot.rotationInv, ray.origin), Scale(Apply(rot.rotationInv, ray.dir), m)), t)) ==
            At(ray, t * m)
  {
    var lo := Apply(rot.rotationInv, ray.origin);
    var ld := Apply(rot.rotationInv, ray.dir);
    ApplyInverse(rot.rotationInv, rot.rotation, ray.origin);
    ApplyInverse(rot.rotationInv, rot.rotation, ray.dir);
    ApplyLinear(rot.rotation, lo, Scale(Scale(ld, m), t), t);
    ApplyLinear(rot.rotation, Scale(ld, m), ld, t);
    ApplyLinear(rot.rotation, ld, ld, m);
    ScaleScale(ray.dir, m, t);
  }

  lemma ScaleScale(a: Vec3, m: real, t: real)
    ensures Scale(Scale(a, m), t) == Scale(a, t * m)
  {
  }

  // ----- The bounding box -----

  /** The corner of `b` taking the max on the axes flagged true. */
  function Pick(b: B.AABB, hx: bool, hy: bool, hz: bool): Vec3 {
    Vec3(if hx then b.x.max else b.x.min, if hy then b.y.max else b.y.min, if hz then b.z.max else b.z.min)
  }

  /** The eight corners in the order `bbox` lists them. */
  function Corners(b: B.AABB): (cs: seq<Vec3>)
    ensures |cs| == 8
  {
    var mn := B.MinCorner(b);
    var mx := B.MaxCorner(b);
    [Vec3(mn.x, mn.y, mn.z), Vec3(mx.x, mn.y, mn.z), Vec3(mn.x, mx.y, mn.z), Vec3(mx.x, mx.y, mn.z),
     Vec3(mn.x, mn.y, mx.z), Vec3(mx.x, mn.y, mx.z), Vec3(mn.x, mx.y, mx.z), Vec3(mx.x, mx.y, mx.z)]
  }

  /** The listed corners are exactly the 2^3 min/max combinations: corner k
      takes the max on x, y, z according to bits 0, 1, 2 of k. */
  lemma CornersAreCombinations(b: B.AABB)
    ensures Corners(b) ==
      [Pick(b, false, false, false), Pick(b, true, false, false), Pick(b, false, true, false), Pick(b, true, true, false),
       Pick(b, false, false, true), Pick(b, true, false, true), Pick(b, false, true, true), Pick(b, true, true, true)]
    ensures forall hx, hy, hz :: Pick(b, hx, hy, hz) in Corners(b)
  {
    var cs := Corners(b);
    forall hx, hy, hz
      ensures Pick(b, hx, hy, hz) in cs
    {
      var k := (if hx then 1 else 0) + (if hy then 2 else 0) + (if hz then 4 else 0);
      assert cs[k] == Pick(b, hx, hy, hz);
    }
  }

  function RotatedCorners(rot: Rotation, b: B.AABB): (rs: seq<Vec3>)
    ensures |rs| == 8
    ensures forall k :: 0 <= k < 8 ==> rs[k] == Apply(rot.rotation, Corners(b)[k])
  {
    seq(8, k requires 0 <= k < 8 => Apply(rot.rotation, Corners(b)[k]))
  }

  /** The componentwise minimum of a non-empty list, folded from the left. */
  function MinOf(ps: seq<Vec3>): Vec3
    requires |ps| > 0
  {
    if |ps| == 1 then ps[0] else VMin(MinOf(ps[..|ps| - 1]), ps[|ps| - 1])
  }

  /** The componentwise maximum of a non-empty list, folded from the left. */
  function MaxOf(ps: seq<Vec3>): Vec3
    requires |ps| > 0
  {
    if |ps| == 1 then ps[0] else VMax(MaxOf(ps[..|ps| - 1]), ps[|ps| - 1])
  }

  /** MinOf and MaxOf bound every point of the list. */
  lemma {:induction false} MinMaxBound(ps: seq<Vec3>)
    requires |ps| > 0
    ensures forall k :: 0 <= k < |ps| ==> Le(MinOf(ps), ps[k]) && Le(ps[k], MaxOf(ps))
  {
    if |ps| > 1 {
      var init := ps[..|ps| - 1];
      MinMaxBound(init);
      forall k | 0 <= k < |ps| - 1
        ensures ps[k] == init[k]
      {
      }
    }
  }

  /** Each component of MinOf and MaxOf is that component of some point of
      the list. */
  lemma {:induction false} MinMaxAttained(ps: seq<Vec3>, a: Axis)
    requires |ps| > 0
    ensures exists k :: 0 <= k < |ps| && VecIdx(a, MinOf(ps)) == VecIdx(a, ps[k])
    ensures exists k :: 0 <= k < |ps| && VecIdx(a, MaxOf(ps)) == VecIdx(a, ps[k])
  {
    var n := |ps| - 1;
    if n == 0 {
      assert VecIdx(a, MinOf(ps)) == VecIdx(a, ps[0]);
      assert VecIdx(a, MaxOf(ps)) == VecIdx(a, ps[0]);
    } else {
      var init := ps[..n];
      MinMaxAttained(init, a);
      var j :| 0 <= j < n && VecIdx(a, MinOf(init)) == VecIdx(a, init[j]);
      var l :| 0 <= l < n && VecIdx(a, MaxOf(init)) == VecIdx(a, init[l]);
      assert init[j] == ps[j] && init[l] == ps[l];
      if VecIdx(a, MinOf(ps)) == VecIdx(a, ps[n]) {
      } else {
        assert VecIdx(a, MinOf(ps)) == VecIdx(a, ps[j]);
      }
      if VecIdx(a, MaxOf(ps)) == VecIdx(a, ps[n]) {
      } else {
        assert VecIdx(a, MaxOf(ps)) == VecIdx(a, ps[l]);
      }
    }
  }

  /** The box `bbox` returns, as a function of R and the inner box. */
  function BboxOf(rot: Rotation, innerBox: B.AABB): B.AABB {
    B.FromPoints(MinOf(RotatedCorners(rot, innerBox)), MaxOf(RotatedCorners(rot, innerBox)))
  }

  /** `Rotation::bbox`: rotate the eight corners, then track the running
      minimum and maximum field by field. */
  method Bbox(rot: Rotation, innerBox: B.AABB) returns (r: B.AABB)
    ensures r == BboxOf(rot, innerBox)
    ensures forall k :: 0 <= k < 8 ==> B.ContainsPoint(r, RotatedCorners(rot, innerBox)[k])
  {
    var rotated := RotatedCorners(rot, innerBox);
    var newMin := rotated[0];
    var newMax := rotated[0];
    var k := 1;
    while k < 8
      invariant 1 <= k <= 8
      invariant newMin == MinOf(rotated[..k]) && newMax == MaxOf(rotated[..k])
    {
      var corner := rotated[k];
      assert rotated[..k + 1][..k] == rotated[..k];
      newMin := newMin.(x := Min(newMin.x, corner.x));
      newMin := newMin.(y := Min(newMin.y, corner.y));
      newMin := newMin.(z := Min(newMin.z, corner.z));
      newMax := newMax.(x := Max(newMax.x, corner.x));
      newMax := newMax.(y := Max(newMax.y, corner.y));
      newMax := newMax.(z := Max(newMax.z, corner.z));
      k := k + 1;
    }
    assert rotated[..8] == rotated;
    r := B.FromPoints(newMin, newMax);
    MinMaxBound(rotated);
    forall k | 0 <= k < 8
      ensures B.ContainsPoint(r, rotated[k])
    {
      B.FromPointsContains(newMin, newMax, rotated[k]);
    }
  }

  /** On one axis, r p lies between r c1 and r c2 where c1 and c2 are the
      ends of [lo, hi] that minimise and maximise the product. */
  lemma RowBound(r: real, lo: real, p: real, hi: real, c1: real, c2: real)
    requires lo <= p <= hi
    requires c1 == (if r < 0.0 then hi else lo) && c2 == (if r < 0.0 then lo else hi)
    ensures r * c1 <= r * p <= r * c2
  {
    if r < 0.0 {
      assert r * (hi - p) <= 0.0;
      assert r * (p - lo) <= 0.0;
    } else {
      assert 0.0 <= r * (p - lo);
      assert 0.0 <= r * (hi - p);
    }
  }

  lemma DotLe(row: Vec3, a: Vec3, c: Vec3)
    requires row.x * a.x <= row.x * c.x && row.y * a.y <= row.y * c.y && row.z * a.z <= row.z * c.z
    ensures Dot(row, a) <= Dot(row, c)
  {
  }

  /** One row of R: over the box it is smallest at one corner and largest
      at another. */
  lemma {:induction false} RowExtremes(row: Vec3, b: B.AABB, p: Vec3)
    requires B.ContainsPoint(b, p)
    ensures Dot(row, Pick(b, row.x < 0.0, row.y < 0.0, row.z < 0.0)) <= Dot(row, p)
    ensures Dot(row, p) <= Dot(row, Pick(b, !(row.x < 0.0), !(row.y < 0.0), !(row.z < 0.0)))
  {
    var lo := Pick(b, row.x < 0.0, row.y < 0.0, row.z < 0.0);
    var hi := Pick(b, !(row.x < 0.0), !(row.y < 0.0), !(row.z < 0.0));
    RowBound(row.x, b.x.min, p.x, b.x.max, lo.x, hi.x);
    RowBound(row.y, b.y.min, p.y, b.y.max, lo.y, hi.y);
    RowBound(row.z, b.z.min, p.z, b.z.max, lo.z, hi.z);
    DotLe(row, lo, p);
    DotLe(row, p, hi);
  }

  /** Every point of the inner box, rotated, lies in the rotated box. */
  lemma {:induction false} RotatedBoxContains(rot: Rotation, innerBox: B.AABB, p: Vec3)
    requires B.ContainsPoint(innerBox, p)
    ensures B.ContainsPoint(BboxOf(rot, innerBox), Apply(rot.rotation, p))
  {
    var m := rot.rotation;
    var rs := RotatedCorners(rot, innerBox);
    var cs := Corners(innerBox);
    CornersAreCombinations(innerBox);
    MinMaxBound(rs);
    var lo := MinOf(rs);
    var hi := MaxOf(rs);
    RowExtremes(m.r0, innerBox, p);
    RowExtremes(m.r1, innerBox, p);
    RowExtremes(m.r2, innerBox, p);
    ExtremeCorner(rot, innerBox, m.r0.x < 0.0, m.r0.y < 0.0, m.r0.z < 0.0);
    ExtremeCorner(rot, innerBox, !(m.r0.x < 0.0), !(m.r0.y < 0.0), !(m.r0.z < 0.0));
    ExtremeCorner(rot, innerBox, m.r1.x < 0.0, m.r1.y < 0.0, m.r1.z < 0.0);
    ExtremeCorner(rot, innerBox, !(m.r1.x < 0.0), !(m.r1.y < 0.0), !(m.r1.z < 0.0));
    ExtremeCorner(rot, innerBox, m.r2.x < 0.0, m.r2.y < 0.0, m.r2.z < 0.0);
    ExtremeCorner(rot, innerBox, !(m.r2.x < 0.0), !(m.r2.y < 0.0), !(m.r2.z < 0.0));
    var q := Apply(m, p);
    B.FromPointsContains(lo, hi, q);
  }

  /** A rotated corner lies between MinOf and MaxOf of the rotated corners. */
  lemma ExtremeCorner(rot: Rotation, b: B.AABB, hx: bool, hy: bool, hz: bool)
    ensures Le(MinOf(RotatedCorners(rot, b)), Apply(rot.rotation, Pick(b, hx, hy, hz)))
    ensures Le(Apply(rot.rotation, Pick(b, hx, hy, hz)), MaxOf(RotatedCorners(rot, b)))
  {
    var cs := Corners(b);
    assert Pick(b, hx, hy, hz) in cs by { CornersAreCombinations(b); }
    var k :| 0 <= k < 8 && cs[k] == Pick(b, hx, hy, hz);
    var rs := RotatedCorners(rot, b);
    MinMaxBound(rs);
    assert rs[k] == Apply(rot.rotation, Pick(b, hx, hy, hz));
    assert Le(MinOf(rs), rs[k]) && Le(rs[k], MaxOf(rs));
  }

  /** `into_geoms`: every piece of the inner geometry, in order, wrapped in a
      copy of this transform with the same rotation and inverse rotation. */
  function IntoGeoms<G>(rot: Rotation, pieces: seq<G>): (gs: seq<(Rotation, G)>)
    ensures |gs| == |pieces|
    ensures forall k :: 0 <= k < |gs| ==>
      gs[k].0.rotation == rot.rotation && gs[k].0.rotationInv == rot.rotationInv && gs[k].1 == pieces[k]
  {
    Geoms.WrapAll(rot, pieces)
  }
}
