/** Infinite planes (geom/plane.rs). Building the hit reaches a `todo!()`, so
    this version never returns a hit: a call either misses or panics. The
    model makes the panic a visible outcome carrying the would-be hit. */
module Planes {
  import opened Vectors
  import I = Intervals
  import opened Rays
  import opened Hits

  datatype Plane = Plane(pt: Vec3, normal: Vec3, material: MaterialRef)

  /** Either no hit, or the call reaches `todo!()` at distance `t`, point `point`. */
  datatype Outcome = NoHit | ReachesTodo(t: real, point: Vec3)

  /** Below this |normal . dir| the ray counts as parallel to the plane. */
  const ParallelTolerance: real := 0.00000001

  /** The distance at which the ray meets the plane. */
  function PlaneDist(p: Plane, ray: Ray): real
    requires Dot(p.normal, ray.dir) != 0.0
  {
    Dot(Sub(p.pt, ray.origin), p.normal) / Dot(p.normal, ray.dir)
  }

  /** `Plane::intersect`. */
  function Intersect(p: Plane, ray: Ray, i: I.Interval): (o: Outcome)
    ensures o.ReachesTodo? <==>
      Abs(Dot(p.normal, ray.dir)) > ParallelTolerance && I.Contains(i, PlaneDist(p, ray))
    ensures o.ReachesTodo? ==> I.Contains(i, o.t) && o.point == At(ray, o.t) && o.t == PlaneDist(p, ray)
  {
    var denom := Dot(p.normal, ray.dir);
    if Abs(denom) > ParallelTolerance then
      var t := Dot(Sub(p.pt, ray.origin), p.normal) / denom;
      if I.Contains(i, t) then
        ReachesTodo(t, Add(ray.origin, Vectors.Scale(ray.dir, t)))
      else NoHit
    else NoHit
  }

  /** The would-be hit point lies on the plane. */
  lemma {:induction false} WouldBeOnPlane(p: Plane, ray: Ray, i: I.Interval)
    requires Intersect(p, ray, i).ReachesTodo?
    ensures Dot(Sub(Intersect(p, ray, i).point, p.pt), p.normal) == 0.0
  {
    var o := Intersect(p, ray, i);
    var t := o.t;
    var denom := Dot(p.normal, ray.dir);
    var num := Dot(Sub(p.pt, ray.origin), p.normal);
    assert t * denom == num;
    assert Dot(Sub(o.point, p.pt), p.normal) == t * denom - num;
  }
}
