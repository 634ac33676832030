/** Translations (geom/translation.rs): the inner geometry is queried with
    the ray moved by -trans, and its hit is moved back by +trans. The inner
    geometry is represented by its intersection function. */
module Translations {
  import opened Vectors
  import I = Intervals
  import opened Rays
  import B = Boxes
  import opened Hits
  import opened Options

  datatype Translation = Translation(trans: Vec3)

  /** The ray in the inner geometry's frame: same direction, origin - trans. */
  function LocalRay(t: Translation, ray: Ray): (r: Ray)
    ensures r.dir == ray.dir
    ensures Add(r.origin, t.trans) == ray.origin
  {
    Rays.New(Sub(ray.origin, t.trans), ray.dir)
  }

  /** `Translation::intersect`: the inner hit's point is overwritten through
      `point_mut`, everything else is passed through. */
  function Intersect(t: Translation, inner: (Ray, I.Interval) -> Option<Intersection>, ray: Ray, i: I.Interval)
    : (r: Option<Intersection>)
    ensures r.None? <==> inner(LocalRay(t, ray), i).None?
    ensures r.Some? ==>
      var h := inner(LocalRay(t, ray), i).value;
      r.value.point == Add(h.point, t.trans) &&
      r.value.dist == h.dist && r.value.normal == h.normal &&
      r.value.material == h.material && r.value.uv == h.uv
  {
    match inner(LocalRay(t, ray), i)
    case None => None
    case Some(h) => Some(WithPoint(h, Add(h.point, t.trans)))
  }

  /** An inner hit on the local ray at distance d becomes the world ray's
      point at the same distance. */
  lemma {:induction false} HitOnWorldRay(t: Translation, inner: (Ray, I.Interval) -> Option<Intersection>, ray: Ray, i: I.Interval)
    requires inner(LocalRay(t, ray), i).Some?
    requires inner(LocalRay(t, ray), i).value.point == At(LocalRay(t, ray), inner(LocalRay(t, ray), i).value.dist)
    ensures Intersect(t, inner, ray, i).value.point == At(ray, Intersect(t, inner, ray, i).value.dist)
  {
    var h := inner(LocalRay(t, ray), i).value;
    assert Add(At(LocalRay(t, ray), h.dist), t.trans) == At(ray, h.dist);
  }

  /** `Translation::bbox`: the inner box moved by `trans`. */
  function Bbox(t: Translation, innerBox: B.AABB): (r: B.AABB)
    ensures forall p :: B.ContainsPoint(innerBox, p) <==> B.ContainsPoint(r, Add(p, t.trans))
    ensures B.WellFormed(innerBox) <==> B.WellFormed(r)
  {
    B.Translate(innerBox, t.trans)
  }

  /** A hit inside the inner box lands inside the translated box. */
  lemma HitInBox(t: Translation, inner: (Ray, I.Interval) -> Option<Intersection>, innerBox: B.AABB, ray: Ray, i: I.Interval)
    requires inner(LocalRay(t, ray), i).Some?
    requires B.ContainsPoint(innerBox, inner(LocalRay(t, ray), i).value.point)
    ensures B.ContainsPoint(Bbox(t, innerBox), Intersect(t, inner, ray, i).value.point)
  {
  }
}
