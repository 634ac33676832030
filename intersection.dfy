/** Ray/surface hits (geom/intersection.rs) and the nearest-hit selection
    shared by the scene's scan and the cube's `min_by`. */
module Hits {
  import opened Vectors
  import opened Options

  /** A material is referred to, not owned, by a hit; the model identifies
      it by a handle. */
  type MaterialRef = nat

  /** `Intersection`: its accessors are the datatype's destructors. */
  datatype Intersection = Intersection(point: Vec3, dist: real, normal: Vec3, material: MaterialRef, uv: UV)

  datatype Ordering = Less | Equal | Greater

  /** `dist_compare`. Its assertions that neither distance is NaN hold of
      every real. */
  function DistCompare(a: Intersection, b: Intersection): (o: Ordering)
    ensures o == Less <==> a.dist < b.dist
    ensures o == Greater <==> a.dist > b.dist
    ensures o == Equal <==> a.dist == b.dist
  {
    if a.dist < b.dist then Less
    else if a.dist > b.dist then Greater
    else Equal
  }

  lemma DistCompareAntisymmetric(a: Intersection, b: Intersection)
    ensures DistCompare(a, b) == Less <==> DistCompare(b, a) == Greater
    ensures DistCompare(a, b) == Equal <==> DistCompare(b, a) == Equal
  {
  }

  lemma DistCompareTransitive(a: Intersection, b: Intersection, c: Intersection)
    ensures DistCompare(a, b) != Greater && DistCompare(b, c) != Greater ==> DistCompare(a, c) != Greater
    ensures DistCompare(a, b) == Less && DistCompare(b, c) == Less ==> DistCompare(a, c) == Less
  {
  }

  /** Writing through `point_mut`: only the point changes. */
  function WithPoint(h: Intersection, p: Vec3): (r: Intersection)
    ensures r.point == p
    ensures r.dist == h.dist && r.normal == h.normal && r.material == h.material && r.uv == h.uv
  {
    h.(point := p)
  }

  /** One step of the nearest-hit scan: a new hit replaces the current one
      only when it is strictly nearer. */
  function Keep(closest: Option<Intersection>, hit: Option<Intersection>): Option<Intersection> {
    match hit
    case None => closest
    case Some(h) =>
      match closest
      case None => hit
      case Some(c) => if h.dist < c.dist then hit else closest
  }

  /** The nearest of a sequence of optional hits, the earliest among equals. */
  function Nearest(hits: seq<Option<Intersection>>): Option<Intersection> {
    if |hits| == 0 then None else Keep(Nearest(hits[..|hits| - 1]), hits[|hits| - 1])
  }

  /** `h` is the hit at `k`, no hit is nearer, and every earlier hit is
      strictly farther. */
  predicate IsFirstNearest(hits: seq<Option<Intersection>>, k: int, h: Intersection) {
    0 <= k < |hits| && hits[k] == Some(h) &&
    (forall j :: 0 <= j < |hits| && hits[j].Some? ==> h.dist <= hits[j].value.dist) &&
    (forall j :: 0 <= j < k && hits[j].Some? ==> h.dist < hits[j].value.dist)
  }

  /** There is no hit exactly when every entry is None. */
  lemma {:induction false} NearestNone(hits: seq<Option<Intersection>>)
    ensures Nearest(hits).None? <==> forall k :: 0 <= k < |hits| ==> hits[k].None?
  {
    if |hits| > 0 {
      var init := hits[..|hits| - 1];
      NearestNone(init);
      forall k | 0 <= k < |hits| - 1 ensures hits[k] == init[k] { }
    }
  }

  /** A hit found is the first among the nearest. */
  lemma {:induction false} NearestIsFirstNearest(hits: seq<Option<Intersection>>)
    requires Nearest(hits).Some?
    ensures exists k :: IsFirstNearest(hits, k, Nearest(hits).value)
  {
    var n := |hits| - 1;
    var init := hits[..n];
    assert forall j :: 0 <= j < n ==> hits[j] == init[j];
    var h := Nearest(hits).value;
    match Nearest(init)
    case None =>
      NearestNone(init);
      assert hits[n] == Some(h);
      assert IsFirstNearest(hits, n, h);
    case Some(c) =>
      NearestIsFirstNearest(init);
      var k :| IsFirstNearest(init, k, c);
      if hits[n].Some? && hits[n].value.dist < c.dist {
        assert h == hits[n].value;
        assert IsFirstNearest(hits, n, h);
      } else {
        assert h == c;
        assert IsFirstNearest(hits, k, h);
      }
  }

  /** Both halves of the nearest-hit contract together. */
  lemma NearestFacts(hits: seq<Option<Intersection>>)
    ensures Nearest(hits).None? <==> forall k :: 0 <= k < |hits| ==> hits[k].None?
    ensures Nearest(hits).Some? ==> exists k :: IsFirstNearest(hits, k, Nearest(hits).value)
  {
    NearestNone(hits);
    if Nearest(hits).Some? {
      NearestIsFirstNearest(hits);
    }
  }
}
