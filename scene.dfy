/** The scene (rendering/scene.rs): a list of objects and the linear scan
    that keeps the nearest hit. An object is anything with an intersection
    function, which is a parameter. */
module Scenes {
  import I = Intervals
  import opened Rays
  import opened Hits
  import opened Options

  datatype Scene<G> = Scene(objects: seq<G>)

  /** `Scene::new` keeps the objects as given. */
  function New<G>(objects: seq<G>): (s: Scene<G>)
    ensures s.objects == objects
    ensures |s.objects| == |objects|
  {
    Scene(objects)
  }

  /** What each object returns for the same ray and interval, in order. */
  function ObjectHits<G>(s: Scene<G>, hit: (G, Ray, I.Interval) -> Option<Intersection>, ray: Ray, i: I.Interval)
    : (hs: seq<Option<Intersection>>)
    ensures |hs| == |s.objects|
    ensures forall k :: 0 <= k < |hs| ==> hs[k] == hit(s.objects[k], ray, i)
  {
    seq(|s.objects|, k requires 0 <= k < |s.objects| => hit(s.objects[k], ray, i))
  }

  /** The scan over the objects: a hit replaces the one kept so far only when
      its distance is strictly smaller. The result is the first of the
      nearest hits, and there is none exactly when no object is hit. */
  method Intersect<G>(s: Scene<G>, hit: (G, Ray, I.Interval) -> Option<Intersection>, ray: Ray, i: I.Interval)
    returns (closest: Option<Intersection>)
    ensures closest == Nearest(ObjectHits(s, hit, ray, i))
    ensures closest.None? <==> forall k :: 0 <= k < |s.objects| ==> hit(s.objects[k], ray, i).None?
    ensures closest.Some? ==> exists k :: IsFirstNearest(ObjectHits(s, hit, ray, i), k, closest.value)
  {
    ghost var hs := ObjectHits(s, hit, ray, i);
    closest := None;
    for k := 0 to |s.objects|
      invariant closest == Nearest(hs[..k])
    {
      assert hs[..k + 1][..k] == hs[..k];
      match hit(s.objects[k], ray, i)
      case None =>
      case Some(inter) =>
        match closest
        case None =>
          closest := Some(inter);
        case Some(inter2) =>
          if inter.dist < inter2.dist {
            closest := Some(inter);
          }
    }
    assert hs[..|s.objects|] == hs;
    NearestFacts(hs);
  }
}
