/** Bounding volume hierarchies (geom/bvh.rs): a binary tree whose nodes
    keep the boxes of their two children and whose leaves hold geometry.
    The leaf geometry's intersection function is a parameter. How the tree
    is built is not part of this model. */
module Bvhs {
  import opened Vectors
  import I = Intervals
  import opened Rays
  import B = Boxes
  import opened Hits
  import opened Options

  datatype Bvh<G> =
    | Leaf(geom: G)
    | Node(bboxLeft: B.AABB, bboxRight: B.AABB, left: Bvh<G>, right: Bvh<G>)

  /** What every leaf returns for the ray, left to right. */
  function LeafHits<G>(t: Bvh<G>, hit: (G, Ray, I.Interval) -> Option<Intersection>, ray: Ray, i: I.Interval)
    : seq<Option<Intersection>>
  {
    match t
    case Leaf(g) => [hit(g, ray, i)]
    case Node(_, _, l, r) => LeafHits(l, hit, ray, i) + LeafHits(r, hit, ray, i)
  }

  /** `BVH::intersect` as written: once the left child's box passes the slab
      test, the right child is never looked at. */
  function IntersectAsWritten<G>(t: Bvh<G>, hit: (G, Ray, I.Interval) -> Option<Intersection>, ray: Ray, i: I.Interval)
    : (r: Option<Intersection>)
    ensures t.Leaf? ==> r == hit(t.geom, ray, i)
    ensures t.Node? && B.SlabHits(t.bboxLeft, ray, i) ==> r == IntersectAsWritten(t.left, hit, ray, i)
    ensures t.Node? && !B.SlabHits(t.bboxLeft, ray, i) && B.SlabHits(t.bboxRight, ray, i) ==>
      r == IntersectAsWritten(t.right, hit, ray, i)
    ensures t.Node? && !B.SlabHits(t.bboxLeft, ray, i) && !B.SlabHits(t.bboxRight, ray, i) ==> r.None?
    ensures r.Some? ==> r in LeafHits(t, hit, ray, i)
  {
    match t
    case Leaf(g) => hit(g, ray, i)
    case Node(bl, br, l, rt) =>
      if B.SlabHits(bl, ray, i) then IntersectAsWritten(l, hit, ray, i)
      else if B.SlabHits(br, ray, i) then IntersectAsWritten(rt, hit, ray, i)
      else None
  }

  /** The query with both children visited: each child whose box passes
      the slab test is searched, and the nearer hit is kept (the left one on
      a tie). */
  function Intersect<G>(t: Bvh<G>, hit: (G, Ray, I.Interval) -> Option<Intersection>, ray: Ray, i: I.Interval)
    : (r: Option<Intersection>)
    ensures t.Leaf? ==> r == hit(t.geom, ray, i)
    ensures t.Node? && !B.SlabHits(t.bboxLeft, ray, i) && !B.SlabHits(t.bboxRight, ray, i) ==> r.None?
    ensures r.Some? ==> r in LeafHits(t, hit, ray, i)
  {
    match t
    case Leaf(g) => hit(g, ray, i)
    case Node(bl, br, l, rt) =>
      Keep(if B.SlabHits(bl, ray, i) then Intersect(l, hit, ray, i) else None,
           if B.SlabHits(br, ray, i) then Intersect(rt, hit, ray, i) else None)
  }

  /** The tree's boxes are honest for this ray: a child whose box fails the
      slab test holds no leaf that the ray hits. */
  predicate Bounded<G>(t: Bvh<G>, hit: (G, Ray, I.Interval) -> Option<Intersection>, ray: Ray, i: I.Interval) {
    match t
    case Leaf(_) => true
    case Node(bl, br, l, r) =>
      (!B.SlabHits(bl, ray, i) ==> forall k :: 0 <= k < |LeafHits(l, hit, ray, i)| ==> LeafHits(l, hit, ray, i)[k].None?) &&
      (!B.SlabHits(br, ray, i) ==> forall k :: 0 <= k < |LeafHits(r, hit, ray, i)| ==> LeafHits(r, hit, ray, i)[k].None?) &&
      Bounded(l, hit, ray, i) && Bounded(r, hit, ray, i)
  }

  /** Keeping the nearer of three hits does not depend on the grouping. */
  lemma KeepAssociative(a: Option<Intersection>, b: Option<Intersection>, c: Option<Intersection>)
    ensures Keep(Keep(a, b), c) == Keep(a, Keep(b, c))
  {
  }

  /** The nearest hit of a concatenation is the nearer of the two nearest
      hits, the first list winning ties. */
  lemma {:induction false} NearestAppend(a: seq<Option<Intersection>>, b: seq<Option<Intersection>>)
    ensures Nearest(a + b) == Keep(Nearest(a), Nearest(b))
  {
    if |b| == 0 {
      assert a + b == a;
    } else {
      var b0 := b[..|b| - 1];
      NearestAppend(a, b0);
      assert (a + b)[..|a + b| - 1] == a + b0;
      KeepAssociative(Nearest(a), Nearest(b0), b[|b| - 1]);
    }
  }

  /** On a tree with honest boxes the two-sided query finds the first
      nearest leaf hit, as a scan over all leaves would. */
  lemma {:induction false} IntersectIsNearest<G>(t: Bvh<G>, hit: (G, Ray, I.Interval) -> Option<Intersection>, ray: Ray, i: I.Interval)
    requires Bounded(t, hit, ray, i)
    ensures Intersect(t, hit, ray, i) == Nearest(LeafHits(t, hit, ray, i))
  {
    match t
    case Leaf(g) =>
      assert Nearest(LeafHits(t, hit, ray, i)) == Keep(None, hit(g, ray, i));
    case Node(bl, br, l, r) =>
      IntersectIsNearest(l, hit, ray, i);
      IntersectIsNearest(r, hit, ray, i);
      NearestAppend(LeafHits(l, hit, ray, i), LeafHits(r, hit, ray, i));
      NearestNone(LeafHits(l, hit, ray, i));
      NearestNone(LeafHits(r, hit, ray, i));
  }

  /** A leaf whose answer is fixed, for the example below. */
  function Fixed(g: Option<Intersection>, ray: Ray, i: I.Interval): Option<Intersection> {
    g
  }

  /** The cube [-1, 1]^3 and a ray along z through its centre, met over
      the distances [-0.5, 0.5]. */
  lemma CentreRayHitsBox()
    ensures B.SlabHits(B.AABB(I.Interval(-1.0, 1.0), I.Interval(-1.0, 1.0), I.Interval(-1.0, 1.0)),
                       Ray(Zero, Vec3(0.0, 0.0, 1.0)), I.Interval(-0.5, 0.5))
  {
    var ray := Ray(Zero, Vec3(0.0, 0.0, 1.0));
    assert At(ray, 0.0) == Zero;
    B.SlabComplete(B.AABB(I.Interval(-1.0, 1.0), I.Interval(-1.0, 1.0), I.Interval(-1.0, 1.0)), ray, I.Interval(-0.5, 0.5), 0.0);
  }

  /** Both children's boxes are that cube; the left leaf is missed and the
      right leaf is hit. The boxes are honest, yet the query as written
      answers None, while the right leaf has a hit. */
  lemma AsWrittenMissesRightChild()
    ensures var box := B.AABB(I.Interval(-1.0, 1.0), I.Interval(-1.0, 1.0), I.Interval(-1.0, 1.0));
            var ray := Ray(Zero, Vec3(0.0, 0.0, 1.0));
            var i := I.Interval(-0.5, 0.5);
            var h := Intersection(Vec3(0.0, 0.0, 0.25), 0.25, Vec3(0.0, 0.0, -1.0), 0, UV(0.0, 0.0));
            var t := Node(box, box, Leaf(None), Leaf(Some(h)));
            Bounded(t, Fixed, ray, i) &&
            IntersectAsWritten(t, Fixed, ray, i).None? &&
            Nearest(LeafHits(t, Fixed, ray, i)) == Some(h) &&
            Intersect(t, Fixed, ray, i) == Some(h)
  {
    CentreRayHitsBox();
    TwoLeaves(B.AABB(I.Interval(-1.0, 1.0), I.Interval(-1.0, 1.0), I.Interval(-1.0, 1.0)),
              Ray(Zero, Vec3(0.0, 0.0, 1.0)), I.Interval(-0.5, 0.5),
              None, Some(Intersection(Vec3(0.0, 0.0, 0.25), 0.25, Vec3(0.0, 0.0, -1.0), 0, UV(0.0, 0.0))));
  }

  /** A node over two leaves whose boxes both pass the slab test. */
  lemma TwoLeaves(box: B.AABB, ray: Ray, i: I.Interval, g1: Option<Intersection>, g2: Option<Intersection>)
    requires B.SlabHits(box, ray, i)
    ensures var t := Node(box, box, Leaf(g1), Leaf(g2));
            LeafHits(t, Fixed, ray, i) == [g1, g2] &&
            Bounded(t, Fixed, ray, i) &&
            IntersectAsWritten(t, Fixed, ray, i) == g1 &&
            Nearest(LeafHits(t, Fixed, ray, i)) == Keep(g1, g2) &&
            Intersect(t, Fixed, ray, i) == Keep(g1, g2)
  {
    var t := Node(box, box, Leaf(g1), Leaf(g2));
    assert LeafHits(Leaf(g1), Fixed, ray, i) == [g1];
    assert LeafHits(Leaf(g2), Fixed, ray, i) == [g2];
    assert LeafHits(t, Fixed, ray, i) == [g1, g2];
    assert [g1, g2][..1] == [g1];
    assert Nearest([g1]) == g1 by {
      assert [g1][..0] == [];
    }
  }
}
