/** Axis-aligned bounding boxes (geom/aabb.rs): one interval per axis, padded
    to a minimum thickness, and the slab test that decides whether a ray can
    meet the box within a range of distances. */
module Boxes {
  import opened Vectors
  import I = Intervals
  import opened Axes
  import opened Rays

  datatype AABB = AABB(x: I.Interval, y: I.Interval, z: I.Interval)

  /** `AABB::default()`: every axis is [0, 0], and it is not padded. */
  const Default: AABB := AABB(I.Default, I.Default, I.Default)

  /** Minimum thickness enforced by `pad_to_minimums`. */
  const Tolerance: real := 0.0001

  /** The interval of the box along an axis. */
  function Idx(b: AABB, a: Axis): I.Interval {
    match a
    case X => b.x
    case Y => b.y
    case Z => b.z
  }

  predicate ContainsPoint(b: AABB, p: Vec3) {
    I.Contains(b.x, p.x) && I.Contains(b.y, p.y) && I.Contains(b.z, p.z)
  }

  /** `p` is in the interior of the box on every axis. */
  predicate StrictlyInside(b: AABB, p: Vec3) {
    b.x.min < p.x < b.x.max && b.y.min < p.y < b.y.max && b.z.min < p.z < b.z.max
  }

  /** Every axis of `inner` lies within the same axis of `outer`. */
  predicate CoversBox(outer: AABB, inner: AABB) {
    I.Covers(outer.x, inner.x) && I.Covers(outer.y, inner.y) && I.Covers(outer.z, inner.z)
  }

  /** No axis is inverted. */
  predicate WellFormed(b: AABB) {
    b.x.min <= b.x.max && b.y.min <= b.y.max && b.z.min <= b.z.max
  }

  /** One axis of `pad_to_minimums`. */
  function PadAxis(i: I.Interval): I.Interval {
    if I.Length(i) < Tolerance then I.PadBy(i, Tolerance) else i
  }

  /** `pad_to_minimums`, which pads the three fields in place; the model
      returns the padded box. */
  function PadToMinimums(b: AABB): (r: AABB)
    ensures CoversBox(r, b)
    ensures forall a: Axis :: 0.0 <= I.Length(Idx(b, a)) ==> Tolerance <= I.Length(Idx(r, a))
    ensures forall a: Axis :: Tolerance <= I.Length(Idx(b, a)) ==> Idx(r, a) == Idx(b, a)
    ensures forall a: Axis :: Idx(r, a).min + Idx(r, a).max == Idx(b, a).min + Idx(b, a).max
    ensures WellFormed(b) ==> WellFormed(r)
  {
    AABB(PadAxis(b.x), PadAxis(b.y), PadAxis(b.z))
  }

  /** `AABB::new`: the box of three intervals, padded. */
  function New(x: I.Interval, y: I.Interval, z: I.Interval): (r: AABB)
    ensures CoversBox(r, AABB(x, y, z))
    ensures WellFormed(AABB(x, y, z)) ==> WellFormed(r)
  {
    PadToMinimums(AABB(x, y, z))
  }

  /** The interval spanned by two coordinates, as `from_points` builds it. */
  function Span(a: real, b: real): (r: I.Interval)
    ensures r == I.Interval(Min(a, b), Max(a, b))
  {
    if a <= b then I.New(a, b) else I.New(b, a)
  }

  /** `AABB::from_points`: the padded box spanned by two corners. */
  function FromPoints(v1: Vec3, v2: Vec3): (r: AABB)
    ensures r == New(I.Interval(Min(v1.x, v2.x), Max(v1.x, v2.x)),
                     I.Interval(Min(v1.y, v2.y), Max(v1.y, v2.y)),
                     I.Interval(Min(v1.z, v2.z), Max(v1.z, v2.z)))
    ensures ContainsPoint(r, v1) && ContainsPoint(r, v2)
    ensures WellFormed(r)
  {
    New(Span(v1.x, v2.x), Span(v1.y, v2.y), Span(v1.z, v2.z))
  }

  /** With ordered corners, a point between them lies in the box. */
  lemma FromOrderedContains(lo: Vec3, hi: Vec3, p: Vec3)
    requires Le(lo, p) && Le(p, hi)
    ensures ContainsPoint(FromPoints(lo, hi), p)
  {
    FromPointsContains(lo, hi, p);
  }

  /** A point between the two corners on every axis is in the box. */
  lemma FromPointsContains(v1: Vec3, v2: Vec3, p: Vec3)
    requires Min(v1.x, v2.x) <= p.x <= Max(v1.x, v2.x)
    requires Min(v1.y, v2.y) <= p.y <= Max(v1.y, v2.y)
    requires Min(v1.z, v2.z) <= p.z <= Max(v1.z, v2.z)
    ensures ContainsPoint(FromPoints(v1, v2), p)
  {
    var inner := AABB(I.Interval(Min(v1.x, v2.x), Max(v1.x, v2.x)),
                      I.Interval(Min(v1.y, v2.y), Max(v1.y, v2.y)),
                      I.Interval(Min(v1.z, v2.z), Max(v1.z, v2.z)));
    assert ContainsPoint(inner, p);
    CoversBoxPoint(FromPoints(v1, v2), inner, p);
  }

  lemma FromPointsSymmetric(v1: Vec3, v2: Vec3)
    ensures FromPoints(v1, v2) == FromPoints(v2, v1)
  {
  }

  /** `AABB::union`: the padded axis-wise union. */
  function Union(b1: AABB, b2: AABB): (r: AABB)
    ensures CoversBox(r, b1) && CoversBox(r, b2)
    ensures WellFormed(b1) ==> WellFormed(r)
  {
    New(I.Union(b1.x, b2.x), I.Union(b1.y, b2.y), I.Union(b1.z, b2.z))
  }

  /** When no axis of the joined intervals is thinner than the padding
      threshold, the union is the smallest box holding both arguments. */
  lemma UnionLeast(b1: AABB, b2: AABB, c: AABB)
    requires Tolerance <= I.Length(I.Union(b1.x, b2.x))
    requires Tolerance <= I.Length(I.Union(b1.y, b2.y))
    requires Tolerance <= I.Length(I.Union(b1.z, b2.z))
    requires CoversBox(c, b1) && CoversBox(c, b2)
    ensures Union(b1, b2) == AABB(I.Union(b1.x, b2.x), I.Union(b1.y, b2.y), I.Union(b1.z, b2.z))
    ensures CoversBox(c, Union(b1, b2))
  {
    var j := AABB(I.Union(b1.x, b2.x), I.Union(b1.y, b2.y), I.Union(b1.z, b2.z));
    assert Idx(j, X) == j.x && Idx(j, Y) == j.y && Idx(j, Z) == j.z;
  }

  /** Padding makes a thin union bigger than a box that holds both
      arguments: the degenerate box at the origin holds itself but not its
      union with itself. */
  lemma ThinUnionNotLeast()
    ensures var p := AABB(I.Interval(0.0, 0.0), I.Interval(0.0, 0.0), I.Interval(0.0, 0.0));
            CoversBox(p, p) && !CoversBox(p, Union(p, p))
  {
    var z := I.Interval(0.0, 0.0);
    var p := AABB(z, z, z);
    assert I.Union(z, z) == z;
    assert I.Length(z) < Tolerance;
    assert PadAxis(z) == I.PadBy(z, Tolerance);
    assert Union(p, p).x == I.PadBy(z, Tolerance);
  }

  lemma CoversBoxTransitive(a: AABB, b: AABB, c: AABB)
    requires CoversBox(a, b) && CoversBox(b, c)
    ensures CoversBox(a, c)
  {
  }

  lemma CoversBoxPoint(a: AABB, b: AABB, p: Vec3)
    requires CoversBox(a, b) && ContainsPoint(b, p)
    ensures ContainsPoint(a, p)
  {
  }

  /** `union_all` as a left fold from the default box. */
  function UnionAllFold(bbs: seq<AABB>): AABB {
    if |bbs| == 0 then Default else Union(UnionAllFold(bbs[..|bbs| - 1]), bbs[|bbs| - 1])
  }

  /** The fold holds the origin and every box folded in. */
  lemma {:induction false} UnionAllFoldCovers(bbs: seq<AABB>)
    ensures ContainsPoint(UnionAllFold(bbs), Zero)
    ensures forall k :: 0 <= k < |bbs| ==> CoversBox(UnionAllFold(bbs), bbs[k])
  {
    if |bbs| > 0 {
      var init := bbs[..|bbs| - 1];
      UnionAllFoldCovers(init);
      var acc := UnionAllFold(init);
      var r := UnionAllFold(bbs);
      assert CoversBox(r, acc);
      CoversBoxPoint(r, acc, Zero);
      forall k | 0 <= k < |bbs|
        ensures CoversBox(r, bbs[k])
      {
        if k < |bbs| - 1 {
          assert bbs[k] == init[k];
          CoversBoxTransitive(r, acc, bbs[k]);
        }
      }
    }
  }

  /** `AABB::union_all`: the loop over the boxes. */
  method UnionAll(bbs: seq<AABB>) returns (bb: AABB)
    ensures bb == UnionAllFold(bbs)
    ensures |bbs| == 0 ==> bb == Default
    ensures ContainsPoint(bb, Zero)
    ensures forall k :: 0 <= k < |bbs| ==> CoversBox(bb, bbs[k])
  {
    bb := Default;
    var n := 0;
    while n < |bbs|
      invariant 0 <= n <= |bbs|
      invariant bb == UnionAllFold(bbs[..n])
    {
      assert bbs[..n + 1][..n] == bbs[..n];
      bb := Union(bb, bbs[n]);
      n := n + 1;
    }
    assert bbs[..n] == bbs;
    UnionAllFoldCovers(bbs);
  }

  /** The box moved by `v` (`AABB::translate`, which is not part of this
      model's source and is taken to translate each axis by the matching
      component). */
  function Translate(b: AABB, v: Vec3): (r: AABB)
    ensures forall p :: ContainsPoint(b, p) <==> ContainsPoint(r, Add(p, v))
    ensures WellFormed(b) <==> WellFormed(r)
  {
    AABB(I.Translate(b.x, v.x), I.Translate(b.y, v.y), I.Translate(b.z, v.z))
  }

  /** The lower corner (`AABB::min`, likewise taken per axis). */
  function MinCorner(b: AABB): (p: Vec3)
    ensures forall a: Axis :: VecIdx(a, p) == Idx(b, a).min
  {
    Vec3(b.x.min, b.y.min, b.z.min)
  }

  /** The upper corner (`AABB::max`). */
  function MaxCorner(b: AABB): (p: Vec3)
    ensures forall a: Axis :: VecIdx(a, p) == Idx(b, a).max
  {
    Vec3(b.x.max, b.y.max, b.z.max)
  }

  lemma CornersContained(b: AABB)
    requires WellFormed(b)
    ensures ContainsPoint(b, MinCorner(b)) && ContainsPoint(b, MaxCorner(b))
  {
  }

  // ----- The slab test -----

  /** One axis of `intersect` on scalars: narrow `i` to the distances t at
      which `o + t d` lies in [lo, hi]. A zero `d` divides by zero in the
      program; the first branch writes out what IEEE arithmetic then yields
      (with a positive zero): `i` is kept when `o` is strictly inside the slab
      or the slab is inverted around it (the two products are then infinities
      that pass both tests, or NaN, which fails them), and otherwise the
      interval is emptied, which rejects the ray. */
  function NarrowSlab(lo: real, hi: real, o: real, d: real, i: I.Interval): (n: I.Interval)
    ensures I.Covers(i, n)
  {
    if d == 0.0 then Parallel(lo, hi, o, i)
    else
      var adinv := 1.0 / d;
      Clip(i, SlabDist(lo, o, adinv), SlabDist(hi, o, adinv))
  }

  /** The distance at which the ray reaches a slab face, given 1/d. */
  function SlabDist(bound: real, o: real, adinv: real): real {
    (bound - o) * adinv
  }

  /** The zero-direction case: keep `i`, or empty it. */
  function Parallel(lo: real, hi: real, o: real, i: I.Interval): (n: I.Interval)
    ensures I.Covers(i, n)
    ensures n == i || n.max <= n.min
  {
    if (lo - o < 0.0 && 0.0 < hi - o) || (hi - o <= 0.0 && 0.0 <= lo - o) then i
    else I.Interval(Max(i.min, i.max), i.max)
  }

  /** The two-sided update of `intersect` once both slab distances t0 and t1
      are known: raise the lower end to the smaller of them and lower the
      upper end to the larger, when that narrows the interval. */
  function Clip(i: I.Interval, t0: real, t1: real): (n: I.Interval)
    ensures I.Covers(i, n)
    ensures t0 < t1 ==> n == I.Interval(Max(i.min, t0), Min(i.max, t1))
    ensures t1 <= t0 ==> n == I.Interval(Max(i.min, t1), Min(i.max, t0))
  {
    if t0 < t1 then
      I.Interval(if t0 > i.min then t0 else i.min, if t1 < i.max then t1 else i.max)
    else
      I.Interval(if t1 > i.min then t1 else i.min, if t0 < i.max then t0 else i.max)
  }

  /** One axis of `intersect` on the box and the ray. */
  function Narrow(b: AABB, r: Ray, i: I.Interval, a: Axis): (n: I.Interval)
    ensures I.Covers(i, n)
  {
    NarrowSlab(Idx(b, a).min, Idx(b, a).max, VecIdx(a, r.origin), VecIdx(a, r.dir), i)
  }

  /** The axes in the order `intersect` visits them. */
  const AxisOrder: seq<Axis> := [X, Y, Z]

  /** The candidate interval after the first `k` axes. */
  function NarrowThrough(b: AABB, r: Ray, i: I.Interval, k: nat): I.Interval
    requires k <= 3
  {
    if k == 0 then i else Narrow(b, r, NarrowThrough(b, r, i, k - 1), AxisOrder[k - 1])
  }

  /** The candidate interval stayed non-empty after each of the first `k` axes. */
  predicate Survives(b: AABB, r: Ray, i: I.Interval, k: nat)
    requires k <= 3
  {
    k == 0 || (Survives(b, r, i, k - 1) && NarrowThrough(b, r, i, k).min < NarrowThrough(b, r, i, k).max)
  }

  /** Surviving more axes implies surviving fewer. */
  lemma {:induction false} SurvivesPrefix(b: AABB, r: Ray, i: I.Interval, k: nat, j: nat)
    requires k <= j <= 3
    requires Survives(b, r, i, j)
    ensures Survives(b, r, i, k)
  {
    if k < j {
      SurvivesPrefix(b, r, i, k, j - 1);
    }
  }

  /** What `intersect` answers: non-empty after all three axes. */
  predicate SlabHits(b: AABB, r: Ray, i: I.Interval) {
    Survives(b, r, i, 3)
  }

  /** The body of the loop in `AABB::intersect` for one axis: updates the
      ends of the candidate interval `i` in place. */
  method NarrowAxis(lo: real, hi: real, o: real, d: real, i0: I.Interval) returns (i: I.Interval)
    ensures i == NarrowSlab(lo, hi, o, d, i0)
  {
    i := i0;
    if d == 0.0 {
      if !((lo - o < 0.0 && 0.0 < hi - o) || (hi - o <= 0.0 && 0.0 <= lo - o)) {
        i := I.Interval(Max(i.min, i.max), i.max);
      }
      assert i == Parallel(lo, hi, o, i0);
      assert i == NarrowSlab(lo, hi, o, d, i0);
    } else {
      var adinv := 1.0 / d;
      var t0 := SlabDist(lo, o, adinv);
      var t1 := SlabDist(hi, o, adinv);
      i := ClipEnds(i, t0, t1);
    }
  }

  /** The in-place update of the two ends once t0 and t1 are known. */
  method ClipEnds(i0: I.Interval, t0: real, t1: real) returns (i: I.Interval)
    ensures i == Clip(i0, t0, t1)
  {
    i := i0;
    if t0 < t1 {
      if t0 > i.min { i := i.(min := t0); }
      if t1 < i.max { i := i.(max := t1); }
    } else {
      if t1 > i.min { i := i.(min := t1); }
      if t0 < i.max { i := i.(max := t0); }
    }
  }

  /** `AABB::intersect`: narrows a local copy of `i` axis by axis and gives up
      as soon as it is empty. */
  method Intersect(b: AABB, r: Ray, i0: I.Interval) returns (hit: bool)
    ensures hit == SlabHits(b, r, i0)
  {
    var i := i0;
    var k := 0;
    while k < 3
      invariant 0 <= k <= 3
      invariant i == NarrowThrough(b, r, i0, k)
      invariant Survives(b, r, i0, k)
    {
      var a := AxisOrder[k];
      var axi := Idx(b, a);
      i := NarrowAxis(axi.min, axi.max, VecIdx(a, r.origin), VecIdx(a, r.dir), i);
      if i.max <= i.min {
        if Survives(b, r, i0, 3) {
          SurvivesPrefix(b, r, i0, k + 1, 3);
        }
        return false;
      }
      k := k + 1;
    }
    return true;
  }

  /** The candidate interval only ever shrinks. */
  lemma {:induction false} NarrowThroughShrinks(b: AABB, r: Ray, i: I.Interval, k: nat)
    requires k <= 3
    ensures I.Covers(i, NarrowThrough(b, r, i, k))
  {
    if k > 0 {
      NarrowThroughShrinks(b, r, i, k - 1);
      I.CoversTransitive(i, NarrowThrough(b, r, i, k - 1), NarrowThrough(b, r, i, k));
    }
  }

  /** Multiplying by 1/d and comparing is comparing after multiplying by d,
      with the order reversed for negative d. */
  lemma MulInvCompare(x: real, d: real, t: real)
    requires d != 0.0
    ensures 0.0 < d ==> (x * (1.0 / d) <= t <==> x <= t * d) && (t <= x * (1.0 / d) <==> t * d <= x)
    ensures 0.0 < d ==> (x * (1.0 / d) < t <==> x < t * d) && (t < x * (1.0 / d) <==> t * d < x)
    ensures d < 0.0 ==> (x * (1.0 / d) <= t <==> t * d <= x) && (t <= x * (1.0 / d) <==> x <= t * d)
    ensures d < 0.0 ==> (x * (1.0 / d) < t <==> t * d < x) && (t < x * (1.0 / d) <==> x < t * d)
  {
    var q := x * (1.0 / d);
    assert q * d == x;
    assert (t - q) * d == t * d - x;
    if 0.0 < d {
      assert 0.0 < t - q ==> 0.0 < (t - q) * d;
      assert t - q < 0.0 ==> (t - q) * d < 0.0;
    } else {
      assert 0.0 < t - q ==> (t - q) * d < 0.0;
      assert t - q < 0.0 ==> 0.0 < (t - q) * d;
    }
  }

  /** Where the slab distance lies relative to t says on which side of the
      face the ray point at t lies. */
  lemma SlabDistCompare(bound: real, o: real, d: real, t: real)
    requires d != 0.0
    ensures 0.0 < d ==> (SlabDist(bound, o, 1.0 / d) <= t <==> bound <= o + t * d)
    ensures 0.0 < d ==> (t <= SlabDist(bound, o, 1.0 / d) <==> o + t * d <= bound)
    ensures 0.0 < d ==> (SlabDist(bound, o, 1.0 / d) < t <==> bound < o + t * d)
    ensures 0.0 < d ==> (t < SlabDist(bound, o, 1.0 / d) <==> o + t * d < bound)
    ensures d < 0.0 ==> (SlabDist(bound, o, 1.0 / d) <= t <==> o + t * d <= bound)
    ensures d < 0.0 ==> (t <= SlabDist(bound, o, 1.0 / d) <==> bound <= o + t * d)
    ensures d < 0.0 ==> (SlabDist(bound, o, 1.0 / d) < t <==> o + t * d < bound)
    ensures d < 0.0 ==> (t < SlabDist(bound, o, 1.0 / d) <==> bound < o + t * d)
  {
    MulInvCompare(bound - o, d, t);
  }

  /** Soundness of one axis: every distance left in a non-empty narrowed
      interval puts the coordinate `o + t d` inside [lo, hi]. */
  lemma {:induction false} NarrowSlabSound(lo: real, hi: real, o: real, d: real, i: I.Interval, t: real)
    requires lo <= hi
    requires NarrowSlab(lo, hi, o, d, i).min < NarrowSlab(lo, hi, o, d, i).max
    requires I.Contains(NarrowSlab(lo, hi, o, d, i), t)
    ensures lo <= o + t * d <= hi
  {
    if d != 0.0 {
      var t0 := SlabDist(lo, o, 1.0 / d);
      var t1 := SlabDist(hi, o, 1.0 / d);
      assert NarrowSlab(lo, hi, o, d, i) == Clip(i, t0, t1);
      SlabDistCompare(lo, o, d, t);
      SlabDistCompare(hi, o, d, t);
      if t0 < t1 {
        assert t0 <= t <= t1;
      } else {
        assert t1 <= t <= t0;
      }
    }
  }

  /** Completeness of one axis: a distance strictly inside the candidate
      interval whose coordinate is strictly inside (lo, hi) stays strictly
      inside the narrowed interval. */
  lemma {:induction false} NarrowSlabComplete(lo: real, hi: real, o: real, d: real, i: I.Interval, t: real)
    requires i.min < t < i.max
    requires lo < o + t * d < hi
    ensures NarrowSlab(lo, hi, o, d, i).min < t < NarrowSlab(lo, hi, o, d, i).max
  {
    if d == 0.0 {
      assert t * d == 0.0;
      assert NarrowSlab(lo, hi, o, d, i) == i;
    } else {
      var t0 := SlabDist(lo, o, 1.0 / d);
      var t1 := SlabDist(hi, o, 1.0 / d);
      assert NarrowSlab(lo, hi, o, d, i) == Clip(i, t0, t1);
      SlabDistCompare(lo, o, d, t);
      SlabDistCompare(hi, o, d, t);
      if 0.0 < d {
        assert t0 < t < t1;
      } else {
        assert t1 < t < t0;
      }
    }
  }

  /** The coordinate of a ray point along an axis. */
  lemma AtCoordinate(r: Ray, a: Axis, t: real)
    ensures VecIdx(a, At(r, t)) == VecIdx(a, r.origin) + t * VecIdx(a, r.dir)
  {
    VecIdxLinear(a, r.origin, Scale(r.dir, t), t);
    VecIdxLinear(a, r.dir, r.dir, t);
  }

  lemma NarrowSound(b: AABB, r: Ray, i: I.Interval, a: Axis, t: real)
    requires Idx(b, a).min <= Idx(b, a).max
    requires Narrow(b, r, i, a).min < Narrow(b, r, i, a).max
    requires I.Contains(Narrow(b, r, i, a), t)
    ensures I.Contains(Idx(b, a), VecIdx(a, At(r, t)))
  {
    NarrowSlabSound(Idx(b, a).min, Idx(b, a).max, VecIdx(a, r.origin), VecIdx(a, r.dir), i, t);
    AtCoordinate(r, a, t);
  }

  lemma NarrowComplete(b: AABB, r: Ray, i: I.Interval, a: Axis, t: real)
    requires i.min < t < i.max
    requires Idx(b, a).min < VecIdx(a, At(r, t)) < Idx(b, a).max
    ensures Narrow(b, r, i, a).min < t < Narrow(b, r, i, a).max
  {
    AtCoordinate(r, a, t);
    NarrowSlabComplete(Idx(b, a).min, Idx(b, a).max, VecIdx(a, r.origin), VecIdx(a, r.dir), i, t);
  }

  /** The three steps of the slab test written out. */
  lemma SlabSteps(b: AABB, r: Ray, i: I.Interval)
    ensures NarrowThrough(b, r, i, 1) == Narrow(b, r, i, X)
    ensures NarrowThrough(b, r, i, 2) == Narrow(b, r, NarrowThrough(b, r, i, 1), Y)
    ensures NarrowThrough(b, r, i, 3) == Narrow(b, r, NarrowThrough(b, r, i, 2), Z)
    ensures SlabHits(b, r, i) <==>
      NarrowThrough(b, r, i, 1).min < NarrowThrough(b, r, i, 1).max &&
      NarrowThrough(b, r, i, 2).min < NarrowThrough(b, r, i, 2).max &&
      NarrowThrough(b, r, i, 3).min < NarrowThrough(b, r, i, 3).max
  {
    assert AxisOrder[0] == X && AxisOrder[1] == Y && AxisOrder[2] == Z;
    assert NarrowThrough(b, r, i, 0) == i;
    assert Survives(b, r, i, 1) <==> NarrowThrough(b, r, i, 1).min < NarrowThrough(b, r, i, 1).max;
    assert Survives(b, r, i, 2) <==> Survives(b, r, i, 1) && NarrowThrough(b, r, i, 2).min < NarrowThrough(b, r, i, 2).max;
    assert Survives(b, r, i, 3) <==> Survives(b, r, i, 2) && NarrowThrough(b, r, i, 3).min < NarrowThrough(b, r, i, 3).max;
  }

  /** If the slab test passes on a well-formed box, some distance in the
      original range puts the ray point inside the box. */
  lemma {:induction false} SlabSound(b: AABB, r: Ray, i: I.Interval)
    requires WellFormed(b)
    requires SlabHits(b, r, i)
    ensures exists t :: I.Contains(i, t) && ContainsPoint(b, At(r, t))
  {
    SlabSteps(b, r, i);
    var n1 := NarrowThrough(b, r, i, 1);
    var n2 := NarrowThrough(b, r, i, 2);
    var n3 := NarrowThrough(b, r, i, 3);
    var t := n3.min;
    assert I.Contains(n3, t);
    assert I.Contains(n2, t);
    assert I.Contains(n1, t);
    assert I.Contains(i, t);
    NarrowSound(b, r, i, X, t);
    NarrowSound(b, r, n1, Y, t);
    NarrowSound(b, r, n2, Z, t);
    assert ContainsPoint(b, At(r, t));
  }

  /** If some distance strictly inside the range puts the ray point strictly
      inside the box, the slab test passes. */
  lemma {:induction false} SlabComplete(b: AABB, r: Ray, i: I.Interval, t: real)
    requires i.min < t < i.max
    requires StrictlyInside(b, At(r, t))
    ensures SlabHits(b, r, i)
  {
    SlabSteps(b, r, i);
    var n1 := NarrowThrough(b, r, i, 1);
    var n2 := NarrowThrough(b, r, i, 2);
    var p := At(r, t);
    assert Idx(b, X).min < VecIdx(X, p) < Idx(b, X).max;
    assert Idx(b, Y).min < VecIdx(Y, p) < Idx(b, Y).max;
    assert Idx(b, Z).min < VecIdx(Z, p) < Idx(b, Z).max;
    NarrowComplete(b, r, i, X, t);
    NarrowComplete(b, r, n1, Y, t);
    NarrowComplete(b, r, n2, Z, t);
  }
  // ----- The closed slab test -----

  /** The zero-direction case with closed slabs: `i` is kept exactly when
      `o` lies in [lo, hi], and emptied otherwise. */
  function ParallelClosed(lo: real, hi: real, o: real, i: I.Interval): (n: I.Interval)
    ensures lo <= o <= hi ==> n == i
    ensures !(lo <= o <= hi) ==> n.max < n.min
  {
    if lo <= o <= hi then i else I.Interval(i.max + 1.0, i.max)
  }

  /** One axis of the closed slab test on scalars. */
  function NarrowSlabClosed(lo: real, hi: real, o: real, d: real, i: I.Interval): (n: I.Interval)
    ensures n.min <= n.max ==> I.Covers(i, n)
  {
    if d == 0.0 then ParallelClosed(lo, hi, o, i)
    else
      var adinv := 1.0 / d;
      Clip(i, SlabDist(lo, o, adinv), SlabDist(hi, o, adinv))
  }

  function NarrowClosed(b: AABB, r: Ray, i: I.Interval, a: Axis): (n: I.Interval)
    ensures n.min <= n.max ==> I.Covers(i, n)
  {
    NarrowSlabClosed(Idx(b, a).min, Idx(b, a).max, VecIdx(a, r.origin), VecIdx(a, r.dir), i)
  }

  /** The slab test with closed slabs and a closed candidate interval: the
      ray is rejected only once the interval is empty (max < min). */
  predicate SlabHitsClosed(b: AABB, r: Ray, i: I.Interval) {
    var n1 := NarrowClosed(b, r, i, X);
    var n2 := NarrowClosed(b, r, n1, Y);
    var n3 := NarrowClosed(b, r, n2, Z);
    n1.min <= n1.max && n2.min <= n2.max && n3.min <= n3.max
  }

  /** Soundness of one closed axis: a distance left in the narrowed interval
      puts the coordinate inside [lo, hi]. */
  lemma {:induction false} NarrowSlabClosedSound(lo: real, hi: real, o: real, d: real, i: I.Interval, t: real)
    requires lo <= hi
    requires I.Contains(NarrowSlabClosed(lo, hi, o, d, i), t)
    ensures lo <= o + t * d <= hi
  {
    if d == 0.0 {
      assert t * d == 0.0;
    } else {
      var t0 := SlabDist(lo, o, 1.0 / d);
      var t1 := SlabDist(hi, o, 1.0 / d);
      assert NarrowSlabClosed(lo, hi, o, d, i) == Clip(i, t0, t1);
      SlabDistCompare(lo, o, d, t);
      SlabDistCompare(hi, o, d, t);
      if t0 < t1 {
        assert t0 <= t <= t1;
      } else {
        assert t1 <= t <= t0;
      }
    }
  }

  /** Completeness of one closed axis: a distance in the candidate interval
      whose coordinate lies in [lo, hi] stays in the narrowed interval. */
  lemma {:induction false} NarrowSlabClosedComplete(lo: real, hi: real, o: real, d: real, i: I.Interval, t: real)
    requires I.Contains(i, t)
    requires lo <= o + t * d <= hi
    ensures I.Contains(NarrowSlabClosed(lo, hi, o, d, i), t)
  {
    if d == 0.0 {
      assert t * d == 0.0;
      assert NarrowSlabClosed(lo, hi, o, d, i) == i;
    } else {
      var t0 := SlabDist(lo, o, 1.0 / d);
      var t1 := SlabDist(hi, o, 1.0 / d);
      assert NarrowSlabClosed(lo, hi, o, d, i) == Clip(i, t0, t1);
      SlabDistCompare(lo, o, d, t);
      SlabDistCompare(hi, o, d, t);
      if 0.0 < d {
        assert t0 <= t <= t1;
      } else {
        assert t1 <= t <= t0;
      }
    }
  }

  lemma NarrowClosedSound(b: AABB, r: Ray, i: I.Interval, a: Axis, t: real)
    requires Idx(b, a).min <= Idx(b, a).max
    requires I.Contains(NarrowClosed(b, r, i, a), t)
    ensures I.Contains(Idx(b, a), VecIdx(a, At(r, t)))
  {
    NarrowSlabClosedSound(Idx(b, a).min, Idx(b, a).max, VecIdx(a, r.origin), VecIdx(a, r.dir), i, t);
    AtCoordinate(r, a, t);
  }

  lemma NarrowClosedComplete(b: AABB, r: Ray, i: I.Interval, a: Axis, t: real)
    requires I.Contains(i, t)
    requires I.Contains(Idx(b, a), VecIdx(a, At(r, t)))
    ensures I.Contains(NarrowClosed(b, r, i, a), t)
  {
    AtCoordinate(r, a, t);
    NarrowSlabClosedComplete(Idx(b, a).min, Idx(b, a).max, VecIdx(a, r.origin), VecIdx(a, r.dir), i, t);
  }

  /** On a well-formed box the closed test passes only if some distance in
      the range puts the ray point inside the box. */
  lemma {:induction false} SlabClosedSound(b: AABB, r: Ray, i: I.Interval)
    requires WellFormed(b)
    requires SlabHitsClosed(b, r, i)
    ensures exists t :: I.Contains(i, t) && ContainsPoint(b, At(r, t))
  {
    var n1 := NarrowClosed(b, r, i, X);
    var n2 := NarrowClosed(b, r, n1, Y);
    var n3 := NarrowClosed(b, r, n2, Z);
    var t := n3.min;
    assert I.Contains(n3, t) && I.Contains(n2, t) && I.Contains(n1, t) && I.Contains(i, t);
    NarrowClosedSound(b, r, i, X, t);
    NarrowClosedSound(b, r, n1, Y, t);
    NarrowClosedSound(b, r, n2, Z, t);
    assert ContainsPoint(b, At(r, t));
  }

  /** The closed test never rejects a ray that has a point of the box at a
      distance in the range, on the boundary included. */
  lemma {:induction false} SlabClosedComplete(b: AABB, r: Ray, i: I.Interval, t: real)
    requires I.Contains(i, t)
    requires ContainsPoint(b, At(r, t))
    ensures SlabHitsClosed(b, r, i)
  {
    var p := At(r, t);
    assert I.Contains(Idx(b, X), VecIdx(X, p)) && I.Contains(Idx(b, Y), VecIdx(Y, p)) && I.Contains(Idx(b, Z), VecIdx(Z, p));
    var n1 := NarrowClosed(b, r, i, X);
    var n2 := NarrowClosed(b, r, n1, Y);
    NarrowClosedComplete(b, r, i, X, t);
    NarrowClosedComplete(b, r, n1, Y, t);
    NarrowClosedComplete(b, r, n2, Z, t);
  }

  /** The unit box [-1, 1]^3, whose axes are long enough to need no padding. */
  const UnitCube: AABB := AABB(I.Interval(-1.0, 1.0), I.Interval(-1.0, 1.0), I.Interval(-1.0, 1.0))

  /** As written, a ray that runs along a face of the box is rejected even
      though it meets the box: the zero direction component with the origin
      on the face's plane gives 0 * inf = NaN and empties the interval. The
      closed test accepts it. */
  lemma FaceRayRejected()
    ensures var r := Ray(Vec3(-5.0, 0.0, 1.0), Vec3(1.0, 0.0, 0.0));
            var i := I.Interval(0.001, 100.0);
            I.Contains(i, 5.0) && ContainsPoint(UnitCube, At(r, 5.0)) &&
            !SlabHits(UnitCube, r, i) && SlabHitsClosed(UnitCube, r, i)
  {
    var r := Ray(Vec3(-5.0, 0.0, 1.0), Vec3(1.0, 0.0, 0.0));
    var i := I.Interval(0.001, 100.0);
    SlabSteps(UnitCube, r, i);
    assert NarrowThrough(UnitCube, r, i, 1) == I.Interval(4.0, 6.0);
    assert NarrowThrough(UnitCube, r, i, 2) == I.Interval(4.0, 6.0);
    assert NarrowThrough(UnitCube, r, i, 3) == I.Interval(6.0, 6.0);
    SlabClosedComplete(UnitCube, r, i, 5.0);
  }

  /** As written, a ray that enters the box exactly at the end of the range
      is rejected: the narrowed interval is the single point [4, 4], and the
      test `i.max <= i.min` treats it as empty. The closed test accepts it. */
  lemma EndOfRangeRejected()
    ensures var r := Ray(Vec3(0.0, 0.0, 5.0), Vec3(0.0, 0.0, -1.0));
            var i := I.Interval(0.001, 4.0);
            I.Contains(i, 4.0) && ContainsPoint(UnitCube, At(r, 4.0)) &&
            !SlabHits(UnitCube, r, i) && SlabHitsClosed(UnitCube, r, i)
  {
    var r := Ray(Vec3(0.0, 0.0, 5.0), Vec3(0.0, 0.0, -1.0));
    var i := I.Interval(0.001, 4.0);
    SlabSteps(UnitCube, r, i);
    assert NarrowThrough(UnitCube, r, i, 2) == i;
    assert NarrowThrough(UnitCube, r, i, 3) == I.Interval(4.0, 4.0);
    SlabClosedComplete(UnitCube, r, i, 4.0);
  }
}
