/** Spheres (geom/sphere.rs): a cached bounding box, then the half-b form of
    the ray/sphere quadratic. */
module Spheres {
  import opened Vectors
  import I = Intervals
  import opened Rays
  import B = Boxes
  import opened Hits
  import opened Options

  datatype Sphere = Sphere(center: Vec3, radius: real, material: MaterialRef, bbox: B.AABB)

  /** `Sphere::new`: caches the box spanned by center -/+ (r, r, r). */
  function NewSphere(center: Vec3, radius: real, material: MaterialRef): (s: Sphere)
    ensures s.center == center && s.radius == radius && s.material == material
    ensures s.bbox == B.FromPoints(Sub(center, Vec3(radius, radius, radius)), Add(center, Vec3(radius, radius, radius)))
  {
    var rad3 := Vec3(radius, radius, radius);
    Sphere(center, radius, material, B.FromPoints(Sub(center, rad3), Add(center, rad3)))
  }

  /** h = dir . (center - origin) */
  function Half(s: Sphere, ray: Ray): real {
    Dot(ray.dir, Sub(s.center, ray.origin))
  }

  /** c = |center - origin|^2 - r^2 */
  function Offset(s: Sphere, ray: Ray): real {
    NormSquared(Sub(s.center, ray.origin)) - s.radius * s.radius
  }

  function Discriminant(s: Sphere, ray: Ray): real {
    Half(s, ray) * Half(s, ray) - Offset(s, ray)
  }

  /** The part of `Sphere::intersect` after the box test: the nearer root
      if it lies in `i`, otherwise the farther one if that does. The hit's uv
      slot is filled with (0, 0): this version of the program passes the ray
      there instead. */
  function Solve(sqrt: real -> real, s: Sphere, ray: Ray, i: I.Interval): (r: Option<Intersection>)
    ensures Discriminant(s, ray) < 0.0 ==> r.None?
    ensures r.Some? ==>
      I.Contains(i, r.value.dist) &&
      r.value.point == At(ray, r.value.dist) &&
      r.value.normal == Normalize(sqrt, Sub(r.value.point, s.center)) &&
      r.value.material == s.material
    ensures r.Some? ==>
      var h := Half(s, ray);
      var root := sqrt(Discriminant(s, ray));
      r.value.dist == h - root || (r.value.dist == h + root && !I.Contains(i, h - root))
    ensures 0.0 <= Discriminant(s, ray) &&
      (I.Contains(i, Half(s, ray) - sqrt(Discriminant(s, ray))) || I.Contains(i, Half(s, ray) + sqrt(Discriminant(s, ray))))
      ==> r.Some?
  {
    var h := Half(s, ray);
    var discriminant := Discriminant(s, ray);
    if discriminant < 0.0 then None
    else
      var near := h - sqrt(discriminant);
      var dist := if I.Contains(i, near) then near else h + sqrt(discriminant);
      if !I.Contains(i, dist) then None
      else
        var point := At(ray, dist);
        var normal := Normalize(sqrt, Sub(point, s.center));
        Some(Intersection(point, dist, normal, s.material, UV(0.0, 0.0)))
  }

  /** `Sphere::intersect`: the cached box's slab test, then the quadratic. */
  function Intersect(sqrt: real -> real, s: Sphere, ray: Ray, i: I.Interval): (r: Option<Intersection>)
    ensures !B.SlabHits(s.bbox, ray, i) ==> r.None?
    ensures Discriminant(s, ray) < 0.0 ==> r.None?
    ensures r.Some? ==>
      I.Contains(i, r.value.dist) &&
      r.value.point == At(ray, r.value.dist) &&
      r.value.normal == Normalize(sqrt, Sub(r.value.point, s.center)) &&
      r.value.material == s.material
    ensures r.Some? ==>
      var h := Half(s, ray);
      var root := sqrt(Discriminant(s, ray));
      r.value.dist == h - root || (r.value.dist == h + root && !I.Contains(i, h - root))
    ensures B.SlabHits(s.bbox, ray, i) && 0.0 <= Discriminant(s, ray) &&
      (I.Contains(i, Half(s, ray) - sqrt(Discriminant(s, ray))) || I.Contains(i, Half(s, ray) + sqrt(Discriminant(s, ray))))
      ==> r.Some?
  {
    if !B.SlabHits(s.bbox, ray, i) then None else Solve(sqrt, s, ray, i)
  }

  /** The sphere query behind the closed slab test, which never rejects a
      ray that meets the box within `i`. */
  function IntersectCorrected(sqrt: real -> real, s: Sphere, ray: Ray, i: I.Interval): (r: Option<Intersection>)
    ensures !B.SlabHitsClosed(s.bbox, ray, i) ==> r.None?
    ensures r.Some? ==>
      I.Contains(i, r.value.dist) &&
      r.value.point == At(ray, r.value.dist) &&
      r.value.normal == Normalize(sqrt, Sub(r.value.point, s.center)) &&
      r.value.material == s.material
    ensures B.SlabHitsClosed(s.bbox, ray, i) && 0.0 <= Discriminant(s, ray) &&
      (I.Contains(i, Half(s, ray) - sqrt(Discriminant(s, ray))) || I.Contains(i, Half(s, ray) + sqrt(Discriminant(s, ray))))
      ==> r.Some?
    ensures r.Some? ==>
      var h := Half(s, ray);
      var root := sqrt(Discriminant(s, ray));
      r.value.dist == h - root || (r.value.dist == h + root && !I.Contains(i, h - root))
  {
    if !B.SlabHitsClosed(s.bbox, ray, i) then None else Solve(sqrt, s, ray, i)
  }

  lemma NormSquaredSub(a: Vec3, b: Vec3)
    ensures NormSquared(Sub(a, b)) == NormSquared(a) - 2.0 * Dot(a, b) + NormSquared(b)
  {
  }

  lemma ScaledUnit(d: Vec3, t: real, w: Vec3)
    requires IsUnit(d)
    ensures NormSquared(Scale(d, t)) == t * t
    ensures Dot(Scale(d, t), w) == t * Dot(d, w)
  {
    assert NormSquared(Scale(d, t)) == t * t * NormSquared(d);
  }

  /** With a unit direction, |at(t) - center|^2 = t^2 - 2th + |center - origin|^2. */
  lemma {:induction false} DistanceFromCenter(s: Sphere, ray: Ray, t: real)
    requires IsUnit(ray.dir)
    ensures NormSquared(Sub(At(ray, t), s.center)) == t * t - 2.0 * t * Half(s, ray) + NormSquared(Sub(s.center, ray.origin))
  {
    var oc := Sub(s.center, ray.origin);
    var td := Scale(ray.dir, t);
    assert Sub(At(ray, t), s.center) == Sub(td, oc);
    NormSquaredSub(td, oc);
    ScaledUnit(ray.dir, t, oc);
  }

  /** With a unit direction the points at both roots lie on the sphere. */
  lemma {:induction false} RootsOnSurface(sqrt: real -> real, s: Sphere, ray: Ray, t: real)
    requires IsSqrt(sqrt) && IsUnit(ray.dir) && 0.0 <= Discriminant(s, ray)
    requires t == Half(s, ray) - sqrt(Discriminant(s, ray)) || t == Half(s, ray) + sqrt(Discriminant(s, ray))
    ensures NormSquared(Sub(At(ray, t), s.center)) == s.radius * s.radius
  {
    var h := Half(s, ray);
    var root := sqrt(Discriminant(s, ray));
    assert root * root == Discriminant(s, ray);
    DistanceFromCenter(s, ray, t);
    assert (t - h) * (t - h) == root * root;
    assert t * t - 2.0 * t * h == (t - h) * (t - h) - h * h;
  }

  /** With a unit direction a returned hit lies on the sphere. */
  lemma HitOnSurface(sqrt: real -> real, s: Sphere, ray: Ray, i: I.Interval)
    requires IsSqrt(sqrt) && IsUnit(ray.dir)
    requires Intersect(sqrt, s, ray, i).Some?
    ensures NormSquared(Sub(Intersect(sqrt, s, ray, i).value.point, s.center)) == s.radius * s.radius
  {
    RootsOnSurface(sqrt, s, ray, Intersect(sqrt, s, ray, i).value.dist);
  }

  /** Conversely every distance at which the ray meets the sphere is one of
      the two roots, so a returned hit is the nearest meeting within `i`. */
  lemma {:induction false} SurfaceAtRoot(sqrt: real -> real, s: Sphere, ray: Ray, t: real)
    requires IsSqrt(sqrt) && IsUnit(ray.dir)
    requires NormSquared(Sub(At(ray, t), s.center)) == s.radius * s.radius
    ensures 0.0 <= Discriminant(s, ray)
    ensures t == Half(s, ray) - sqrt(Discriminant(s, ray)) || t == Half(s, ray) + sqrt(Discriminant(s, ray))
  {
    var h := Half(s, ray);
    DistanceFromCenter(s, ray, t);
    QuadraticRoot(t, h, NormSquared(Sub(s.center, ray.origin)), s.radius * s.radius);
    var e := t - h;
    assert Discriminant(s, ray) == e * e;
    SqrtOfSquare(sqrt, e);
  }

  lemma QuadraticRoot(t: real, h: real, n: real, r2: real)
    requires t * t - 2.0 * t * h + n == r2
    ensures (t - h) * (t - h) == h * h - (n - r2)
  {
  }

  /** The returned distance is the smallest distance in `i` at which the ray
      meets the sphere. */
  lemma NearestMeeting(sqrt: real -> real, s: Sphere, ray: Ray, i: I.Interval, t: real)
    requires IsSqrt(sqrt) && IsUnit(ray.dir)
    requires Intersect(sqrt, s, ray, i).Some?
    requires I.Contains(i, t) && NormSquared(Sub(At(ray, t), s.center)) == s.radius * s.radius
    ensures Intersect(sqrt, s, ray, i).value.dist <= t
  {
    SurfaceAtRoot(sqrt, s, ray, t);
    SqrtZero(sqrt, Discriminant(s, ray));
  }

  lemma SquareLeAbs(a: real, b: real)
    requires a * a <= b * b
    ensures Abs(a) <= Abs(b)
  {
    var x := Abs(a);
    var y := Abs(b);
    assert x * x == a * a && y * y == b * b;
    if y < x {
      assert Times(x, x) - Times(y, y) == Times(x - y, x + y);
      TimesPos(x - y, x + y);
    }
  }

  lemma ComponentSquares(q: Vec3, n: real)
    requires NormSquared(q) == n
    ensures q.x * q.x <= n && q.y * q.y <= n && q.z * q.z <= n
  {
    assert 0.0 <= q.x * q.x && 0.0 <= q.y * q.y && 0.0 <= q.z * q.z;
  }

  lemma WithinRadius(c: real, p: real, r: real)
    requires (p - c) * (p - c) <= r * r
    ensures Min(c - r, c + r) <= p <= Max(c - r, c + r)
  {
    SquareLeAbs(p - c, r);
  }

  /** Every point of the sphere lies in its cached box. */
  lemma SurfaceInBox(s: Sphere, p: Vec3)
    requires s == NewSphere(s.center, s.radius, s.material)
    requires NormSquared(Sub(p, s.center)) == s.radius * s.radius
    ensures B.ContainsPoint(s.bbox, p)
  {
    BallInBox(s.center, s.radius, p);
  }

  lemma {:induction false} BallInBox(c: Vec3, r: real, p: Vec3)
    requires NormSquared(Sub(p, c)) == r * r
    ensures B.ContainsPoint(B.FromPoints(Sub(c, Vec3(r, r, r)), Add(c, Vec3(r, r, r))), p)
  {
    ComponentSquares(Sub(p, c), r * r);
    WithinRadius(c.x, p.x, r);
    WithinRadius(c.y, p.y, r);
    WithinRadius(c.z, p.z, r);
    B.FromPointsContains(Sub(c, Vec3(r, r, r)), Add(c, Vec3(r, r, r)), p);
  }

  /** The point of the sphere that a ray at distance t reaches. */
  predicate Meets(s: Sphere, ray: Ray, t: real) {
    NormSquared(Sub(At(ray, t), s.center)) == s.radius * s.radius
  }

  /** With the closed slab test, a ray that meets the sphere at a distance in
      `i` gets a hit, at that distance or nearer. */
  lemma {:induction false} CorrectedFindsMeeting(sqrt: real -> real, s: Sphere, ray: Ray, i: I.Interval, t: real)
    requires IsSqrt(sqrt) && IsUnit(ray.dir)
    requires s == NewSphere(s.center, s.radius, s.material)
    requires I.Contains(i, t) && Meets(s, ray, t)
    ensures IntersectCorrected(sqrt, s, ray, i).Some?
    ensures IntersectCorrected(sqrt, s, ray, i).value.dist <= t
  {
    SurfaceInBox(s, At(ray, t));
    B.SlabClosedComplete(s.bbox, ray, i, t);
    SurfaceAtRoot(sqrt, s, ray, t);
    SqrtZero(sqrt, Discriminant(s, ray));
  }

  /** The corrected query answers exactly when the ray meets the sphere at
      some distance in `i`. */
  lemma {:induction false} CorrectedIffMeets(sqrt: real -> real, s: Sphere, ray: Ray, i: I.Interval)
    requires IsSqrt(sqrt) && IsUnit(ray.dir)
    requires s == NewSphere(s.center, s.radius, s.material)
    ensures IntersectCorrected(sqrt, s, ray, i).Some? <==> exists t :: I.Contains(i, t) && Meets(s, ray, t)
  {
    var r := IntersectCorrected(sqrt, s, ray, i);
    if r.Some? {
      RootsOnSurface(sqrt, s, ray, r.value.dist);
      assert I.Contains(i, r.value.dist) && Meets(s, ray, r.value.dist);
    }
    if exists t :: I.Contains(i, t) && Meets(s, ray, t) {
      var t :| I.Contains(i, t) && Meets(s, ray, t);
      CorrectedFindsMeeting(sqrt, s, ray, i, t);
    }
  }

  /** The offset of a point from the centre is non-zero on at least two
      axes: the point is none of the six places where the sphere touches its
      box. */
  predicate OffFaceCentre(s: Sphere, p: Vec3) {
    TwoNonZero(Sub(p, s.center))
  }

  predicate TwoNonZero(q: Vec3) {
    (q.x != 0.0 && q.y != 0.0) || (q.x != 0.0 && q.z != 0.0) || (q.y != 0.0 && q.z != 0.0)
  }

  /** Each squared component of an offset with two non-zero components is
      strictly below the squared length. */
  lemma {:induction false} ComponentsStrict(q: Vec3, r2: real)
    requires NormSquared(q) == r2 && TwoNonZero(q)
    ensures q.x * q.x < r2 && q.y * q.y < r2 && q.z * q.z < r2
  {
    assert q.x * q.x + q.y * q.y + q.z * q.z == r2;
    AxisStrict(q.x, q.y, q.z, r2);
    AxisStrict(q.y, q.x, q.z, r2);
    AxisStrict(q.z, q.x, q.y, r2);
  }

  lemma SquareLtAbs(a: real, b: real)
    requires a * a < b * b
    ensures Abs(a) < Abs(b)
  {
    SquareLeAbs(a, b);
    assert Abs(a) * Abs(a) == a * a && Abs(b) * Abs(b) == b * b;
  }

  lemma StrictlyWithinRadius(c: real, p: real, r: real)
    requires (p - c) * (p - c) < r * r
    ensures Min(c - r, c + r) < p < Max(c - r, c + r)
  {
    SquareLtAbs(p - c, r);
  }

  /** One axis of the sphere is strictly inside the box when another axis
      of the offset is non-zero. */
  lemma AxisStrict(a: real, b: real, c: real, r2: real)
    requires a * a + b * b + c * c == r2
    requires b != 0.0 || c != 0.0
    ensures a * a < r2
  {
    assert 0.0 <= b * b && 0.0 <= c * c;
    if b != 0.0 { SquarePos(b); } else { SquarePos(c); }
  }

  /** A point strictly closer to the centre than the radius on every axis
      lies strictly inside the sphere's box. */
  lemma {:induction false} StrictlyInBallBox(c: Vec3, r: real, p: Vec3)
    requires var q := Sub(p, c); q.x * q.x < r * r && q.y * q.y < r * r && q.z * q.z < r * r
    ensures B.StrictlyInside(B.FromPoints(Sub(c, Vec3(r, r, r)), Add(c, Vec3(r, r, r))), p)
  {
    StrictlyWithinRadius(c.x, p.x, r);
    StrictlyWithinRadius(c.y, p.y, r);
    StrictlyWithinRadius(c.z, p.z, r);
    var lo := Sub(c, Vec3(r, r, r));
    var hi := Add(c, Vec3(r, r, r));
    var box := B.FromPoints(lo, hi);
    assert B.CoversBox(box, B.AABB(I.Interval(Min(lo.x, hi.x), Max(lo.x, hi.x)),
                                   I.Interval(Min(lo.y, hi.y), Max(lo.y, hi.y)),
                                   I.Interval(Min(lo.z, hi.z), Max(lo.z, hi.z))));
  }

  /** A point of the sphere off the six touching places lies strictly
      inside the sphere's box. */
  lemma OffCentreStrictlyInside(s: Sphere, p: Vec3)
    requires s == NewSphere(s.center, s.radius, s.material)
    requires NormSquared(Sub(p, s.center)) == s.radius * s.radius
    requires OffFaceCentre(s, p)
    ensures B.StrictlyInside(s.bbox, p)
  {
    OffCentreInBallBox(s.center, s.radius, p);
  }

  lemma {:induction false} OffCentreInBallBox(c: Vec3, r: real, p: Vec3)
    requires NormSquared(Sub(p, c)) == r * r
    requires TwoNonZero(Sub(p, c))
    ensures B.StrictlyInside(B.FromPoints(Sub(c, Vec3(r, r, r)), Add(c, Vec3(r, r, r))), p)
  {
    ComponentsStrict(Sub(p, c), r * r);
    StrictlyInBallBox(c, r, p);
  }

  /** As written, the box test lets a sphere hit through whenever the
      meeting distance is strictly inside `i` and the point is not one of the
      six places where the sphere touches its box. */
  lemma {:induction false} GateAdmitsOffCentre(s: Sphere, ray: Ray, i: I.Interval, t: real)
    requires s == NewSphere(s.center, s.radius, s.material)
    requires i.min < t < i.max && Meets(s, ray, t)
    requires OffFaceCentre(s, At(ray, t))
    ensures B.SlabHits(s.bbox, ray, i)
  {
    OffCentreStrictlyInside(s, At(ray, t));
    B.SlabComplete(s.bbox, ray, i, t);
  }

  /** As written, the unit sphere misses a ray that touches it at the top of
      its box, (0, 0, 1), at distance 5 in range. */
  lemma TangentRejected(sqrt: real -> real, m: MaterialRef)
    ensures var s := NewSphere(Zero, 1.0, m);
            var ray := Ray(Vec3(-5.0, 0.0, 1.0), Vec3(1.0, 0.0, 0.0));
            var i := I.Interval(0.001, 100.0);
            I.Contains(i, 5.0) && Meets(s, ray, 5.0) && Intersect(sqrt, s, ray, i).None?
  {
    var s := NewSphere(Zero, 1.0, m);
    assert s.bbox == B.UnitCube;
    B.FaceRayRejected();
  }
}
