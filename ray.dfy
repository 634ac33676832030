/** Rays (geom/ray.rs): an origin and a direction that the program keeps
    normalised. The model stores the direction as given; the lemmas that need
    a unit direction say so. */
module Rays {
  import opened Vectors

  datatype Ray = Ray(origin: Vec3, dir: Vec3)

  /** `Ray::new`: the caller passes an already normalised direction. */
  function New(origin: Vec3, dir: Vec3): (r: Ray)
    ensures r.origin == origin && r.dir == dir
  {
    Ray(origin, dir)
  }

  /** `Ray::new_normalize`. */
  function NewNormalize(sqrt: real -> real, origin: Vec3, dir: Vec3): (r: Ray)
    ensures r.origin == origin
    ensures IsSqrt(sqrt) && dir != Zero ==> IsUnit(r.dir) && Scale(r.dir, Norm(sqrt, dir)) == dir
  {
    NormalizeUnitIfSqrt(sqrt, dir);
    New(origin, Normalize(sqrt, dir))
  }

  /** `Ray::through_points`: from `from`, towards `to`. */
  function ThroughPoints(sqrt: real -> real, from: Vec3, to: Vec3): (r: Ray)
    ensures r.origin == from
    ensures r.dir == Normalize(sqrt, Sub(to, from))
    ensures IsSqrt(sqrt) && from != to ==> IsUnit(r.dir) && At(r, Norm(sqrt, Sub(to, from))) == to
  {
    ThroughPointsAims(sqrt, from, to);
    New(from, Normalize(sqrt, Sub(to, from)))
  }

  /** The point at parameter `t`. */
  /** `Ray::at`: the point t direction-lengths from the origin. */
  function At(r: Ray, t: real): Vec3 {
    Add(r.origin, Scale(r.dir, t))
  }

  lemma NormalizeUnitIfSqrt(sqrt: real -> real, dir: Vec3)
    ensures IsSqrt(sqrt) && dir != Zero ==> IsUnit(Normalize(sqrt, dir)) && Scale(Normalize(sqrt, dir), Norm(sqrt, dir)) == dir
  {
    if IsSqrt(sqrt) && dir != Zero { NormalizeUnit(sqrt, dir); }
  }

  lemma ThroughPointsAims(sqrt: real -> real, from: Vec3, to: Vec3)
    ensures var r := Ray(from, Normalize(sqrt, Sub(to, from)));
      IsSqrt(sqrt) && from != to ==> IsUnit(r.dir) && At(r, Norm(sqrt, Sub(to, from))) == to
  {
    if IsSqrt(sqrt) && from != to {
      NormalizeUnit(sqrt, Sub(to, from));
    }
  }

  lemma AtZero(r: Ray)
    ensures At(r, 0.0) == r.origin
  {
  }

  /** Moving along the ray from s to t moves by (t - s) directions. */
  lemma AtDifference(r: Ray, s: real, t: real)
    ensures Sub(At(r, t), At(r, s)) == Scale(r.dir, t - s)
  {
  }

  /** The dot product with a point of the ray is affine in the distance. */
  lemma DotAlong(n: Vec3, r: Ray, t: real)
    ensures Dot(n, At(r, t)) == Dot(n, r.origin) + t * Dot(n, r.dir)
  {
    var p := At(r, t);
    DotAlongScalars(n.x, n.y, n.z, r.origin.x, r.origin.y, r.origin.z, r.dir.x, r.dir.y, r.dir.z,
                    p.x, p.y, p.z, t, Dot(n, r.origin), Dot(n, r.dir));
  }

  lemma DotAlongScalars(n1: real, n2: real, n3: real, o1: real, o2: real, o3: real, d1: real, d2: real, d3: real,
                        p1: real, p2: real, p3: real, t: real, no: real, nd: real)
    requires p1 == o1 + t * d1 && p2 == o2 + t * d2 && p3 == o3 + t * d3
    requires no == n1 * o1 + n2 * o2 + n3 * o3 && nd == n1 * d1 + n2 * d2 + n3 * d3
    ensures n1 * p1 + n2 * p2 + n3 * p3 == no + t * nd
  {
  }

  /** With a unit direction the point at t lies at distance |t| from the origin. */
  lemma {:induction false} AtDistance(sqrt: real -> real, r: Ray, t: real)
    requires IsSqrt(sqrt) && IsUnit(r.dir)
    ensures Norm(sqrt, Sub(At(r, t), r.origin)) == Abs(t)
  {
    assert Sub(At(r, t), r.origin) == Scale(r.dir, t);
    if 0.0 <= t {
      NormOfScaledUnit(sqrt, r.dir, t);
    } else {
      assert Scale(r.dir, t) == Scale(Neg(r.dir), -t);
      assert IsUnit(Neg(r.dir));
      NormOfScaledUnit(sqrt, Neg(r.dir), -t);
    }
  }
}
