/** Triangles (geom/triangle.rs) with the Moller-Trumbore test. */
module Triangles {
  import opened Vectors
  import I = Intervals
  import opened Rays
  import B = Boxes
  import opened Hits
  import opened Options

  datatype Triangle = Triangle(a: Vec3, b: Vec3, c: Vec3, normal: Vec3, bbox: B.AABB, material: MaterialRef)

  /** `f64::EPSILON`, 2^-52. */
  const Epsilon: real := 1.0 / 4503599627370496.0

  /** `Triangle::new`: caches the union of the boxes spanned by (a, b) and (a, c). */
  function NewTriangle(a: Vec3, b: Vec3, c: Vec3, n: Vec3, material: MaterialRef): (t: Triangle)
    ensures t.a == a && t.b == b && t.c == c && t.normal == n && t.material == material
    ensures B.ContainsPoint(t.bbox, a) && B.ContainsPoint(t.bbox, b) && B.ContainsPoint(t.bbox, c)
    ensures B.WellFormed(t.bbox)
  {
    var bb1 := B.FromPoints(a, b);
    var bb2 := B.FromPoints(a, c);
    var bbox := B.Union(bb1, bb2);
    B.CoversBoxPoint(bbox, bb1, a);
    B.CoversBoxPoint(bbox, bb1, b);
    B.CoversBoxPoint(bbox, bb2, c);
    Triangle(a, b, c, n, bbox, material)
  }

  /** det = e1 . (dir x e2), with the edges e1 = b - a and e2 = c - a. */
  function Det(tr: Triangle, ray: Ray): real {
    Dot(Sub(tr.b, tr.a), Cross(ray.dir, Sub(tr.c, tr.a)))
  }

  /** The first barycentric coordinate, u = (s . (dir x e2)) / det, with
      s = origin - a. */
  function BaryU(tr: Triangle, ray: Ray): real
    requires Det(tr, ray) != 0.0
  {
    1.0 / Det(tr, ray) * Dot(Sub(ray.origin, tr.a), Cross(ray.dir, Sub(tr.c, tr.a)))
  }

  /** The second barycentric coordinate, v = (dir . (s x e1)) / det. */
  function BaryV(tr: Triangle, ray: Ray): real
    requires Det(tr, ray) != 0.0
  {
    1.0 / Det(tr, ray) * Dot(ray.dir, Cross(Sub(ray.origin, tr.a), Sub(tr.b, tr.a)))
  }

  /** The distance, t = (e2 . (s x e1)) / det. */
  function BaryT(tr: Triangle, ray: Ray): real
    requires Det(tr, ray) != 0.0
  {
    1.0 / Det(tr, ray) * Dot(Sub(tr.c, tr.a), Cross(Sub(ray.origin, tr.a), Sub(tr.b, tr.a)))
  }

  /** `Triangle::intersect`. */
  function Intersect(tr: Triangle, ray: Ray, i: I.Interval): (r: Option<Intersection>)
    ensures -Epsilon < Det(tr, ray) < Epsilon ==> r.None?
    ensures r.Some? <==>
      !(-Epsilon < Det(tr, ray) < Epsilon) &&
      0.0 <= BaryU(tr, ray) <= 1.0 && 0.0 <= BaryV(tr, ray) && BaryU(tr, ray) + BaryV(tr, ray) <= 1.0 &&
      I.Contains(i, BaryT(tr, ray))
    ensures r.Some? ==>
      r.value.dist == BaryT(tr, ray) && r.value.uv == UV(BaryU(tr, ray), BaryV(tr, ray)) &&
      I.Contains(i, r.value.dist) &&
      r.value.point == At(ray, r.value.dist) &&
      r.value.normal == tr.normal && r.value.material == tr.material &&
      0.0 <= r.value.uv.u && 0.0 <= r.value.uv.v && r.value.uv.u + r.value.uv.v <= 1.0
  {
    var det := Det(tr, ray);
    if det > -Epsilon && det < Epsilon then None
    else
      var u := BaryU(tr, ray);
      if u < 0.0 || u > 1.0 then None
      else
        var v := BaryV(tr, ray);
        if v < 0.0 || u + v > 1.0 then None
        else
          var t := BaryT(tr, ray);
          if !I.Contains(i, t) then None
          else Some(Intersection(At(ray, t), t, tr.normal, tr.material, UV(u, v)))
  }

  /** `Triangle::bbox`. */
  function Bbox(tr: Triangle): B.AABB {
    tr.bbox
  }

  /** The box a built triangle reports holds its three vertices. */
  lemma BboxHoldsVertices(a: Vec3, b: Vec3, c: Vec3, n: Vec3, material: MaterialRef)
    ensures var tr := NewTriangle(a, b, c, n, material);
            B.WellFormed(Bbox(tr)) &&
            B.ContainsPoint(Bbox(tr), a) && B.ContainsPoint(Bbox(tr), b) && B.ContainsPoint(Bbox(tr), c)
  {
  }

  /** Cramer's rule for s = -t dir + u e1 + v e2, scaled by the determinant,
      on one coordinate at a time. */
  lemma CramerX(s: Vec3, d: Vec3, e1: Vec3, e2: Vec3)
    ensures Dot(e1, Cross(d, e2)) * s.x ==
      -Dot(e2, Cross(s, e1)) * d.x + Dot(s, Cross(d, e2)) * e1.x + Dot(d, Cross(s, e1)) * e2.x
  {
  }

  lemma CramerY(s: Vec3, d: Vec3, e1: Vec3, e2: Vec3)
    ensures Dot(e1, Cross(d, e2)) * s.y ==
      -Dot(e2, Cross(s, e1)) * d.y + Dot(s, Cross(d, e2)) * e1.y + Dot(d, Cross(s, e1)) * e2.y
  {
  }

  lemma CramerZ(s: Vec3, d: Vec3, e1: Vec3, e2: Vec3)
    ensures Dot(e1, Cross(d, e2)) * s.z ==
      -Dot(e2, Cross(s, e1)) * d.z + Dot(s, Cross(d, e2)) * e1.z + Dot(d, Cross(s, e1)) * e2.z
  {
  }

  /** One coordinate of Cramer's identity divided by the determinant. */
  lemma CoordinateStep(det: real, tt: real, uu: real, vv: real, t: real, u: real, v: real,
                       s: real, d: real, e1: real, e2: real)
    requires det != 0.0
    requires t == 1.0 / det * tt && u == 1.0 / det * uu && v == 1.0 / det * vv
    requires det * s == -tt * d + uu * e1 + vv * e2
    ensures s + t * d == u * e1 + v * e2
  {
    var k := 1.0 / det;
    assert k * det == 1.0;
    assert k * (det * s) == (k * det) * s;
    assert k * (-tt * d + uu * e1 + vv * e2) == -(k * tt) * d + (k * uu) * e1 + (k * vv) * e2;
  }

  /** Dividing Cramer's identity by the determinant: s + t d = u e1 + v e2. */
  lemma {:induction false} SolveVec(s: Vec3, d: Vec3, e1: Vec3, e2: Vec3, det: real, tt: real, uu: real, vv: real,
                                    t: real, u: real, v: real)
    requires det != 0.0
    requires t == 1.0 / det * tt && u == 1.0 / det * uu && v == 1.0 / det * vv
    requires det * s.x == -tt * d.x + uu * e1.x + vv * e2.x
    requires det * s.y == -tt * d.y + uu * e1.y + vv * e2.y
    requires det * s.z == -tt * d.z + uu * e1.z + vv * e2.z
    ensures Add(s, Vectors.Scale(d, t)) == Add(Vectors.Scale(e1, u), Vectors.Scale(e2, v))
  {
    CoordinateStep(det, tt, uu, vv, t, u, v, s.x, d.x, e1.x, e2.x);
    CoordinateStep(det, tt, uu, vv, t, u, v, s.y, d.y, e1.y, e2.y);
    CoordinateStep(det, tt, uu, vv, t, u, v, s.z, d.z, e1.z, e2.z);
  }

  lemma BarycentricCoordinate(a: real, b: real, c: real, o: real, d: real, t: real, u: real, v: real)
    requires (o - a) + t * d == u * (b - a) + v * (c - a)
    ensures o + t * d == (1.0 - u - v) * a + u * b + v * c
  {
  }

  /** Moving the corner a across: o + t d = (1 - u - v) a + u b + v c. */
  lemma {:induction false} BarycentricVec(a: Vec3, b: Vec3, c: Vec3, o: Vec3, d: Vec3, t: real, u: real, v: real)
    requires Add(Sub(o, a), Vectors.Scale(d, t)) == Add(Vectors.Scale(Sub(b, a), u), Vectors.Scale(Sub(c, a), v))
    ensures Add(o, Vectors.Scale(d, t)) == Add(Add(Vectors.Scale(a, 1.0 - u - v), Vectors.Scale(b, u)), Vectors.Scale(c, v))
  {
    BarycentricCoordinate(a.x, b.x, c.x, o.x, d.x, t, u, v);
    BarycentricCoordinate(a.y, b.y, c.y, o.y, d.y, t, u, v);
    BarycentricCoordinate(a.z, b.z, c.z, o.z, d.z, t, u, v);
    var p := Add(o, Vectors.Scale(d, t));
    var q := Add(Add(Vectors.Scale(a, 1.0 - u - v), Vectors.Scale(b, u)), Vectors.Scale(c, v));
    assert p.x == q.x && p.y == q.y && p.z == q.z;
  }

  /** Solving s + t d = u e1 + v e2 by Cramer's rule, with t, u and v
      computed as `intersect` computes them. */
  lemma {:induction false} CramerPoint(s: Vec3, d: Vec3, e1: Vec3, e2: Vec3, t: real, u: real, v: real)
    requires Dot(e1, Cross(d, e2)) != 0.0
    requires u == 1.0 / Dot(e1, Cross(d, e2)) * Dot(s, Cross(d, e2))
    requires v == 1.0 / Dot(e1, Cross(d, e2)) * Dot(d, Cross(s, e1))
    requires t == 1.0 / Dot(e1, Cross(d, e2)) * Dot(e2, Cross(s, e1))
    ensures Add(s, Vectors.Scale(d, t)) == Add(Vectors.Scale(e1, u), Vectors.Scale(e2, v))
  {
    CramerX(s, d, e1, e2);
    CramerY(s, d, e1, e2);
    CramerZ(s, d, e1, e2);
    SolveVec(s, d, e1, e2, Dot(e1, Cross(d, e2)), Dot(e2, Cross(s, e1)), Dot(s, Cross(d, e2)), Dot(d, Cross(s, e1)), t, u, v);
  }

  /** The returned point is the barycentric combination (1 - u - v) a + u b + v c. */
  lemma Barycentric(tr: Triangle, ray: Ray, i: I.Interval)
    requires Intersect(tr, ray, i).Some?
    ensures var h := Intersect(tr, ray, i).value;
      h.point == Add(Add(Vectors.Scale(tr.a, 1.0 - h.uv.u - h.uv.v), Vectors.Scale(tr.b, h.uv.u)), Vectors.Scale(tr.c, h.uv.v))
  {
    var h := Intersect(tr, ray, i).value;
    CramerPoint(Sub(ray.origin, tr.a), ray.dir, Sub(tr.b, tr.a), Sub(tr.c, tr.a), h.dist, h.uv.u, h.uv.v);
    BarycentricVec(tr.a, tr.b, tr.c, ray.origin, ray.dir, h.dist, h.uv.u, h.uv.v);
  }
}
