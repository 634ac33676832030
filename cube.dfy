/** Cubes (geom/cube.rs): six quads around a centre; a ray takes the nearest
    face it meets. */
module Cubes {
  import opened Vectors
  import I = Intervals
  import opened Rays
  import opened Hits
  import opened Options
  import opened Axes
  import Q = Quads

  /** The corner and edge vectors handed to `Quad::new` for one face. */
  datatype Face = Face(q: Vec3, u: Vec3, v: Vec3)

  datatype Cube = Cube(faces: seq<Q.Quad>)

  /** The axis each face is perpendicular to, in the program's array order
      front, back, top, bottom, right, left. */
  function NormalAxis(k: nat): Axis
    requires k < 6
  {
    [Z, Z, Y, Y, X, X][k]
  }

  /** +1 for the face on the positive side of the centre, -1 otherwise. */
  function Side(k: nat): real
    requires k < 6
  {
    [1.0, -1.0, 1.0, -1.0, 1.0, -1.0][k]
  }

  /** The faces exactly as `Cube::new` builds them, in array order. */
  function FacesAsWritten(c: Vec3, r: real): (fs: seq<Face>)
    ensures |fs| == 6
  {
    var w := 2.0 * r;
    [ Face(Vec3(c.x - r, c.y - r, c.z + r), Vec3(w, 0.0, 0.0), Vec3(0.0, w, 0.0)),  // front
      Face(Vec3(c.x - r, c.y - r, c.z - r), Vec3(0.0, w, 0.0), Vec3(w, 0.0, 0.0)),  // back
      Face(Vec3(c.x - r, c.y + r, c.z - r), Vec3(w, 0.0, 0.0), Vec3(0.0, 0.0, w)),  // top
      Face(Vec3(c.x - r, c.y - r, c.z - r), Vec3(0.0, 0.0, w), Vec3(w, 0.0, 0.0)),  // bottom
      Face(Vec3(c.x + r, c.y - r, c.z - r), Vec3(0.0, w, 0.0), Vec3(0.0, 0.0, w)),  // right
      Face(Vec3(c.x - r, c.y - r, c.z - r), Vec3(0.0, 0.0, w), Vec3(0.0, w, 0.0)) ] // left
  }

  /** The faces with the edge order of top and bottom swapped, so that
      u x v points out of the cube on every face. */
  function Faces(c: Vec3, r: real): (fs: seq<Face>)
    ensures |fs| == 6
    ensures forall k :: 0 <= k < 6 && k != 2 && k != 3 ==> fs[k] == FacesAsWritten(c, r)[k]
    ensures forall k :: 2 <= k < 4 ==>
      fs[k] == Face(FacesAsWritten(c, r)[k].q, FacesAsWritten(c, r)[k].v, FacesAsWritten(c, r)[k].u)
  {
    var w := 2.0 * r;
    [ Face(Vec3(c.x - r, c.y - r, c.z + r), Vec3(w, 0.0, 0.0), Vec3(0.0, w, 0.0)),  // front
      Face(Vec3(c.x - r, c.y - r, c.z - r), Vec3(0.0, w, 0.0), Vec3(w, 0.0, 0.0)),  // back
      Face(Vec3(c.x - r, c.y + r, c.z - r), Vec3(0.0, 0.0, w), Vec3(w, 0.0, 0.0)),  // top
      Face(Vec3(c.x - r, c.y - r, c.z - r), Vec3(w, 0.0, 0.0), Vec3(0.0, 0.0, w)),  // bottom
      Face(Vec3(c.x + r, c.y - r, c.z - r), Vec3(0.0, w, 0.0), Vec3(0.0, 0.0, w)),  // right
      Face(Vec3(c.x - r, c.y - r, c.z - r), Vec3(0.0, 0.0, w), Vec3(0.0, w, 0.0)) ] // left
  }

  /** The centre of a face. */
  function FaceCentre(f: Face): Vec3 {
    Add(f.q, Scale(Add(f.u, f.v), 0.5))
  }

  /** u x v points away from the cube's centre `c`. */
  predicate Outward(c: Vec3, f: Face) {
    0.0 < Dot(Cross(f.u, f.v), Sub(FaceCentre(f), c))
  }

  lemma CubePositive(r: real)
    requires 0.0 < r
    ensures 0.0 < 4.0 * r * r * r
  {
    assert 0.0 < r * r;
  }

  /** The face's plane, edges and size: the face lies in the plane through
      c + Side(k) r along its normal axis, both edges are perpendicular to
      that axis, and both have squared length (2r)^2. */
  predicate OnCubePlane(c: Vec3, r: real, f: Face, k: nat)
    requires k < 6
  {
    VecIdx(NormalAxis(k), f.q) == VecIdx(NormalAxis(k), c) + Side(k) * r &&
    VecIdx(NormalAxis(k), f.u) == 0.0 && VecIdx(NormalAxis(k), f.v) == 0.0 &&
    NormSquared(f.u) == 4.0 * (r * r) && NormSquared(f.v) == 4.0 * (r * r)
  }

  /** p lies within r of c on every axis. */
  predicate InCube(c: Vec3, r: real, p: Vec3) {
    c.x - r <= p.x <= c.x + r && c.y - r <= p.y <= c.y + r && c.z - r <= p.z <= c.z + r
  }

  /** Every face of both versions lies on its cube plane. */
  lemma {:induction false} FacesOnCubePlanes(c: Vec3, r: real)
    ensures forall k :: 0 <= k < 6 ==> OnCubePlane(c, r, FacesAsWritten(c, r)[k], k)
    ensures forall k :: 0 <= k < 6 ==> OnCubePlane(c, r, Faces(c, r)[k], k)
  {
    assert (2.0 * r) * (2.0 * r) == 4.0 * (r * r);
  }

  /** For a positive half-width, all four corners of every face lie in
      [c - r, c + r] on each axis. */
  lemma {:induction false} FaceCornersInCube(c: Vec3, r: real)
    requires 0.0 <= r
    ensures forall k, j :: 0 <= k < 6 && 0 <= j < 4 ==>
      InCube(c, r, Q.Corners(FacesAsWritten(c, r)[k].q, FacesAsWritten(c, r)[k].u, FacesAsWritten(c, r)[k].v)[j])
    ensures forall k, j :: 0 <= k < 6 && 0 <= j < 4 ==>
      InCube(c, r, Q.Corners(Faces(c, r)[k].q, Faces(c, r)[k].u, Faces(c, r)[k].v)[j])
  {
  }

  /** As written, the front, back, right and left faces point outwards but
      the top and bottom faces point into the cube. */
  lemma {:induction false} TopBottomInward(c: Vec3, r: real)
    requires 0.0 < r
    ensures forall k :: k in {0, 1, 4, 5} ==> Outward(c, FacesAsWritten(c, r)[k])
    ensures !Outward(c, FacesAsWritten(c, r)[2]) && !Outward(c, FacesAsWritten(c, r)[3])
  {
    CubePositive(r);
    var fs := FacesAsWritten(c, r);
    assert Dot(Cross(fs[2].u, fs[2].v), Sub(FaceCentre(fs[2]), c)) == -(4.0 * r * r * r);
    assert Dot(Cross(fs[3].u, fs[3].v), Sub(FaceCentre(fs[3]), c)) == -(4.0 * r * r * r);
    forall k | k in {0, 1, 4, 5}
      ensures Outward(c, fs[k])
    {
      assert Dot(Cross(fs[k].u, fs[k].v), Sub(FaceCentre(fs[k]), c)) == 4.0 * r * r * r;
    }
  }

  /** With top and bottom swapped every face points outwards. */
  lemma {:induction false} FacesOutward(c: Vec3, r: real)
    requires 0.0 < r
    ensures forall k :: 0 <= k < 6 ==> Outward(c, Faces(c, r)[k])
  {
    CubePositive(r);
    var fs := Faces(c, r);
    forall k | 0 <= k < 6
      ensures Outward(c, fs[k])
    {
      assert Dot(Cross(fs[k].u, fs[k].v), Sub(FaceCentre(fs[k]), c)) == 4.0 * r * r * r;
    }
  }

  /** Each face is a proper parallelogram when r != 0, as `Quad::new` needs. */
  lemma {:induction false} FacesProper(c: Vec3, r: real)
    requires r != 0.0
    ensures forall k :: 0 <= k < 6 ==> Cross(FacesAsWritten(c, r)[k].u, FacesAsWritten(c, r)[k].v) != Zero
    ensures forall k :: 0 <= k < 6 ==> Cross(Faces(c, r)[k].u, Faces(c, r)[k].v) != Zero
  {
    SquarePos(2.0 * r);
  }

  /** The quads of a list of faces, all sharing one material. */
  function Build(sqrt: real -> real, fs: seq<Face>, mat: MaterialRef): (cube: Cube)
    requires forall k :: 0 <= k < |fs| ==> Cross(fs[k].u, fs[k].v) != Zero
    ensures |cube.faces| == |fs|
    ensures forall k :: 0 <= k < |fs| ==>
      cube.faces[k] == Q.NewQuad(sqrt, fs[k].q, fs[k].u, fs[k].v, mat) && cube.faces[k].material == mat
  {
    Cube(seq(|fs|, k requires 0 <= k < |fs| => Q.NewQuad(sqrt, fs[k].q, fs[k].u, fs[k].v, mat)))
  }

  /** `Cube::new` as written: top and bottom face inwards. A zero
      half-width would give degenerate quads, so the model requires r != 0. */
  function NewCubeAsWritten(sqrt: real -> real, c: Vec3, r: real, mat: MaterialRef): (cube: Cube)
    requires r != 0.0
    ensures |cube.faces| == 6
    ensures forall k :: 0 <= k < 6 ==>
      cube.faces[k].q == FacesAsWritten(c, r)[k].q &&
      cube.faces[k].u == FacesAsWritten(c, r)[k].u &&
      cube.faces[k].v == FacesAsWritten(c, r)[k].v &&
      cube.faces[k].material == mat
  {
    FacesProper(c, r);
    Build(sqrt, FacesAsWritten(c, r), mat)
  }

  /** `Cube::new` with every face's u x v pointing outwards. */
  function NewCube(sqrt: real -> real, c: Vec3, r: real, mat: MaterialRef): (cube: Cube)
    requires r != 0.0
    ensures |cube.faces| == 6
    ensures forall k :: 0 <= k < 6 ==>
      cube.faces[k].q == Faces(c, r)[k].q &&
      cube.faces[k].u == Faces(c, r)[k].u &&
      cube.faces[k].v == Faces(c, r)[k].v &&
      cube.faces[k].material == mat
  {
    FacesProper(c, r);
    Build(sqrt, Faces(c, r), mat)
  }

  /** What each face returns for the ray, in array order. */
  function FaceHits(cube: Cube, ray: Ray, i: I.Interval): (hs: seq<Option<Intersection>>)
    ensures |hs| == |cube.faces|
    ensures forall k :: 0 <= k < |hs| ==> hs[k] == Q.Intersect(cube.faces[k], ray, i)
  {
    seq(|cube.faces|, k requires 0 <= k < |cube.faces| => Q.Intersect(cube.faces[k], ray, i))
  }

  /** `Cube::intersect`: `min_by` over the faces' hits, which keeps the
      first of equally near hits. */
  function Intersect(cube: Cube, ray: Ray, i: I.Interval): (r: Option<Intersection>)
    ensures r.None? <==> forall k :: 0 <= k < |cube.faces| ==> Q.Intersect(cube.faces[k], ray, i).None?
    ensures r.Some? ==> exists k :: IsFirstNearest(FaceHits(cube, ray, i), k, r.value)
  {
    NearestFacts(FaceHits(cube, ray, i));
    Nearest(FaceHits(cube, ray, i))
  }
}
