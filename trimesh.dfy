/** Triangle meshes (geom/trimesh.rs): triangles built from a vertex list and
    1-based face indices, held in a BVH. The BVH builder is not part of this
    model and is a parameter. */
module TriMeshes {
  import opened Vectors
  import I = Intervals
  import opened Rays
  import opened Hits
  import opened Options
  import Tr = Triangles
  import Bv = Bvhs
  import B = Boxes

  /** One face: three 1-based indices into the vertex list. */
  datatype Face = Face(i0: nat, i1: nat, i2: nat)

  datatype TriMesh = TriMesh(faces: Bv.Bvh<Tr.Triangle>)

  /** `verts.get(k - 1).unwrap()` succeeds: k is neither 0 (the subtraction
      underflows) nor past the end. */
  predicate ValidIndex(verts: seq<Vec3>, k: nat) {
    1 <= k <= |verts|
  }

  predicate ValidFaces(verts: seq<Vec3>, faces: seq<Face>) {
    forall k :: 0 <= k < |faces| ==>
      ValidIndex(verts, faces[k].i0) && ValidIndex(verts, faces[k].i1) && ValidIndex(verts, faces[k].i2)
  }

  /** The triangle built for one face: the three vertices it names, the
      normalised normal (b - a) x (c - a), and the shared material. */
  function FaceTriangle(sqrt: real -> real, verts: seq<Vec3>, f: Face, mat: MaterialRef): (t: Tr.Triangle)
    requires ValidIndex(verts, f.i0) && ValidIndex(verts, f.i1) && ValidIndex(verts, f.i2)
    ensures t.a == verts[f.i0 - 1] && t.b == verts[f.i1 - 1] && t.c == verts[f.i2 - 1]
    ensures t.normal == Normalize(sqrt, Cross(Sub(t.b, t.a), Sub(t.c, t.a)))
    ensures t.material == mat
  {
    var a := verts[f.i0 - 1];
    var b := verts[f.i1 - 1];
    var c := verts[f.i2 - 1];
    Tr.NewTriangle(a, b, c, Normalize(sqrt, Cross(Sub(b, a), Sub(c, a))), mat)
  }

  /** The triangles of all faces, in face order. */
  function MeshTriangles(sqrt: real -> real, verts: seq<Vec3>, faces: seq<Face>, mat: MaterialRef): (ts: seq<Tr.Triangle>)
    requires ValidFaces(verts, faces)
    ensures |ts| == |faces|
    ensures forall k :: 0 <= k < |faces| ==> ts[k] == FaceTriangle(sqrt, verts, faces[k], mat)
  {
    seq(|faces|, k requires 0 <= k < |faces| => FaceTriangle(sqrt, verts, faces[k], mat))
  }

  /** The loop of `TriMesh::from_verts_faces` that pushes one triangle per
      face. An index that does not name a vertex makes the program panic, so
      the model requires valid faces. */
  method BuildTriangles(sqrt: real -> real, verts: seq<Vec3>, faces: seq<Face>, mat: MaterialRef)
    returns (tris: seq<Tr.Triangle>)
    requires ValidFaces(verts, faces)
    ensures tris == MeshTriangles(sqrt, verts, faces, mat)
    ensures forall k :: 0 <= k < |tris| ==> tris[k].material == mat
  {
    tris := [];
    for k := 0 to |faces|
      invariant tris == MeshTriangles(sqrt, verts, faces, mat)[..k]
    {
      var tri := FaceTriangle(sqrt, verts, faces[k], mat);
      PrefixStep(tris, MeshTriangles(sqrt, verts, faces, mat), k, tri);
      tris := tris + [tri];
    }
  }

  /** Appending the next element to a prefix gives the next prefix. */
  lemma PrefixStep<T>(prefix: seq<T>, all: seq<T>, k: nat, x: T)
    requires k < |all| && prefix == all[..k] && x == all[k]
    ensures prefix + [x] == all[..k + 1]
  {
    assert all[..k + 1] == all[..k] + [all[k]];
  }

  /** `TriMesh::from_verts_faces`: the triangles handed to the BVH builder. */
  method FromVertsFaces(sqrt: real -> real, verts: seq<Vec3>, faces: seq<Face>, mat: MaterialRef,
                        construct: seq<Tr.Triangle> -> Bv.Bvh<Tr.Triangle>)
    returns (m: TriMesh)
    requires ValidFaces(verts, faces)
    ensures m.faces == construct(MeshTriangles(sqrt, verts, faces, mat))
  {
    var tris := BuildTriangles(sqrt, verts, faces, mat);
    m := TriMesh(construct(tris));
  }

  /** A triangle's intersection function, for the BVH's leaves. */
  function TriangleHit(t: Tr.Triangle, ray: Ray, i: I.Interval): Option<Intersection> {
    Tr.Intersect(t, ray, i)
  }

  /** `TriMesh::intersect`: the BVH query over the triangles, which is the
      left-first descent of `BVH::intersect` as written. */
  function Intersect(m: TriMesh, ray: Ray, i: I.Interval): (r: Option<Intersection>)
    ensures r.Some? ==> r in Bv.LeafHits(m.faces, TriangleHit, ray, i)
    ensures m.faces.Leaf? ==> r == Tr.Intersect(m.faces.geom, ray, i)
  {
    Bv.IntersectAsWritten(m.faces, TriangleHit, ray, i)
  }

  /** The mesh query over the corrected BVH query: with honest boxes it
      finds the nearest triangle hit. */
  function IntersectNearest(m: TriMesh, ray: Ray, i: I.Interval): (r: Option<Intersection>)
    ensures r.Some? ==> r in Bv.LeafHits(m.faces, TriangleHit, ray, i)
    ensures Bv.Bounded(m.faces, TriangleHit, ray, i) ==> r == Nearest(Bv.LeafHits(m.faces, TriangleHit, ray, i))
  {
    NearestWhenBounded(m, ray, i);
    Bv.Intersect(m.faces, TriangleHit, ray, i)
  }

  lemma NearestWhenBounded(m: TriMesh, ray: Ray, i: I.Interval)
    ensures Bv.Bounded(m.faces, TriangleHit, ray, i) ==>
      Bv.Intersect(m.faces, TriangleHit, ray, i) == Nearest(Bv.LeafHits(m.faces, TriangleHit, ray, i))
  {
    if Bv.Bounded(m.faces, TriangleHit, ray, i) {
      Bv.IntersectIsNearest(m.faces, TriangleHit, ray, i);
    }
  }

  /** `TriMesh::bbox`: the box the BVH reports for itself. `BVH::bbox` is not
      part of this model and is a parameter. */
  function Bbox(m: TriMesh, bvhBox: Bv.Bvh<Tr.Triangle> -> B.AABB): B.AABB {
    bvhBox(m.faces)
  }

  /** When the BVH's box covers the box of every face triangle, the mesh's
      box holds every vertex that a face names. */
  lemma BboxHoldsVertices(sqrt: real -> real, verts: seq<Vec3>, faces: seq<Face>, mat: MaterialRef,
                          m: TriMesh, bvhBox: Bv.Bvh<Tr.Triangle> -> B.AABB)
    requires ValidFaces(verts, faces)
    requires forall k :: 0 <= k < |faces| ==>
      B.CoversBox(Bbox(m, bvhBox), MeshTriangles(sqrt, verts, faces, mat)[k].bbox)
    ensures forall k :: 0 <= k < |faces| ==>
      B.ContainsPoint(Bbox(m, bvhBox), verts[faces[k].i0 - 1]) &&
      B.ContainsPoint(Bbox(m, bvhBox), verts[faces[k].i1 - 1]) &&
      B.ContainsPoint(Bbox(m, bvhBox), verts[faces[k].i2 - 1])
  {
    forall k | 0 <= k < |faces|
      ensures B.ContainsPoint(Bbox(m, bvhBox), verts[faces[k].i0 - 1]) &&
              B.ContainsPoint(Bbox(m, bvhBox), verts[faces[k].i1 - 1]) &&
              B.ContainsPoint(Bbox(m, bvhBox), verts[faces[k].i2 - 1])
    {
      var t := MeshTriangles(sqrt, verts, faces, mat)[k];
      B.CoversBoxPoint(Bbox(m, bvhBox), t.bbox, t.a);
      B.CoversBoxPoint(Bbox(m, bvhBox), t.bbox, t.b);
      B.CoversBoxPoint(Bbox(m, bvhBox), t.bbox, t.c);
    }
  }
}
