# raytrace-rs core, modelled in Dafny

This project models the core of `raytrace-rs`, a CPU path tracer. The model covers:

- **Interval and box arithmetic:** `Interval`, `AABB` and the slab test.
- **Ray/primitive decisions:** sphere, plane, quad, triangle and cube, and the translation, scaling and rotation wrappers that map a ray into local space.
- **Nearest-hit selection:** in the scene, the cube, the BVH and the triangle mesh.
- **Shading and integration:** colours with clamping arithmetic, the online mean estimator, the camera's pixel-to-world map, the recursive `trace`, the adaptive per-pixel batch loop `render_px`, the pixel buffer, and the Lambertian, metal and diffuse-light materials with their textures.

Floating-point numbers are modelled as `real`. Some operations are parameters of the model, constrained only by the lemmas that use them:

- the square root, and through it `normalize`;
- the random draws;
- the `reflect` and `is_small` helpers;
- the BVH builder;
- each primitive that sits inside a wrapper or a BVH leaf.

Panics (`assert!`, `unwrap`) become preconditions. A division by zero does not panic on `f64`: it gives an infinity or NaN, which the model over `real` has no value for. The few divisions the source leaves unguarded therefore become preconditions that keep their results finite: window sizes above 0 in `Cameras.New`, non-zero texture scales in `Textures.Unscale`, a non-zero cube radius, and u x v non-zero for a quad. The slab test is the one place where the source relies on an infinite result, and there the model spells out the outcome for a positive zero component (`Boxes.Parallel`). The `todo!()` in `Plane::intersect` becomes a result of its own.

Objects that the source updates in place are classes:

- `OnlineMean` (fields `count`, `mean`, `conv`);
- the pixel buffer `ParBuffer` and its row handle `BufRow`.

Loops are methods, each with invariants, proved against a specification function:

- `AABB::intersect`, `AABB::union_all` and the rotation's corner loop;
- the triangle-mesh builder and the scene scan;
- `render_px`, `random_unit_vec3` and `blit_to`.

## Model

| member | source | states |
|---|---|---|
| Intervals.Length | src/math/interval.rs:8-10 | max - min; its sign is stated by `Intervals.LengthSign` |
| Intervals.LengthSign | src/math/interval.rs:8-10 | the length is never negative exactly when the bounds are ordered, and zero exactly when the interval is one point |
| Intervals.Contains | src/math/interval.rs:34-36 | t lies between the bounds, both ends included |
| Intervals.New | src/math/interval.rs:21-26 | the bounds are kept; the constructor demands min <= max, so the length is never negative |
| Intervals.Translate | src/math/interval.rs:12-17 | shifting keeps the length, and t is in the interval exactly when t + by is in the shifted one |
| Intervals.Union | src/math/interval.rs:28-32 | the bounds are the smaller minimum and the larger maximum; every point of either argument is in the union |
| Intervals.PadBy | src/math/interval.rs:38-42 | padding by delta adds delta to the length and keeps the midpoint; a non-negative pad covers the original |
| Intervals.UnionCovers | src/math/interval.rs:28-32 | the union covers both arguments |
| Intervals.UnionLeast | src/math/interval.rs:28-32 | any interval covering both arguments covers their union (least upper bound) |
| Intervals.UnionCommutative | src/math/interval.rs:28-32 | union does not depend on argument order |
| Intervals.UnionIdempotent | src/math/interval.rs:28-32 | the union of an interval with itself is that interval |
| Intervals.UnionAssociative | src/math/interval.rs:28-32 | union does not depend on grouping |
| Intervals.UnitContains | src/math/interval.rs:19 | `UNIT` contains exactly the reals between 0 and 1 |
| Intervals.CoversTransitive | src/math/interval.rs:34-36 | covering (containment of every point) is transitive |
| Axes.Random | src/geom/axis.rs:21-32 | the drawn `u64` modulo 3 picks X, Y or Z, each exactly on its residue; the panic is unreachable |
| Axes.VecIdxDetermines | src/geom/axis.rs:13-19 | two vectors with the same coordinate on every axis are equal |
| Axes.VecIdxLinear | src/geom/axis.rs:13-19 | reading a coordinate commutes with vector addition and scaling |
| Axes.RandomReachesEveryAxis | src/geom/axis.rs:21-32 | every axis is produced by some `u64` draw |
| Rays.New | src/geom/ray.rs:11-13 | the ray keeps the given origin and direction |
| Rays.NewNormalize | src/geom/ray.rs:15-17 | the direction is a unit vector that, scaled by the norm of the input, gives the input back |
| Rays.ThroughPoints | src/geom/ray.rs:19-21 | the ray starts at `from`, has unit direction, and reaches `to` at distance \|to - from\| |
| Rays.NormalizeUnitIfSqrt | src/geom/ray.rs:15-17 | normalising a non-zero vector gives a unit vector parallel to it |
| Rays.ThroughPointsAims | src/geom/ray.rs:19-21 | the ray through two distinct points passes through the second |
| Rays.At | src/geom/ray.rs:31-33 | the point t directions along the ray from its origin; its properties are the four lemmas below |
| Rays.AtZero | src/geom/ray.rs:31-33 | the point at parameter 0 is the origin |
| Rays.AtDifference | src/geom/ray.rs:31-33 | moving from parameter s to t moves by (t - s) directions |
| Rays.DotAlong | src/geom/ray.rs:31-33 | the dot product of a fixed vector with the point at t is affine in t |
| Rays.AtDistance | src/geom/ray.rs:31-33 | with a unit direction, the point at t lies at distance \|t\| from the origin, for every t |
| Hits.DistCompare | src/geom/intersection.rs:33-44 | Less, Greater and Equal hold exactly when the distances compare so |
| Hits.DistCompareAntisymmetric | src/geom/intersection.rs:33-44 | swapping the arguments swaps Less and Greater and keeps Equal |
| Hits.DistCompareTransitive | src/geom/intersection.rs:33-44 | the ordering by distance is transitive, strictly and non-strictly |
| Hits.WithPoint | src/geom/intersection.rs:58-60 | writing through `point_mut` changes the point and nothing else |
| Hits.NearestNone | src/rendering/scene.rs:20-34 | the nearest-hit scan finds nothing exactly when every object misses |
| Hits.NearestIsFirstNearest | src/rendering/scene.rs:20-34 | a hit found by the scan is the first among the nearest hits |
| Hits.NearestFacts | src/rendering/scene.rs:20-34 | both halves of the nearest-hit contract together |
| Boxes.PadToMinimums | src/geom/aabb.rs:31-37 | the padded box covers the original; every axis of non-negative length ends up at least 0.0001 long; an axis already that long is untouched; every axis keeps its midpoint |
| Boxes.New | src/geom/aabb.rs:38-42 | the box covers the three given intervals and is well formed when they are |
| Boxes.Span | src/geom/aabb.rs:45-49 | the interval from the smaller to the larger coordinate, whichever order they come in |
| Boxes.FromPoints | src/geom/aabb.rs:44-62 | the padded box spanned by the two points, which holds both of them and is well formed |
| Boxes.FromOrderedContains | src/geom/aabb.rs:44-62 | with ordered corners, any point between them is in the box |
| Boxes.FromPointsContains | src/geom/aabb.rs:44-62 | any point between the two corners on every axis is in the box |
| Boxes.FromPointsSymmetric | src/geom/aabb.rs:44-62 | the box does not depend on the order of the two points |
| Boxes.Union | src/geom/aabb.rs:64-70 | the union covers both boxes and is well formed when the first one is |
| Boxes.UnionLeast | src/geom/aabb.rs:64-70 | when no axis of the joined intervals is thinner than the 0.0001 padding threshold, the union is exactly the joined intervals, and every box covering both arguments covers the union |
| Boxes.ThinUnionNotLeast | src/geom/aabb.rs:64-70 | padding breaks leastness on thin boxes: the one-point box at the origin covers itself but not its union with itself |
| Boxes.CoversBoxTransitive | src/geom/aabb.rs:64-70 | box covering is transitive |
| Boxes.CoversBoxPoint | src/geom/aabb.rs:64-70 | a point of a covered box is a point of the covering box |
| Boxes.UnionAllFoldCovers | src/geom/aabb.rs:72-81 | the fold from the default box holds the origin and covers every box folded in |
| Boxes.UnionAll | src/geom/aabb.rs:72-81 | the loop computes the fold: the default box for no input, otherwise a box holding the origin and covering every input box |
| Boxes.Translate | src/geom/translation.rs:38-40 | p is in the box exactly when p + v is in the moved box; moving keeps well-formedness both ways |
| Boxes.MinCorner | src/geom/rotation.rs:91-92 | every coordinate of the corner is the lower end of that axis of the box |
| Boxes.MaxCorner | src/geom/rotation.rs:91-92 | every coordinate of the corner is the upper end of that axis of the box |
| Boxes.CornersContained | src/geom/rotation.rs:91-92 | both corners of a well-formed box lie in it |
| Boxes.NarrowSlab | src/geom/aabb.rs:93-117 | one axis of the slab test on scalars only ever narrows the candidate interval |
| Boxes.Parallel | src/geom/aabb.rs:94-97 | with a positive zero direction component (1/+0 is +inf) the interval is kept or emptied, never widened |
| Boxes.Clip | src/geom/aabb.rs:99-113 | the lower end rises to the smaller slab distance and the upper end falls to the larger, when that narrows the interval |
| Boxes.Narrow | src/geom/aabb.rs:92-117 | one axis of the slab test on a box and a ray never widens the interval |
| Boxes.SurvivesPrefix | src/geom/aabb.rs:115-117 | surviving the early-exit check after more axes implies surviving it after fewer |
| Boxes.NarrowAxis | src/geom/aabb.rs:93-113 | the loop body for one axis computes the narrowed interval |
| Boxes.ClipEnds | src/geom/aabb.rs:99-113 | the in-place update of the two ends computes the clipped interval |
| Boxes.Intersect | src/geom/aabb.rs:91-120 | the method answers true exactly when the interval stays non-empty after each of the three axes |
| Boxes.NarrowThroughShrinks | src/geom/aabb.rs:91-120 | the candidate interval after any number of axes lies inside the original |
| Boxes.NarrowSlabSound | src/geom/aabb.rs:93-117 | every distance left in a non-empty narrowed interval puts the coordinate inside the slab |
| Boxes.NarrowSlabComplete | src/geom/aabb.rs:93-117 | a distance strictly inside the candidate interval that puts the coordinate strictly inside the slab stays strictly inside the narrowed interval |
| Boxes.NarrowSound | src/geom/aabb.rs:92-117 | the axis-level soundness for a box and a ray |
| Boxes.NarrowComplete | src/geom/aabb.rs:92-117 | the axis-level completeness for a box and a ray |
| Boxes.SlabSteps | src/geom/aabb.rs:91-120 | the slab test is X, then Y, then Z narrowing, passing only if each step is non-empty |
| Boxes.SlabSound | src/geom/aabb.rs:91-120 | if the test passes on a well-formed box, some distance in the range puts the ray point inside the box |
| Boxes.SlabComplete | src/geom/aabb.rs:91-120 | if some distance strictly inside the range puts the ray point strictly inside the box, the test passes |
| Boxes.FaceRayRejected | src/geom/aabb.rs:91-120 | the ray from (-5, 0, 1) along +x reaches the unit cube's top face at t = 5, inside [0.001, 100], and the test as written rejects it; the closed test passes |
| Boxes.EndOfRangeRejected | src/geom/aabb.rs:115-117 | the ray from (0, 0, 5) along -z reaches the unit cube at t = 4, the end of [0.001, 4], and the test as written rejects it; the closed test passes |
| Boxes.ParallelClosed | src/geom/aabb.rs:94-97 | corrected zero-direction case: the interval is kept when the origin lies in the closed slab, and emptied otherwise |
| Boxes.NarrowSlabClosed | src/geom/aabb.rs:93-117 | one axis of the closed test only ever narrows the interval |
| Boxes.NarrowClosed | src/geom/aabb.rs:92-117 | one axis of the closed test on a box and a ray only ever narrows the interval |
| Boxes.SlabHitsClosed | src/geom/aabb.rs:91-120 | the closed test: X, then Y, then Z narrowing, failing only when a step leaves max < min |
| Boxes.NarrowSlabClosedSound | src/geom/aabb.rs:93-117 | every distance left by one closed axis step puts the coordinate in the closed slab |
| Boxes.NarrowSlabClosedComplete | src/geom/aabb.rs:93-117 | a distance in the interval that puts the coordinate in the closed slab survives the closed axis step |
| Boxes.NarrowClosedSound | src/geom/aabb.rs:92-117 | the closed axis step's soundness for a box and a ray |
| Boxes.NarrowClosedComplete | src/geom/aabb.rs:92-117 | the closed axis step's completeness for a box and a ray |
| Boxes.SlabClosedSound | src/geom/aabb.rs:91-120 | if the closed test passes on a well-formed box, some distance in the range puts the ray point in the box |
| Boxes.SlabClosedComplete | src/geom/aabb.rs:91-120 | if some distance in the range puts the ray point in the closed box, the closed test passes |
| Translations.LocalRay | src/geom/translation.rs:28 | the inner ray keeps the direction, and its origin moved back by `trans` is the world origin |
| Translations.Intersect | src/geom/translation.rs:27-36 | there is a hit exactly when the inner geometry reports one on the local ray; its point is moved by `trans`, and everything else is passed through |
| Translations.HitOnWorldRay | src/geom/translation.rs:27-36 | an inner hit on the local ray at distance d becomes the world ray's point at the same d |
| Translations.Bbox | src/geom/translation.rs:38-40 | p is in the inner box exactly when p + trans is in the moved box |
| Translations.HitInBox | src/geom/translation.rs:27-40 | a hit inside the inner box lands inside the translated box |
| Spheres.NewSphere | src/geom/sphere.rs:21-31 | keeps centre, radius and material, and caches the box spanned by centre -/+ (r, r, r) |
| Spheres.Intersect | src/geom/sphere.rs:34-64 | misses when the cached box or the discriminant rejects the ray; a hit is at the near root, or at the far root when the near one is outside `i`, with point on the ray, outward normal, and the sphere's material; a root in `i` gives a hit whenever the box test passes |
| Spheres.Solve | src/geom/sphere.rs:39-62 | the quadratic after the box test: no hit for a negative discriminant; a hit is at the near root, or the far root when the near one is outside `i`, on the ray, with the normalised outward normal and the sphere's material; a root in `i` always gives a hit |
| Spheres.IntersectCorrected | src/geom/sphere.rs:34-64 | corrected query behind the closed box test: the same hit facts, and a root in `i` gives a hit whenever the closed test passes |
| Spheres.CorrectedFindsMeeting | src/geom/sphere.rs:34-64 | with the closed box test, a ray meeting the sphere at a distance in `i` gets a hit at that distance or nearer |
| Spheres.CorrectedIffMeets | src/geom/sphere.rs:34-64 | the corrected query answers exactly when the ray meets the sphere at some distance in `i` |
| Spheres.GateAdmitsOffCentre | src/geom/sphere.rs:35-37 | the box test as written passes for every meeting strictly inside `i` at a point other than the six where the sphere touches its box |
| Spheres.OffCentreStrictlyInside | src/geom/sphere.rs:21-24 | a point of the sphere off the six touching places lies strictly inside the cached box |
| Spheres.OffCentreInBallBox | src/geom/sphere.rs:22-23 | a point at distance r from c with two non-zero offsets lies strictly inside the box spanned by c -/+ (r, r, r) |
| Spheres.ComponentsStrict | src/geom/sphere.rs:21-24 | an offset with two non-zero components has each squared component strictly below the squared length |
| Spheres.StrictlyInBallBox | src/geom/sphere.rs:22-23 | a point strictly within r of c on every axis lies strictly inside the box spanned by c -/+ (r, r, r) |
| Spheres.TangentRejected | src/geom/sphere.rs:35-37 | the ray from (-5, 0, 1) along +x meets the unit sphere at t = 5, inside [0.001, 100], and the query as written misses it |
| Spheres.DistanceFromCenter | src/geom/sphere.rs:39-44 | with a unit direction, the squared distance from the centre to the ray point at t is t^2 - 2th + \|center - origin\|^2 |
| Spheres.RootsOnSurface | src/geom/sphere.rs:44-57 | the ray points at both roots lie on the sphere |
| Spheres.HitOnSurface | src/geom/sphere.rs:34-64 | a returned hit lies on the sphere |
| Spheres.SurfaceAtRoot | src/geom/sphere.rs:39-57 | every distance at which the ray meets the sphere is one of the two roots |
| Spheres.NearestMeeting | src/geom/sphere.rs:50-57 | the returned distance is the smallest distance in `i` at which the ray meets the sphere |
| Spheres.SurfaceInBox | src/geom/sphere.rs:21-24 | every point of the sphere lies in its cached box |
| Spheres.BallInBox | src/geom/sphere.rs:22-23 | a point at distance r from c lies in the box spanned by c -/+ (r, r, r) |
| Planes.Intersect | src/geom/plane.rs:34-53 | the call reaches `todo!()` exactly when \|normal . dir\| > 1e-8 and the plane distance is in `i`, carrying that distance and the ray point there; otherwise there is no hit |
| Planes.WouldBeOnPlane | src/geom/plane.rs:37-39 | the would-be hit point lies on the plane |
| Quads.NewQuad | src/geom/quad.rs:29-55 | keeps q, u, v and the material; normal = normalised u x v, d = q . normal, w . (u x v) = 1; the cached box is well formed and holds all four corners |
| Quads.Bbox | src/geom/quad.rs:95-99 | the box cached by `Quad::new`; `Quads.BboxHoldsCorners` states what it holds |
| Quads.BboxHoldsCorners | src/geom/quad.rs:95-99 | the box a built quad reports is well formed and holds its four corners |
| Quads.BboxCorners | src/geom/quad.rs:35-37 | the union of the boxes over the two diagonals holds all four corners of the parallelogram |
| Quads.WeightInverts | src/geom/quad.rs:43 | w = n / (n . n) satisfies w . n = 1 |
| Quads.Intersect | src/geom/quad.rs:59-86 | a hit exists exactly when the ray is not parallel (\|normal . dir\| >= 1e-8), the plane distance is in `i`, and both surface coordinates are in [0, 1]; the hit carries that distance, the ray point, the quad's normal and material, and those coordinates |
| Quads.HitOnPlane | src/geom/quad.rs:59-86 | a hit point lies on the quad's plane, normal . p = d |
| Quads.SurfaceUVOfCombination | src/geom/quad.rs:71-74 | for the point q + alpha u + beta v, the computed coordinates are (alpha, 1 - beta) |
| Quads.AcceptedIffInside | src/geom/quad.rs:59-86 | a ray meeting the plane at q + alpha u + beta v (in range, not parallel) is accepted exactly when alpha and beta are both in [0, 1], and then uv = (alpha, 1 - beta) |
| Triangles.NewTriangle | src/geom/triangle.rs:25-44 | keeps the corners, normal and material; the cached box is well formed and holds all three corners |
| Triangles.Bbox | src/geom/triangle.rs:90-92 | the box cached by `Triangle::new`; `Triangles.BboxHoldsVertices` states what it holds |
| Triangles.BboxHoldsVertices | src/geom/triangle.rs:90-92 | the box a built triangle reports is well formed and holds its three vertices |
| Triangles.Intersect | src/geom/triangle.rs:47-88 | misses when \|det\| < machine epsilon; otherwise hits exactly when u in [0, 1], v >= 0, u + v <= 1 and t in `i` (Moller-Trumbore), with dist = t, uv = (u, v), the ray point, the triangle's normal and material |
| Triangles.CramerPoint | src/geom/triangle.rs:49-72 | the computed t, u and v solve (origin - a) + t dir = u e1 + v e2 (Cramer's rule) |
| Triangles.BarycentricVec | src/geom/triangle.rs:49-72 | moving corner a across gives origin + t dir = (1 - u - v) a + u b + v c |
| Triangles.Barycentric | src/geom/triangle.rs:47-88 | the returned point is the barycentric combination (1 - u - v) a + u b + v c of the corners, with (u, v) the returned uv |
| Cubes.FacesAsWritten | src/geom/cube.rs:23-69 | the six faces (corner, u, v) exactly as the constructor lists them |
| Cubes.Faces | src/geom/cube.rs:20-21 | the corrected faces: the same as written except that top and bottom have u and v swapped |
| Cubes.FacesOnCubePlanes | src/geom/cube.rs:23-69 | every face of both versions lies in the plane c +/- r along its own axis, with edges perpendicular to that axis and of length 2r |
| Cubes.FaceCornersInCube | src/geom/cube.rs:23-69 | all four corners of every face lie within r of the centre on each axis |
| Cubes.TopBottomInward | src/geom/cube.rs:55-69 | as written, front, back, right and left have u x v pointing out of the cube, but top and bottom point into it |
| Cubes.FacesOutward | src/geom/cube.rs:20-21 | with the corrected faces, u x v points out of the cube on all six faces |
| Cubes.FacesProper | src/geom/cube.rs:23-69 | for r != 0 every face is a proper parallelogram, as `Quad::new` needs |
| Cubes.Build | src/geom/cube.rs:71-81 | one quad per face, in order, all sharing the one material |
| Cubes.NewCubeAsWritten | src/geom/cube.rs:17-82 | the six quads are built from the faces as written, with the shared material |
| Cubes.NewCube | src/geom/cube.rs:17-82 | the six quads are built from the corrected faces, with the shared material |
| Cubes.FaceHits | src/geom/cube.rs:87-90 | each face's answer for the ray, in array order |
| Cubes.Intersect | src/geom/cube.rs:86-92 | no hit exactly when every face misses; otherwise the first of the nearest face hits (`min_by` keeps the first of equal minima) |
| Scalings.NewScaling | src/geom/scaling.rs:18-27 | the factors must be positive; the reciprocals are stored, are positive, and multiply with the factors to (1, 1, 1) |
| Scalings.LocalRay | src/geom/scaling.rs:32-39 | the inner ray's origin is the world origin divided by the scale, and its direction is dir / scale normalised |
| Scalings.Intersect | src/geom/scaling.rs:31-58 | a hit exists exactly when dir / scale is not tiny (squared length >= 1e-10), the inner geometry hits the local ray, and the scaled-back normal is not tiny; the point is multiplied back by the scale, the distance is recomputed as \|point - origin\|, the normal is normal / scale normalised, and material and uv are passed through |
| Scalings.DistIsLength | src/geom/scaling.rs:44 | the recomputed distance is non-negative and zero exactly when the hit is at the ray's origin |
| Scalings.HitOnWorldRay | src/geom/scaling.rs:32-43 | the local ray's point at t, scaled back, is the world ray's point at t / \|dir / scale\| |
| Scalings.MapBack | src/geom/scaling.rs:32-43 | the local ray's point (direction m (dir / scale)) scaled back is the world ray's point at t m |
| Scalings.Bbox | src/geom/scaling.rs:76-89 | the inner corners are scaled, reordered per axis and boxed with `from_points`; the result is well formed |
| Scalings.ScaledBoxContains | src/geom/scaling.rs:76-89 | every point of the inner box, scaled, lies in the scaled box |
| Scalings.HitInBox | src/geom/scaling.rs:31-89 | a hit inside the inner box lands inside the scaled box |
| Scalings.IntoGeoms | src/geom/scaling.rs:63-73 | one wrapped piece per inner piece, in order, each carrying the same scale and inverse scale |
| Rotations.LocalRay | src/geom/rotation.rs:45-49 | the inner ray's origin is R^-1 origin and its direction is R^-1 dir normalised |
| Rotations.Intersect | src/geom/rotation.rs:43-70 | there is a hit exactly when the inner geometry hits the local ray; the point is rotated back, the distance recomputed as \|point - origin\|, the normal is R normal normalised, material and uv are passed through |
| Rotations.LocalOriginMapsBack | src/geom/rotation.rs:45 | rotating the local origin back gives the world origin |
| Rotations.HitOnWorldRay | src/geom/rotation.rs:45-55 | the local ray's point at t, rotated back, is the world ray's point at t / \|R^-1 dir\| |
| Rotations.MapBack | src/geom/rotation.rs:45-55 | the rotated-back point of the local ray with direction scaled by m is the world ray's point at t m |
| Rotations.Corners | src/geom/rotation.rs:95-104 | the eight corners of the inner box in the listed order |
| Rotations.CornersAreCombinations | src/geom/rotation.rs:95-104 | the listed corners are exactly the 2^3 min/max combinations, in bit order |
| Rotations.RotatedCorners | src/geom/rotation.rs:107-110 | each listed corner multiplied by R, in order |
| Rotations.MinMaxBound | src/geom/rotation.rs:113-124 | the running componentwise minimum and maximum bound every point of the list |
| Rotations.MinMaxAttained | src/geom/rotation.rs:113-124 | each component of the running minimum and maximum is that component of some point of the list |
| Rotations.Bbox | src/geom/rotation.rs:86-127 | the loop computes the box of the running minimum and maximum of the rotated corners, which holds all eight |
| Rotations.RowExtremes | src/geom/rotation.rs:95-104 | one row of R dotted with a point of the box is bounded by its values at two of the corners |
| Rotations.RotatedBoxContains | src/geom/rotation.rs:86-127 | every point of the inner box, rotated, lies in the rotated box |
| Rotations.ExtremeCorner | src/geom/rotation.rs:107-124 | every rotated corner lies between the running minimum and maximum |
| Rotations.IntoGeoms | src/geom/rotation.rs:73-84 | one wrapped piece per inner piece, in order, each carrying the same rotation and inverse rotation |
| Geoms.WrapAll | src/geom/scaling.rs:63-73 | flattening a wrapper: one (wrapper, piece) pair per piece, in order |
| Bvhs.IntersectAsWritten | src/geom/bvh.rs:18-36 | a leaf asks its geometry; a node descends left when the left box passes the slab test, else right when the right box passes, else misses; any hit is some leaf's hit |
| Bvhs.Intersect | src/geom/bvh.rs:18-36 | corrected query: each child whose box passes is searched and the nearer hit kept; a node whose boxes both fail misses; any hit is some leaf's hit |
| Bvhs.NearestAppend | src/rendering/scene.rs:20-34 | the nearest hit of a concatenation is the nearer of the two nearest hits, the first list winning ties |
| Bvhs.IntersectIsNearest | src/geom/bvh.rs:18-36 | on a tree whose boxes are honest, the corrected query equals the nearest-hit scan over all leaves |
| Bvhs.AsWrittenMissesRightChild | src/geom/bvh.rs:27-30 | on a tree with honest boxes where the left leaf misses and the right leaf hits, the query as written returns None while the nearest leaf hit exists and the corrected query finds it |
| Bvhs.TwoLeaves | src/geom/bvh.rs:18-36 | for a node over two leaves whose boxes pass, the query as written returns the left leaf's answer and the corrected query the nearer of the two |
| TriMeshes.FaceTriangle | src/geom/trimesh.rs:17-29 | the triangle has the three vertices named by the 1-based indices, the normalised normal (b - a) x (c - a), and the shared material |
| TriMeshes.MeshTriangles | src/geom/trimesh.rs:16-30 | one triangle per face, in face order |
| TriMeshes.BuildTriangles | src/geom/trimesh.rs:15-30 | the loop produces exactly the face triangles, all with the shared material |
| TriMeshes.FromVertsFaces | src/geom/trimesh.rs:14-33 | the mesh holds the BVH built from the face triangles |
| TriMeshes.Intersect | src/geom/trimesh.rs:38-40 | the BVH query as written (left-first descent): any hit is some triangle's hit, and a one-leaf mesh answers exactly as its triangle |
| TriMeshes.IntersectNearest | src/geom/bvh.rs:18-36 | corrected mesh query over the corrected BVH query: any hit is some triangle's hit, and with honest boxes it is the nearest triangle hit |
| TriMeshes.Bbox | src/geom/trimesh.rs:42-44 | the box the mesh's BVH reports for itself; `TriMeshes.BboxHoldsVertices` states what it holds |
| TriMeshes.BboxHoldsVertices | src/geom/trimesh.rs:42-44 | when the BVH's box covers every face triangle's box, the mesh's box holds every vertex a face names |
| Scenes.New | src/rendering/scene.rs:12-14 | the scene keeps the objects as given |
| Scenes.ObjectHits | src/rendering/scene.rs:20-22 | each object's answer for the same ray and interval, in order |
| Scenes.Intersect | src/rendering/scene.rs:18-36 | the loop returns the nearest-hit scan's answer: None exactly when every object misses, otherwise the first of the nearest hits |
| OnlineMeans.ChannelUpdate | src/math/onlinemean.rs:25-27 | on one channel, folding a sample into the mean of c values gives the mean of c + 1 values |
| OnlineMeans.Appended | src/math/onlinemean.rs:19-29 | one more sample moves the running mean by one step, and the recorded delta is the squared distance between the old and the new mean |
| OnlineMeans.RunningMeanIsMean | src/math/onlinemean.rs:19-29 | the mean the updates maintain is the arithmetic mean of all samples so far |
| OnlineMeans.StepIsMean | src/math/onlinemean.rs:25-27 | a step from the mean of the earlier samples gives the mean with the new sample appended |
| OnlineMeans.StepAtMean | src/math/onlinemean.rs:25-27 | a sample equal to the mean leaves the mean unchanged |
| OnlineMeans.FirstSample | src/math/onlinemean.rs:20-23 | after the first sample the mean is that sample and the delta is zero |
| OnlineMeans.SampleAtMean | src/math/onlinemean.rs:25-28 | a sample equal to the current mean leaves the mean unchanged and records a zero delta |
| OnlineMeans.ChannelBetween | src/math/onlinemean.rs:27 | one channel of a step lies between the old mean and the sample |
| OnlineMeans.RunningMeanInUnitBox | src/math/onlinemean.rs:19-29 | samples with every channel in [0, 1] keep the mean in [0, 1] |
| OnlineMeans.OnlineMean.constructor | src/math/onlinemean.rs:11-17 | no samples, zero count, zero mean, and a delta of `f64::MAX` |
| OnlineMeans.OnlineMean.AddSample | src/math/onlinemean.rs:19-29 | one more sample and count; the mean becomes the arithmetic mean of all samples; the delta is the squared distance the mean moved (from the sample itself on the first call) |
| OnlineMeans.OnlineMean.Mean | src/math/onlinemean.rs:31-33 | the arithmetic mean of the samples added so far |
| OnlineMeans.OnlineMean.Count | src/math/onlinemean.rs:35-37 | the number of samples added so far |
| OnlineMeans.OnlineMean.ConvergenceDelta | src/math/onlinemean.rs:39-41 | the delta is never negative |
| OnlineMeans.AlternatingSettles | src/math/onlinemean.rs:19-29 | two distinct colours in turn (lo, hi, lo) leave a delta of \|hi - lo\|^2 / 36, below their squared half-difference \|hi - lo\|^2 / 4 |
| OnlineMeans.ThreeSamples | src/math/onlinemean.rs:19-29 | the delta after lo, hi, lo is the squared distance between the mean of the first two and the mean of all three |
| OnlineMeans.BackAThird | src/math/onlinemean.rs:25-27 | half-way to hi, then a third of the way back to lo, leaves a sixth of hi - lo between the two means |
| Colors.New | src/lighting/color.rs:31-39 | each channel must lie in [0, 1]; the colour holds exactly those channels |
| Colors.White | src/lighting/color.rs:66-68 | white is in range |
| Colors.Black | src/lighting/color.rs:70-72 | black is in range |
| Colors.Default | src/lighting/color.rs:24-28 | the default colour is black |
| Colors.ClampChannel | src/lighting/color.rs:49-56 | one channel after `min(x, 1)` then `max(x, 0)`: in [0, 1], unchanged when already there, 0 below, 1 above |
| Colors.Clamp | src/lighting/color.rs:49-56 | each channel is clamped on its own (unchanged in [0, 1], 0 below, 1 above), so the colour is in range, and a colour already in range is unchanged |
| Colors.ClampIdempotent | src/lighting/color.rs:49-56 | clamping twice is clamping once |
| Colors.Scale | src/lighting/color.rs:62-64 | scaling a colour in range by a factor in [0, 1] stays in range |
| Colors.FromVec | src/lighting/color.rs:41-43 | the vector is kept as is, so the colour is in range exactly when every component lies in [0, 1] |
| Colors.InnerVec | src/lighting/color.rs:45-47 | the colour's channels as a vector |
| Colors.FromVecInnerVec | src/lighting/color.rs:41-47 | `from_vec` of `inner_vec` gives the colour back |
| Colors.ScaleAndFromVecUnchecked | src/lighting/color.rs:41-43 | neither `scale` nor `from_vec` keeps a colour in range: white scaled by 2, and (-1, 0, 0) taken as is, are out of range |
| Colors.Add | src/lighting/color.rs:75-84 | each channel is the clamped sum of the two channels; the result is in range, and equals the plain channel-wise sum when that is already in range |
| Colors.AddAssign | src/lighting/color.rs:86-90 | `+=` gives the clamped sum, which is in range |
| Colors.Mul | src/lighting/color.rs:92-102 | each channel is the clamped product of the two channels; the result is in range, and two colours in range multiply channel-wise without clamping |
| Colors.MulInRange | src/lighting/color.rs:95-101 | the channel-wise product of two colours in range is in range |
| Colors.AddCommutative | src/lighting/color.rs:75-84 | colour addition is commutative |
| Colors.MulCommutative | src/lighting/color.rs:92-102 | colour multiplication is commutative |
| Colors.MulWhite | src/lighting/color.rs:92-102 | white is the unit of multiplication on colours in range |
| Colors.MulBlack | src/lighting/color.rs:92-102 | black absorbs multiplication |
| Colors.AbsorbBlack | src/lighting/color.rs:75-102 | black plus black times anything is black |
| Colors.FromUnit | src/lighting/color.rs:124-131 | each component x in [-1, 1] maps to (1 + x) / 2, in range, and 2c - 1 gives the vector back |
| Colors.UnitComponentsBounded | src/lighting/color.rs:124-131 | a unit vector's components lie in [-1, 1], so the conversion's assertions hold |
| Colors.Gamma | src/lighting/color.rs:15-22 | for a colour in range, each gamma channel is in [0, 1] and squares back to the channel |
| Colors.GammaInRange | src/lighting/color.rs:15-22 | the square roots of channels in [0, 1] lie in [0, 1] and square back to them |
| Colors.ToByte | src/lighting/color.rs:115-121 | `(g * 256).floor() as u8`: the floor for g in [0, 1), saturating to 255 from 1 up and to 0 below 0 |
| Colors.ToByteMonotone | src/lighting/color.rs:115-121 | a brighter channel never gives a smaller byte |
| Colors.ToRgb | src/lighting/color.rs:104-121 | both conversions give the three channel bytes: gamma white is (255, 255, 255), black (0, 0, 0), and mid-grey 0.5 is (128, 128, 128) |
| Cameras.ViewportWidth | src/rendering/camera.rs:29 | the viewport keeps the window's aspect ratio: width x window height = height x window width |
| Cameras.New | src/rendering/camera.rs:15-64 | keeps the position; the pixel deltas times the window sizes give the viewport edges; pixel (0, 0) is the upper-left corner plus half a pixel each way |
| Cameras.RayThrough | src/rendering/camera.rs:66-69 | the ray starts at the camera and its unit direction reaches the target point pixel00 + u du + v dv |
| Cameras.TargetOrigin | src/rendering/camera.rs:66-69 | pixel coordinates (0, 0) aim at the stored centre of pixel (0, 0) |
| Cameras.TargetSteps | src/rendering/camera.rs:66-69 | one pixel right moves the target by `pixel_delta_u`, one pixel down by `pixel_delta_v` |
| Cameras.ScreenCorners | src/rendering/camera.rs:15-69 | the outer corner of pixel (0, 0) is the viewport's upper-left corner, the outer corner of the last pixel is the opposite corner, and the middle of the window aims at the viewport centre one focal length in front |
| Cameras.GridSpans | src/rendering/camera.rs:44-51 | a grid whose deltas divide the viewport edges reaches from the upper-left corner to the opposite corner, with the middle at half of each edge |
| Cameras.UpperLeftToCentre | src/rendering/camera.rs:49-50 | half of each edge on from the upper-left corner is the viewport centre |
| Renderers.Trace | src/rendering/renderer.rs:77-94 | depth 0 is black; a miss shows the background; a hit whose material does not scatter shows its emission; a scattering hit gives a colour in range |
| Renderers.TraceInRange | src/rendering/renderer.rs:77-94 | with a background and emissions in [0, 1], every traced colour is in [0, 1] |
| Renderers.DarkSceneIsBlack | src/rendering/renderer.rs:77-94 | with a black background and no emitter, every ray traces to black at every depth |
| Renderers.DarkLevel | src/rendering/renderer.rs:81-88 | one level of that induction: a path that ends here is black, and one that goes on is black when the deeper light is |
| Renderers.PixelSamples | src/rendering/renderer.rs:65-71 | one sample colour per jitter draw, in draw order |
| Renderers.SettleAt | src/rendering/renderer.rs:64-72 | the batch boundary where the loop stops lies between the start and the number of samples available |
| Renderers.SettleAtFound | src/rendering/renderer.rs:64-72 | where the loop stops, the delta is at most the cutoff, after whole batches, and at every earlier boundary it was above the cutoff |
| Renderers.SettleAtNone | src/rendering/renderer.rs:64-72 | when the draws run out, the delta was above the cutoff at every batch boundary reached |
| Renderers.NoEmptyPixel | src/rendering/renderer.rs:62-64 | with a cutoff below the initial delta `f64::MAX`, a pixel averages at least one batch |
| Renderers.RenderPx | src/rendering/renderer.rs:61-75 | the pixel is found exactly when the stopping boundary is reached within the draws; it is the mean of exactly the samples taken up to that boundary |
| Renderers.SampleUntilSettled | src/rendering/renderer.rs:64-72 | the outer loop adds the samples in order and stops at the first boundary whose delta is at most the cutoff, or when no whole batch remains |
| Renderers.KeptGoingStep | src/rendering/renderer.rs:64-72 | after one more batch whose delta is still above the cutoff, the delta has been above the cutoff at every boundary so far |
| Renderers.AddBatch | src/rendering/renderer.rs:65-71 | the inner loop adds the next batch of samples, in order, to the running mean |
| Renderers.PixelInRange | src/rendering/renderer.rs:74 | when every sample colour is in [0, 1], so is the pixel |
| ParBuffers.ParBuffer.constructor | src/rendering/par_buffer.rs:25-32 | a fresh grid of the given rows and columns, every cell black |
| ParBuffers.ParBuffer.LockRow | src/rendering/par_buffer.rs:34-38 | a handle on row i of this buffer; i must name a row |
| ParBuffers.ParBuffer.RowLog | src/rendering/par_buffer.rs:43-46 | copying the first x cells of row y makes x calls, call k drawing cell (k, y) gamma-corrected |
| ParBuffers.ParBuffer.BlitTo | src/rendering/par_buffer.rs:40-48 | the nested loops make exactly the calls of all rows in order, each row in column order; the buffer is only read |
| ParBuffers.ParBuffer.BlitLogLength | src/rendering/par_buffer.rs:40-48 | copying y rows makes one call per cell of those rows |
| ParBuffers.ParBuffer.BlitLogAt | src/rendering/par_buffer.rs:40-48 | call number y' cols + x draws cell (x, y') with its gamma-corrected colour, for every cell |
| ParBuffers.ParBuffer.BlitLogCell | src/rendering/par_buffer.rs:40-48 | the same for one cell, by induction on the rows copied |
| ParBuffers.ParBuffer.LastRowCell | src/rendering/par_buffer.rs:43-46 | a cell of the last row copied sits at its row-major position |
| ParBuffers.BufRow.constructor | src/rendering/par_buffer.rs:35-37 | the handle refers to the given buffer and row |
| ParBuffers.BufRow.Set | src/rendering/par_buffer.rs:19-21 | cell j of the row becomes c and every other cell is unchanged; j must name a column |
| ParBuffers.RowMajorIsProduct | src/rendering/par_buffer.rs:41-46 | the row-major position of (x, y) is y cols + x |
| ParBuffers.EarlierRow | src/rendering/par_buffer.rs:41-46 | every cell of an earlier row comes before the start of a later one |
| Randoms.ComponentAsWritten | src/util.rs:6-8 | as written, a component lies in [-(hi - lo) / 2, (hi - lo) / 2) |
| Randoms.RandomVec3AsWritten | src/util.rs:4-10 | as written, the vector lies in a box of side hi - lo centred on the origin |
| Randoms.AsWrittenLeavesRange | src/util.rs:4-10 | with lo = 0, hi = 1 and a zero draw, the vector is (-1/2, -1/2, -1/2), outside [lo, hi) |
| Randoms.Component | src/util.rs:4-10 | corrected: a component lo + (hi - lo) r lies in [lo, hi) |
| Randoms.RandomVec3 | src/util.rs:4-10 | corrected: every component lies in [lo, hi) |
| Randoms.AgreeOnSymmetricRange | src/util.rs:14 | on a range centred on 0, such as [-1, 1), the two versions agree |
| Randoms.FirstInBall | src/util.rs:12-19 | the first candidate with squared length at most 1: every earlier one is outside the ball; None when all are |
| Randoms.RandomUnitVec3 | src/util.rs:12-19 | the loop returns the normalised first candidate inside the unit ball, or None exactly when every candidate is rejected |
| Randoms.FirstInBallIs | src/util.rs:12-19 | the index a left-to-right search stops at is the first accepted one |
| Randoms.AcceptedIsUnit | src/util.rs:16 | a non-zero accepted candidate normalises to a unit vector |
| Randoms.RandomOnHemisphere | src/util.rs:21-28 | the result is the drawn vector or its negation, never points away from the normal, and is the draw itself when that points along the normal |
| Materials.LambertianScatter | src/lighting/lambertian.rs:19-27 | always scatters from the hit point with the albedo; the direction is normal + random unit vector normalised, or the normal when that sum is small |
| Materials.LambertianUnitDir | src/lighting/lambertian.rs:21-25 | with a unit normal and an `is_small` that holds of zero, the bounce direction is a unit vector |
| Materials.MetalScatter | src/lighting/metal.rs:18-26 | scatters exactly when reflection + fuzz times the random vector leaves on the normal's side, then from the hit point, with the albedo, along that direction normalised |
| Materials.NoFuzzIsMirror | src/lighting/metal.rs:19-20 | without fuzz the candidate direction is the reflection itself |
| Materials.MirrorScatters | src/lighting/metal.rs:18-26 | with the mirror reflection about a unit normal and no fuzz, a ray arriving against the normal always scatters |
| Materials.NewDiffuseLight | src/lighting/diffuselight.rs:16-18 | the light keeps its texture |
| Materials.Solid | src/lighting/diffuselight.rs:20-22 | a solid light shows one solid-colour texture |
| Materials.DiffuseLightScatter | src/lighting/diffuselight.rs:26-32 | a light never scatters |
| Materials.Emit | src/lighting/diffuselight.rs:34-36 | the emission is the texture's colour at the hit's surface coordinates, in range when the texture's solid colours are |
| Materials.SolidEmitsColor | src/lighting/diffuselight.rs:20-22 | a solid light emits its colour at every surface point |
| Textures.NewSolidColor | src/lighting/texture/solidcolor.rs:9-12 | the texture keeps its colour |
| Textures.PixelIndex | src/lighting/texture/image.rs:31-32 | the truncating cast of x n for x in [0, 1) is the floor, a valid index below n |
| Textures.IndexMonotone | src/lighting/texture/image.rs:31-32 | a larger coordinate never picks an earlier pixel |
| Textures.ColorAt | src/lighting/texture/image.rs:26-35 | a solid texture gives its colour; a scaled one asks the inner texture at (u / su, v / sv); an image gives the in-range pixel at the floor of (u w, v h) |
| Textures.SolidIgnoresPoint | src/lighting/texture/solidcolor.rs:15-18 | a solid colour is the same at every surface point |
| Textures.UnitScaleIsInner | src/lighting/texture/scaletex.rs:14-17 | scaling by 1 in both directions changes nothing |
| Textures.ColorAtInRange | src/lighting/texture/scaletex.rs:14-17 | a texture whose solid colours are in range yields only colours in range |

## Left out

- Window, event loop, timing and scene wiring (`src/main.rs`), file loading (`TriMesh::from_fname`, `Image::from_fname`), the SDL and `image` render surfaces, and scene-description parsing: these are I/O and setup. `draw_point` is modelled as a logged call (`ParBuffers.DrawCall`).
- `Renderer::render` and `Renderer::new`:
  - `render` fills the buffer in parallel with rayon (src/rendering/renderer.rs:51-58); each pixel's work is `Renderers.RenderPx`.
  - The per-row `Mutex`es of the pixel buffer exist only for that parallelism. The buffer is a plain 2-D array, and `lock_row` returns a handle without locking.
- Random sources (`rand::rng()`) are left out; the draws are parameters: a `u64` for `Axis::random`, sequences of draws for the loops.
- Rotation construction (`from_axis_angle`, `from_euler`) needs trigonometry and is not modelled. The two matrices are inputs, and the lemmas require them to be inverse to each other.
- `Camera::new`'s `to_radians`/`tan` is not modelled; the viewport height is an input.
- `BVH::construct` and `BVH::bbox` are not part of this model; the built tree is a parameter of `TriMeshes.FromVertsFaces`, and the tree's box a parameter of `TriMeshes.Bbox`. The `translate`, `min` and `max` helpers of `AABB` that the wrappers call are not defined in src/geom/aabb.rs, and their definitions are not part of this model; they are modelled per axis as `Boxes.Translate`, `Boxes.MinCorner` and `Boxes.MaxCorner`.
- IEEE floating point (NaN, infinities, rounding, overflow) is not modelled; all arithmetic is exact over `real`.
  - `f64::MAX`, `f64::EPSILON` and the 1e-8/1e-10 thresholds are kept as constants.
  - A positive zero direction component in the slab test is modelled by the outcome IEEE division gives (`Boxes.Parallel`).
- In-place updates return new values instead of changing a shared object:
  - `Interval::pad_by`, `AABB::pad_to_minimums`, `Color::clamp` and `+=`;
  - writing through `Intersection::point_mut` (`Hits.WithPoint`).
  - Aliasing of those objects is therefore not modelled.
- Dynamic dispatch on `Geom`, `Material` and `Texture` trait objects is replaced by function parameters (geometry) and datatypes (materials and textures). Materials are referred to by handle in an intersection.
- Files outside the compiled module tree, superseded copies, trait declarations, `bvhcache.rs`, `raypacket.rs` and the `todo!()` checkerboard texture carry no behaviour of the core and are not modelled.
- `Lambertian::new`, `Metal::new`, `SolidColor::color_at` and `DiffuseLight::emit` are covered by the datatypes and by `Textures.ColorAt` and `Materials.Emit`.
- OnlineMeans.OnlineMean.AddSample: the `usize` sample count is unbounded, so its overflow is not modelled.
- Renderers.RenderPx: a finite list of sample draws stands in for the unbounded random stream. When the draws run out before the delta settles, the result is None, which the source never returns.
- Randoms.RandomUnitVec3: likewise a finite list of candidates; None when every candidate lies outside the unit ball.
- Boxes.Union: the union is the least box covering both arguments only when no axis of the joined intervals is thinner than the 0.0001 padding threshold (`Boxes.UnionLeast`); a thinner axis is padded past every tight cover (`Boxes.ThinUnionNotLeast`).
- OnlineMeans.OnlineMean.ConvergenceDelta: the delta measures one step of the mean, not how far the mean is from settling. Samples alternating between two distinct colours can push it below their squared half-difference after three samples (`OnlineMeans.AlternatingSettles`), so no such lower bound is claimed.
- Renderers.RenderPx: requires samples_per_batch > 0. With 0 and a cutoff below `f64::MAX`, the source's loop never ends, because no sample is ever added and the delta stays `f64::MAX`.
- TriMeshes.Intersect: the bvh.rs in this model is the non-generic `BVH` over `Box<dyn Geom>` leaves, and it has no `construct` or `bbox`. `TriMesh` uses a generic `BVH<Triangle>`, whose code is not part of this model; the model assumes that its query descends as bvh.rs:18-36 does.
- Boxes.Parallel: only a positive zero direction component is modelled. With -0.0, `1.0 / d` is -inf, and the source then keeps `i` on a well-formed slab exactly when lo <= o <= hi, which is the closed rule of `Boxes.ParallelClosed`; an inverted slab with a bound equal to o is rejected. A -0.0 component arises from products such as 0.0 x -1.0 in the rotation and scaling wrappers.
- Spheres.Intersect: the hit's uv is (0, 0). The source passes the ray where the uv belongs (src/geom/sphere.rs:62), so no surface coordinates are computed.
- Planes.Intersect: reaching `todo!()` is the outcome `ReachesTodo`, not a panic. The model proves that the call never returns a hit.

## Findings

| source | as written | input that shows it | evidently intended | confidence | as-written member | corrected member |
|---|---|---|---|---|---|---|
| src/geom/cube.rs:55-69 | the top face has u = (2r, 0, 0) and v = (0, 0, 2r), so u x v = (0, -4r^2, 0); the bottom face has the mirror image, +4r^2 | any r > 0, e.g. centre (0, 0, 0) and r = 1: the top face's normal points down, into the cube | u x v points out of the cube on every face, as the comment at cube.rs:20-21 says | not executed | Cubes.TopBottomInward, Cubes.NewCubeAsWritten | Cubes.FacesOutward, Cubes.NewCube |
| src/geom/bvh.rs:27-30 | a node whose left box passes the slab test returns the left subtree's answer, even None, and never asks the right subtree; no nearest hit is chosen | a node over two leaves whose boxes both pass, where the left leaf misses and the right leaf hits (Bvhs.AsWrittenMissesRightChild) | search every child whose box passes and keep the nearer hit, so the query equals the nearest-hit scan over the leaves | not executed | Bvhs.AsWrittenMissesRightChild, Bvhs.IntersectAsWritten, TriMeshes.Intersect | Bvhs.IntersectIsNearest, Bvhs.Intersect, TriMeshes.IntersectNearest |
| src/geom/aabb.rs:91-120 | with a +0.0 direction component, `1.0 / 0.0` is +inf, and a slab bound equal to the origin coordinate gives 0 x inf = NaN; every comparison with NaN fails, so the else branch sets i.max to -inf and the test fails. Separately, `i.max <= i.min` also rejects an interval narrowed to a single point | the unit sphere and the ray from (-5, 0, 1) along +x with i = [0.001, 100] meet at t = 5 in the face plane z = 1, yet the box test and the sphere query miss; the ray from (0, 0, 5) along -z with i = [0.001, 4] reaches the unit cube at t = 4 and is rejected | the box test never rejects a ray that meets the closed box within `i`, so no sphere hit is lost to it | not executed | Boxes.FaceRayRejected, Boxes.EndOfRangeRejected, Spheres.TangentRejected, Spheres.Intersect | Boxes.SlabClosedSound, Boxes.SlabClosedComplete, Spheres.IntersectCorrected, Spheres.CorrectedIffMeets |
| src/util.rs:4-10 | each component is (hi - lo) r - (hi - lo) / 2, centred on 0 | lo = 0, hi = 1, all draws 0: the vector is (-1/2, -1/2, -1/2), outside [lo, hi) | each component is lo + (hi - lo) r, inside [lo, hi) | not executed | Randoms.AsWrittenLeavesRange, Randoms.RandomVec3AsWritten | Randoms.Component, Randoms.RandomVec3 |
