/** Materials (lighting/lambertian.rs, metal.rs, diffuselight.rs): how a hit
    scatters the incoming light and what it emits. The random unit vector is
    a parameter, and so are the helpers `reflect` and `is_small`, which are
    not part of this model. */
module Materials {
  import opened Vectors
  import opened Rays
  import C = Colors
  import opened Hits
  import opened Options
  import T = Textures

  /** A scattered ray and the attenuation it carries. */
  datatype Scatter = Scatter(color: C.Color, ray: Ray)

  /** `Lambertian::scatter`: a bounce along the normal plus a random unit
      vector, falling back to the normal when that sum is small. It always
      scatters, with the albedo as attenuation, from the hit point. */
  function LambertianScatter(sqrt: real -> real, isSmall: Vec3 -> bool, albedo: C.Color, hit: Intersection, rand: Vec3)
    : (s: Option<Scatter>)
    ensures s.Some? && s.value.color == albedo && s.value.ray.origin == hit.point
    ensures !isSmall(Add(hit.normal, rand)) ==> s.value.ray.dir == Normalize(sqrt, Add(hit.normal, rand))
    ensures isSmall(Add(hit.normal, rand)) ==> s.value.ray.dir == Normalize(sqrt, hit.normal)
  {
    var bounce := Add(hit.normal, rand);
    var dir := if isSmall(bounce) then hit.normal else bounce;
    Some(Scatter(albedo, Rays.New(hit.point, Normalize(sqrt, dir))))
  }

  /** When `is_small` holds of the zero vector and the normal has unit
      length, the bounce direction is a unit vector: the fallback exists
      precisely so that a random vector opposite the normal does not leave a
      zero direction. */
  lemma {:induction false} LambertianUnitDir(sqrt: real -> real, isSmall: Vec3 -> bool, albedo: C.Color, hit: Intersection, rand: Vec3)
    requires IsSqrt(sqrt) && isSmall(Zero) && IsUnit(hit.normal)
    ensures IsUnit(LambertianScatter(sqrt, isSmall, albedo, hit, rand).value.ray.dir)
  {
    var bounce := Add(hit.normal, rand);
    if isSmall(bounce) {
      NormSquaredNonNeg(hit.normal);
      NormalizeUnit(sqrt, hit.normal);
    } else {
      NormalizeUnit(sqrt, bounce);
    }
  }

  /** The direction `Metal::scatter` tries: the reflection plus a fuzz-scaled
      random unit vector. */
  function MetalCandidate(reflect: (Vec3, Vec3) -> Vec3, fuzz: real, rayIn: Ray, hit: Intersection, rand: Vec3): Vec3 {
    Add(reflect(rayIn.dir, hit.normal), Scale(rand, fuzz))
  }

  /** `Metal::scatter`: it scatters exactly when the candidate leaves on the
      normal's side, then along the normalised candidate. */
  function MetalScatter(sqrt: real -> real, reflect: (Vec3, Vec3) -> Vec3, albedo: C.Color, fuzz: real,
                        rayIn: Ray, hit: Intersection, rand: Vec3): (s: Option<Scatter>)
    ensures s.Some? <==> Dot(MetalCandidate(reflect, fuzz, rayIn, hit, rand), hit.normal) > 0.0
    ensures s.Some? ==> s.value.color == albedo && s.value.ray.origin == hit.point
    ensures s.Some? ==> s.value.ray.dir == Normalize(sqrt, MetalCandidate(reflect, fuzz, rayIn, hit, rand))
  {
    var scattered := MetalCandidate(reflect, fuzz, rayIn, hit, rand);
    if Dot(scattered, hit.normal) > 0.0 then
      Some(Scatter(albedo, NewNormalize(sqrt, hit.point, scattered)))
    else
      None
  }

  /** Without fuzz the candidate is the reflection itself. */
  lemma NoFuzzIsMirror(reflect: (Vec3, Vec3) -> Vec3, rayIn: Ray, hit: Intersection, rand: Vec3)
    ensures MetalCandidate(reflect, 0.0, rayIn, hit, rand) == reflect(rayIn.dir, hit.normal)
  {
  }

  /** With the mirror reflection d - 2 (d . n) n about a unit normal and no
      fuzz, a ray arriving against the normal always scatters. */
  lemma {:induction false} MirrorScatters(sqrt: real -> real, reflect: (Vec3, Vec3) -> Vec3, albedo: C.Color,
                                          rayIn: Ray, hit: Intersection, rand: Vec3)
    requires reflect(rayIn.dir, hit.normal) == Sub(rayIn.dir, Scale(hit.normal, 2.0 * Dot(rayIn.dir, hit.normal)))
    requires IsUnit(hit.normal) && Dot(rayIn.dir, hit.normal) < 0.0
    ensures MetalScatter(sqrt, reflect, albedo, 0.0, rayIn, hit, rand).Some?
  {
    var d := rayIn.dir;
    var n := hit.normal;
    var k := 2.0 * Dot(d, n);
    assert Dot(Sub(d, Scale(n, k)), n) == Dot(d, n) - k * Dot(n, n) by {
      assert Dot(Scale(n, k), n) == k * Dot(n, n);
    }
    assert MetalCandidate(reflect, 0.0, rayIn, hit, rand) == Sub(d, Scale(n, k));
  }

  /** `DiffuseLight`: an emitter that shows its texture. */
  datatype DiffuseLight = DiffuseLight(tex: T.Texture)

  /** `DiffuseLight::new` keeps the texture. */
  function NewDiffuseLight(tex: T.Texture): (l: DiffuseLight)
    ensures l.tex == tex
  {
    DiffuseLight(tex)
  }

  /** `DiffuseLight::solid`: a light of one colour. */
  function Solid(c: C.Color): (l: DiffuseLight)
    ensures l.tex == T.SolidColor(c)
  {
    NewDiffuseLight(T.NewSolidColor(c))
  }

  /** `DiffuseLight::scatter`: a light never scatters, whatever it is given. */
  function DiffuseLightScatter(l: DiffuseLight, rayIn: Ray, hit: Intersection): (s: Option<Scatter>)
    ensures s.None?
  {
    None
  }

  /** `DiffuseLight::emit`: the texture's colour at the hit's surface
      coordinates. The point is passed on for textures that take one. */
  function Emit(l: DiffuseLight, uv: UV, xyz: Vec3): (c: C.Color)
    requires T.Defined(l.tex, uv)
    ensures c == T.ColorAt(l.tex, uv, xyz)
    ensures T.SolidsInRange(l.tex) ==> C.InRange(c)
  {
    EmitInRange(l, uv, xyz);
    T.ColorAt(l.tex, uv, xyz)
  }

  lemma EmitInRange(l: DiffuseLight, uv: UV, xyz: Vec3)
    requires T.Defined(l.tex, uv)
    ensures T.SolidsInRange(l.tex) ==> C.InRange(T.ColorAt(l.tex, uv, xyz))
  {
    if T.SolidsInRange(l.tex) {
      T.ColorAtInRange(l.tex, uv, xyz);
    }
  }

  /** A solid light emits its colour everywhere. */
  lemma SolidEmitsColor(c: C.Color, uv: UV, xyz: Vec3)
    ensures T.Defined(Solid(c).tex, uv)
    ensures Emit(Solid(c), uv, xyz) == c
  {
  }
}
