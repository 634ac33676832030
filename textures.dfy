/** Textures (lighting/texture/): a solid colour, a texture with its surface
    coordinates divided by two scales, and an in-memory image. The texture
    trait objects are the variants of one datatype. */
module Textures {
  import opened Vectors
  import opened Colors

  datatype Texture =
    | SolidColor(albedo: Color)
    | ScaleTex(scaleU: real, scaleV: real, tex: Texture)
      /** `pixels[j][i]` is the pixel in column i of row j, as decoded. */
    | Image(width: nat, height: nat, pixels: seq<seq<Vec3>>)

  /** `SolidColor::new` keeps the colour. */
  function NewSolidColor(albedo: Color): (t: Texture)
    ensures t.SolidColor? && t.albedo == albedo
  {
    SolidColor(albedo)
  }

  /** The pixel grid has the stated size. */
  predicate ImageShaped(t: Texture)
    requires t.Image?
  {
    |t.pixels| == t.height && forall j :: 0 <= j < t.height ==> |t.pixels[j]| == t.width
  }

  /** The column (or row) `(x * n) as u32` picks for a coordinate x in
      [0, 1): the cast truncates, which for x >= 0 is the floor. */
  function PixelIndex(x: real, n: nat): (i: nat)
    requires 0.0 <= x < 1.0 && n > 0
    ensures i < n
    ensures i as real <= x * n as real < i as real + 1.0
  {
    IndexBelow(x, n);
    (x * n as real).Floor
  }

  lemma IndexBelow(x: real, n: nat)
    requires 0.0 <= x < 1.0 && n > 0
    ensures 0.0 <= x * n as real < n as real
  {
    if 0.0 < x {
      TimesPos(x, n as real);
    }
    TimesPos(1.0 - x, n as real);
  }

  /** A larger coordinate never picks an earlier pixel. */
  lemma IndexMonotone(x: real, y: real, n: nat)
    requires 0.0 <= x <= y < 1.0 && n > 0
    ensures PixelIndex(x, n) <= PixelIndex(y, n)
  {
    if x < y {
      TimesPos(y - x, n as real);
    }
  }

  /** The coordinates `ScaleTex` hands to its inner texture. */
  function Unscale(uv: UV, su: real, sv: real): UV
    requires su != 0.0 && sv != 0.0
  {
    UV(uv.u / su, uv.v / sv)
  }

  lemma UnscaleByOne(uv: UV)
    ensures Unscale(uv, 1.0, 1.0) == uv
  {
  }

  /** What `Image::color_at` needs: u and v in [0, 1), a well-shaped,
      nonempty image, and channels in [0, 1] at the chosen pixel, which
      `Color::new` asserts. */
  predicate ImageLookupOk(t: Texture, uv: UV)
    requires t.Image?
  {
    0.0 <= uv.u < 1.0 && 0.0 <= uv.v < 1.0 && t.width > 0 && t.height > 0 && ImageShaped(t) &&
    InRange(Color(t.pixels[PixelIndex(uv.v, t.height)][PixelIndex(uv.u, t.width)]))
  }

  /** Every assertion and division `color_at` reaches succeeds. `ScaleTex`
      has no guard against a zero scale, so the model needs nonzero ones. */
  predicate Defined(t: Texture, uv: UV) {
    match t
    case SolidColor(_) => true
    case ScaleTex(su, sv, inner) => su != 0.0 && sv != 0.0 && Defined(inner, Unscale(uv, su, sv))
    case Image(_, _, _) => ImageLookupOk(t, uv)
  }

  /** `color_at`. `xyz` is passed on by `ScaleTex` and ignored by the others. */
  function ColorAt(t: Texture, uv: UV, xyz: Vec3): (c: Color)
    requires Defined(t, uv)
    ensures t.SolidColor? ==> c == t.albedo
    ensures t.ScaleTex? ==> c == ColorAt(t.tex, Unscale(uv, t.scaleU, t.scaleV), xyz)
    ensures t.Image? ==>
      var i := PixelIndex(uv.u, t.width);
      var j := PixelIndex(uv.v, t.height);
      i < t.width && j < t.height && c == New(t.pixels[j][i].x, t.pixels[j][i].y, t.pixels[j][i].z)
    ensures t.Image? ==> InRange(c)
  {
    match t
    case SolidColor(albedo) => albedo
    case ScaleTex(su, sv, inner) => ColorAt(inner, Unscale(uv, su, sv), xyz)
    case Image(w, h, px) =>
      var i := PixelIndex(uv.u, w);
      var j := PixelIndex(uv.v, h);
      var p := px[j][i];
      New(p.x, p.y, p.z)
  }

  /** A solid colour is the same at every surface point. */
  lemma SolidIgnoresPoint(albedo: Color, uv1: UV, xyz1: Vec3, uv2: UV, xyz2: Vec3)
    ensures ColorAt(SolidColor(albedo), uv1, xyz1) == ColorAt(SolidColor(albedo), uv2, xyz2)
  {
  }

  /** Scaling by 1 in both directions changes nothing. */
  lemma UnitScaleIsInner(inner: Texture, uv: UV, xyz: Vec3)
    requires Defined(inner, uv)
    ensures Defined(ScaleTex(1.0, 1.0, inner), uv)
    ensures ColorAt(ScaleTex(1.0, 1.0, inner), uv, xyz) == ColorAt(inner, uv, xyz)
  {
    UnscaleByOne(uv);
  }

  /** Only the colours stored in solid textures can fall outside [0, 1]. */
  predicate SolidsInRange(t: Texture) {
    match t
    case SolidColor(albedo) => InRange(albedo)
    case ScaleTex(_, _, inner) => SolidsInRange(inner)
    case Image(_, _, _) => true
  }

  /** A texture whose solid colours are in range only yields in-range colours. */
  lemma {:induction false} ColorAtInRange(t: Texture, uv: UV, xyz: Vec3)
    requires Defined(t, uv) && SolidsInRange(t)
    ensures InRange(ColorAt(t, uv, xyz))
  {
    match t
    case SolidColor(_) =>
    case ScaleTex(su, sv, inner) =>
      ColorAtInRange(inner, Unscale(uv, su, sv), xyz);
    case Image(_, _, _) =>
  }
}
