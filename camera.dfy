/** The pinhole camera (rendering/camera.rs): the affine map from pixel
    coordinates to points on the viewport, and the ray from the camera
    position through such a point. The viewport height, which the program
    derives from the vertical field of view with `tan`, is an input. */
module Cameras {
  import opened Vectors
  import opened Rays

  /** The position, the centre of pixel (0, 0) and the world-space step of
      one pixel to the right (u) and one pixel down (v). */
  datatype Camera = Camera(pos: Vec3, pixel00: Vec3, pixelDeltaU: Vec3, pixelDeltaV: Vec3)

  /** The viewport keeps the window's aspect ratio. */
  function ViewportWidth(viewportHeight: real, windowWidth: nat, windowHeight: nat): (w: real)
    requires windowHeight > 0
    ensures w * (windowHeight as real) == viewportHeight * (windowWidth as real)
  {
    viewportHeight * (windowWidth as real / windowHeight as real)
  }

  /** w: the unit vector from the look-at point back to the camera. */
  function Back(sqrt: real -> real, pos: Vec3, fwd: Vec3, focalLength: real): Vec3 {
    var lookat := Add(pos, Scale(fwd, focalLength));
    Normalize(sqrt, Sub(pos, lookat))
  }

  /** The viewport's horizontal edge, `u` scaled to the viewport width. */
  function ViewportU(viewportWidth: real, fwd: Vec3, up: Vec3): Vec3 {
    Scale(Cross(fwd, up), viewportWidth)
  }

  /** The viewport's vertical edge, pointing down the screen. */
  function ViewportV(viewportHeight: real, w: Vec3, fwd: Vec3, up: Vec3): Vec3 {
    Neg(Scale(Cross(w, Cross(fwd, up)), viewportHeight))
  }

  /** The viewport's upper-left corner: the viewport centre, one focal length
      in front of the camera, moved back by half of each edge. */
  function UpperLeft(pos: Vec3, w: Vec3, focalLength: real, vu: Vec3, vv: Vec3): Vec3 {
    Sub(Sub(Sub(pos, Scale(w, focalLength)), Scale(vu, 0.5)), Scale(vv, 0.5))
  }

  /** `Camera::new`. The window sizes divide, so they must be nonzero. */
  function New(sqrt: real -> real, windowWidth: nat, windowHeight: nat, pos: Vec3, fwd: Vec3, up: Vec3,
               focalLength: real, viewportHeight: real): (c: Camera)
    requires windowWidth > 0 && windowHeight > 0
    ensures c.pos == pos
    ensures var w := Back(sqrt, pos, fwd, focalLength);
      var vu := ViewportU(ViewportWidth(viewportHeight, windowWidth, windowHeight), fwd, up);
      var vv := ViewportV(viewportHeight, w, fwd, up);
      Scale(c.pixelDeltaU, windowWidth as real) == vu &&
      Scale(c.pixelDeltaV, windowHeight as real) == vv &&
      c.pixel00 == Add(UpperLeft(pos, w, focalLength, vu, vv), Scale(Add(c.pixelDeltaU, c.pixelDeltaV), 0.5))
  {
    var viewportWidth := ViewportWidth(viewportHeight, windowWidth, windowHeight);
    var w := Back(sqrt, pos, fwd, focalLength);
    var vu := ViewportU(viewportWidth, fwd, up);
    var vv := ViewportV(viewportHeight, w, fwd, up);
    var du := Scale(vu, 1.0 / windowWidth as real);
    var dv := Scale(vv, 1.0 / windowHeight as real);
    ScaleInverse(vu, windowWidth as real);
    ScaleInverse(vv, windowHeight as real);
    var screen00 := Add(UpperLeft(pos, w, focalLength, vu, vv), Scale(Add(du, dv), 0.5));
    Camera(pos, screen00, du, dv)
  }

  lemma ScaleInverse(a: Vec3, k: real)
    requires k != 0.0
    ensures Scale(Scale(a, 1.0 / k), k) == a
  {
    assert k * (1.0 / k * a.x) == (k * (1.0 / k)) * a.x;
    assert k * (1.0 / k * a.y) == (k * (1.0 / k)) * a.y;
    assert k * (1.0 / k * a.z) == (k * (1.0 / k)) * a.z;
  }

  /** The point `ray_through` aims at for pixel coordinates (u, v). */
  function Target(c: Camera, u: real, v: real): Vec3 {
    Add(Add(c.pixel00, Scale(c.pixelDeltaU, u)), Scale(c.pixelDeltaV, v))
  }

  /** `ray_through`: from the camera position towards the target point. */
  function RayThrough(sqrt: real -> real, c: Camera, u: real, v: real): (r: Ray)
    ensures r.origin == c.pos
    ensures r.dir == Normalize(sqrt, Sub(Target(c, u, v), c.pos))
    ensures IsSqrt(sqrt) && c.pos != Target(c, u, v) ==>
      IsUnit(r.dir) && At(r, Norm(sqrt, Sub(Target(c, u, v), c.pos))) == Target(c, u, v)
  {
    ThroughPoints(sqrt, c.pos, Target(c, u, v))
  }

  /** Pixel (0, 0) aims at the stored centre of pixel (0, 0). */
  lemma TargetOrigin(c: Camera)
    ensures Target(c, 0.0, 0.0) == c.pixel00
  {
  }

  /** One pixel to the right moves the target by `pixel_delta_u`, one pixel
      down by `pixel_delta_v`. */
  lemma TargetSteps(c: Camera, u: real, v: real)
    ensures Target(c, u + 1.0, v) == Add(Target(c, u, v), c.pixelDeltaU)
    ensures Target(c, u, v + 1.0) == Add(Target(c, u, v), c.pixelDeltaV)
  {
  }

  /** One channel of the corner and centre computations below. */
  lemma ChannelCorners(ul: real, du: real, dv: real, ww: real, wh: real, vu: real, vv: real)
    requires ww * du == vu && wh * dv == vv
    ensures (ul + 0.5 * (du + dv)) + (-0.5) * du + (-0.5) * dv == ul
    ensures (ul + 0.5 * (du + dv)) + (ww - 0.5) * du + (wh - 0.5) * dv == ul + vu + vv
    ensures (ul + 0.5 * (du + dv)) + (ww / 2.0 - 0.5) * du + (wh / 2.0 - 0.5) * dv == ul + 0.5 * vu + 0.5 * vv
  {
  }

  /** The pixel grid spans the viewport: the outer corner of pixel (0, 0) is
      the viewport's upper-left corner, the outer corner of the last pixel is
      the opposite corner, and the middle of the window aims at the viewport
      centre, one focal length in front of the camera. */
  lemma {:induction false} ScreenCorners(sqrt: real -> real, windowWidth: nat, windowHeight: nat, pos: Vec3,
                                         fwd: Vec3, up: Vec3, focalLength: real, viewportHeight: real)
    requires windowWidth > 0 && windowHeight > 0
    ensures var c := New(sqrt, windowWidth, windowHeight, pos, fwd, up, focalLength, viewportHeight);
      var w := Back(sqrt, pos, fwd, focalLength);
      var vu := ViewportU(ViewportWidth(viewportHeight, windowWidth, windowHeight), fwd, up);
      var vv := ViewportV(viewportHeight, w, fwd, up);
      var ul := UpperLeft(pos, w, focalLength, vu, vv);
      var ww := windowWidth as real;
      var wh := windowHeight as real;
      Target(c, -0.5, -0.5) == ul &&
      Target(c, ww - 0.5, wh - 0.5) == Add(Add(ul, vu), vv) &&
      Target(c, ww / 2.0 - 0.5, wh / 2.0 - 0.5) == Sub(pos, Scale(w, focalLength))
  {
    var c := New(sqrt, windowWidth, windowHeight, pos, fwd, up, focalLength, viewportHeight);
    var w := Back(sqrt, pos, fwd, focalLength);
    var vu := ViewportU(ViewportWidth(viewportHeight, windowWidth, windowHeight), fwd, up);
    var vv := ViewportV(viewportHeight, w, fwd, up);
    var ul := UpperLeft(pos, w, focalLength, vu, vv);
    GridSpans(c, ul, vu, vv, windowWidth as real, windowHeight as real);
    UpperLeftToCentre(pos, w, focalLength, vu, vv);
  }

  /** The corners and the centre of a pixel grid whose deltas divide the
      viewport edges and whose first centre is half a pixel in from the
      upper-left corner. */
  lemma GridSpans(c: Camera, ul: Vec3, vu: Vec3, vv: Vec3, ww: real, wh: real)
    requires Scale(c.pixelDeltaU, ww) == vu && Scale(c.pixelDeltaV, wh) == vv
    requires c.pixel00 == Add(ul, Scale(Add(c.pixelDeltaU, c.pixelDeltaV), 0.5))
    ensures Target(c, -0.5, -0.5) == ul
    ensures Target(c, ww - 0.5, wh - 0.5) == Add(Add(ul, vu), vv)
    ensures Target(c, ww / 2.0 - 0.5, wh / 2.0 - 0.5) == Add(Add(ul, Scale(vu, 0.5)), Scale(vv, 0.5))
  {
    var du := c.pixelDeltaU;
    var dv := c.pixelDeltaV;
    ChannelCorners(ul.x, du.x, dv.x, ww, wh, vu.x, vv.x);
    ChannelCorners(ul.y, du.y, dv.y, ww, wh, vu.y, vv.y);
    ChannelCorners(ul.z, du.z, dv.z, ww, wh, vu.z, vv.z);
  }

  /** Half of each edge on from the upper-left corner is the viewport centre. */
  lemma UpperLeftToCentre(pos: Vec3, w: Vec3, focalLength: real, vu: Vec3, vv: Vec3)
    ensures Add(Add(UpperLeft(pos, w, focalLength, vu, vv), Scale(vu, 0.5)), Scale(vv, 0.5)) == Sub(pos, Scale(w, focalLength))
  {
  }
}
