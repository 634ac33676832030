/** Linear RGB colours (lighting/color.rs): a vector of three channels that
    the arithmetic operators keep in [0, 1] by clamping, the gamma-encoded
    colour and its conversion to bytes. */
module Colors {
  import opened Vectors

  datatype Color = Color(v: Vec3)

  /** A gamma-encoded colour, ready to be turned into bytes. */
  datatype GammaColor = GammaColor(v: Vec3)

  /** An 8-bit channel value. */
  newtype Byte = b: int | 0 <= b < 256

  /** Every channel lies in [0, 1]. */
  predicate InRange(c: Color) {
    0.0 <= c.v.x <= 1.0 && 0.0 <= c.v.y <= 1.0 && 0.0 <= c.v.z <= 1.0
  }

  /** `Color::new` asserts that each channel lies in [0, 1]. */
  function New(r: real, g: real, b: real): (c: Color)
    requires 0.0 <= r <= 1.0 && 0.0 <= g <= 1.0 && 0.0 <= b <= 1.0
    ensures InRange(c)
    ensures c.v == Vec3(r, g, b)
  {
    Color(Vec3(r, g, b))
  }

  /** `Color::from_vec` takes the channels without any check. */
  function FromVec(v: Vec3): (c: Color)
    ensures InnerVec(c) == v
    ensures InRange(c) <==> 0.0 <= v.x <= 1.0 && 0.0 <= v.y <= 1.0 && 0.0 <= v.z <= 1.0
  {
    Color(v)
  }

  function InnerVec(c: Color): Vec3 {
    c.v
  }

  /** `from_vec` and `inner_vec` are inverse. */
  lemma FromVecInnerVec(c: Color)
    ensures FromVec(InnerVec(c)) == c
  {
  }

  function White(): (c: Color)
    ensures InRange(c)
  {
    New(1.0, 1.0, 1.0)
  }

  function Black(): (c: Color)
    ensures InRange(c)
  {
    New(0.0, 0.0, 0.0)
  }

  /** `Color::default()` is black. */
  function Default(): (c: Color)
    ensures c == Black()
  {
    Black()
  }

  /** One channel of `clamp`: first `min(x, 1)`, then `max(x, 0)`. */
  function ClampChannel(x: real): (r: real)
    ensures 0.0 <= r <= 1.0
    ensures 0.0 <= x <= 1.0 ==> r == x
    ensures x < 0.0 ==> r == 0.0
    ensures 1.0 < x ==> r == 1.0
  {
    var m := if x <= 1.0 then x else 1.0;
    if m >= 0.0 then m else 0.0
  }

  /** `Color::clamp`, which clamps the channels in place; the model returns
      the clamped colour. */
  function Clamp(c: Color): (r: Color)
    ensures InRange(r)
    ensures InRange(c) ==> r == c
    ensures r.v.x == ClampChannel(c.v.x) && r.v.y == ClampChannel(c.v.y) && r.v.z == ClampChannel(c.v.z)
  {
    Color(Vec3(ClampChannel(c.v.x), ClampChannel(c.v.y), ClampChannel(c.v.z)))
  }

  lemma ClampIdempotent(c: Color)
    ensures Clamp(Clamp(c)) == Clamp(c)
  {
  }

  /** `Color::scale` multiplies the channels without clamping. */
  function Scale(c: Color, f: real): (r: Color)
    ensures InRange(c) && 0.0 <= f <= 1.0 ==> InRange(r)
  {
    ScaleStaysInRange(c, f);
    FromVec(Vectors.Scale(c.v, f))
  }

  lemma ScaleStaysInRange(c: Color, f: real)
    ensures InRange(c) && 0.0 <= f <= 1.0 ==> InRange(FromVec(Vectors.Scale(c.v, f)))
  {
    if InRange(c) && 0.0 <= f <= 1.0 {
      UnitProduct(f, c.v.x);
      UnitProduct(f, c.v.y);
      UnitProduct(f, c.v.z);
    }
  }

  /** Neither `scale` nor `from_vec` keeps a colour within range. */
  lemma ScaleAndFromVecUnchecked()
    ensures !InRange(Scale(White(), 2.0))
    ensures !InRange(FromVec(Vec3(-1.0, 0.0, 0.0)))
  {
  }

  /** A product of two numbers in [0, 1] is in [0, 1]. */
  lemma UnitProduct(a: real, b: real)
    requires 0.0 <= a <= 1.0 && 0.0 <= b <= 1.0
    ensures 0.0 <= a * b <= a && a * b <= b
  {
  }

  /** `a + b`: the channel-wise sum, clamped. */
  function Add(a: Color, b: Color): (r: Color)
    ensures InRange(r)
    ensures InRange(FromVec(Vectors.Add(a.v, b.v))) ==> r.v == Vectors.Add(a.v, b.v)
    ensures r.v.x == ClampChannel(a.v.x + b.v.x) && r.v.y == ClampChannel(a.v.y + b.v.y)
    ensures r.v.z == ClampChannel(a.v.z + b.v.z)
  {
    Clamp(Color(Vectors.Add(a.v, b.v)))
  }

  /** `a += b`, which replaces `a` by `a + b`. */
  method AddAssign(a: Color, b: Color) returns (r: Color)
    ensures r == Add(a, b)
    ensures InRange(r)
  {
    r := Add(a, b);
  }

  /** `a * b`: the channel-wise product, clamped. Two colours in range need
      no clamping. */
  function Mul(a: Color, b: Color): (r: Color)
    ensures InRange(r)
    ensures InRange(a) && InRange(b) ==> r.v == Vectors.Mul(a.v, b.v)
    ensures r.v.x == ClampChannel(a.v.x * b.v.x) && r.v.y == ClampChannel(a.v.y * b.v.y)
    ensures r.v.z == ClampChannel(a.v.z * b.v.z)
  {
    MulInRange(a, b);
    Clamp(Color(Vec3(a.v.x * b.v.x, a.v.y * b.v.y, a.v.z * b.v.z)))
  }

  lemma MulInRange(a: Color, b: Color)
    ensures InRange(a) && InRange(b) ==> InRange(Color(Vectors.Mul(a.v, b.v)))
  {
    if InRange(a) && InRange(b) {
      UnitProduct(a.v.x, b.v.x);
      UnitProduct(a.v.y, b.v.y);
      UnitProduct(a.v.z, b.v.z);
    }
  }

  lemma AddCommutative(a: Color, b: Color)
    ensures Add(a, b) == Add(b, a)
  {
  }

  lemma MulCommutative(a: Color, b: Color)
    ensures Mul(a, b) == Mul(b, a)
  {
  }

  lemma MulWhite(c: Color)
    requires InRange(c)
    ensures Mul(c, White()) == c
  {
  }

  lemma MulBlack(c: Color)
    ensures Mul(c, Black()) == Black()
  {
  }

  /** Black plus black times anything is black. */
  lemma AbsorbBlack(e: Color, d: Color, a: Color)
    requires e == Black() && d == Black()
    ensures Add(e, Mul(d, a)) == Black()
  {
    assert Mul(d, a) == Black();
  }

  /** `From<&UnitVector3>`: maps each component x of [-1, 1] to (1 + x) / 2;
      `Color::new` asserts the result is in range. */
  function FromUnit(n: Vec3): (c: Color)
    requires -1.0 <= n.x <= 1.0 && -1.0 <= n.y <= 1.0 && -1.0 <= n.z <= 1.0
    ensures InRange(c)
    ensures Vectors.Sub(Vectors.Scale(c.v, 2.0), Vec3(1.0, 1.0, 1.0)) == n
  {
    New((1.0 + n.x) / 2.0, (1.0 + n.y) / 2.0, (1.0 + n.z) / 2.0)
  }

  /** A unit vector satisfies the precondition of `FromUnit`. */
  lemma {:induction false} UnitComponentsBounded(n: Vec3)
    requires IsUnit(n)
    ensures -1.0 <= n.x <= 1.0 && -1.0 <= n.y <= 1.0 && -1.0 <= n.z <= 1.0
  {
    assert n.x * n.x + n.y * n.y + n.z * n.z == 1.0;
    assert 0.0 <= n.y * n.y && 0.0 <= n.z * n.z && 0.0 <= n.x * n.x;
    SquareAtMostOne(n.x, n.x * n.x);
    SquareAtMostOne(n.y, n.y * n.y);
    SquareAtMostOne(n.z, n.z * n.z);
  }

  lemma SquareAtMostOne(x: real, sq: real)
    requires sq == x * x && sq <= 1.0
    ensures -1.0 <= x <= 1.0
  {
  }

  /** `Color::gamma`: the square root of each channel. */
  function Gamma(sqrt: real -> real, c: Color): (g: GammaColor)
    ensures IsSqrt(sqrt) && InRange(c) ==>
      0.0 <= g.v.x <= 1.0 && 0.0 <= g.v.y <= 1.0 && 0.0 <= g.v.z <= 1.0 &&
      g.v.x * g.v.x == c.v.x && g.v.y * g.v.y == c.v.y && g.v.z * g.v.z == c.v.z
  {
    GammaInRange(sqrt, c);
    GammaColor(Vec3(sqrt(c.v.x), sqrt(c.v.y), sqrt(c.v.z)))
  }

  lemma GammaInRange(sqrt: real -> real, c: Color)
    ensures IsSqrt(sqrt) && InRange(c) ==>
      0.0 <= sqrt(c.v.x) <= 1.0 && 0.0 <= sqrt(c.v.y) <= 1.0 && 0.0 <= sqrt(c.v.z) <= 1.0 &&
      sqrt(c.v.x) * sqrt(c.v.x) == c.v.x && sqrt(c.v.y) * sqrt(c.v.y) == c.v.y && sqrt(c.v.z) * sqrt(c.v.z) == c.v.z
  {
    if IsSqrt(sqrt) && InRange(c) {
      SqrtOfUnit(sqrt, c.v.x);
      SqrtOfUnit(sqrt, c.v.y);
      SqrtOfUnit(sqrt, c.v.z);
    }
  }

  lemma SqrtOfUnit(sqrt: real -> real, x: real)
    requires IsSqrt(sqrt) && 0.0 <= x <= 1.0
    ensures 0.0 <= sqrt(x) <= 1.0 && sqrt(x) * sqrt(x) == x
  {
    var s := sqrt(x);
    assert 0.0 <= s && s * s == x;
  }

  /** One channel of the byte conversion: `(g * 256).floor() as u8`, where the
      float-to-integer cast saturates at 0 and 255. */
  function ToByte(g: real): (b: Byte)
    ensures 0.0 <= g < 1.0 ==> b as int == (g * 256.0).Floor
    ensures 1.0 <= g ==> b == 255
    ensures g < 0.0 ==> b == 0
  {
    var f := (g * 256.0).Floor;
    if f < 0 then 0 else if f > 255 then 255 else f as Byte
  }

  /** A larger channel never gives a smaller byte. */
  lemma ToByteMonotone(g: real, h: real)
    requires g <= h
    ensures ToByte(g) <= ToByte(h)
  {
    assert g * 256.0 <= h * 256.0;
  }

  /** The three bytes of a gamma colour (the conversions to an SDL colour and
      to an `image` pixel agree). */
  function ToRgb(g: GammaColor): (rgb: (Byte, Byte, Byte))
    ensures g.v == Vec3(1.0, 1.0, 1.0) ==> rgb == (255, 255, 255)
    ensures g.v == Zero ==> rgb == (0, 0, 0)
    ensures g.v == Vec3(0.5, 0.5, 0.5) ==> rgb == (128, 128, 128)
  {
    (ToByte(g.v.x), ToByte(g.v.y), ToByte(g.v.z))
  }
}
