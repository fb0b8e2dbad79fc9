/** Fixed blend colours: the 24-bit colour registers, their decoding into channels,
    and the tests that decide whether a fixed colour can be replaced by GL_ONE or
    GL_ZERO. Floats in the source hold channel/255; here a channel is kept as the
    byte itself and every float comparison becomes an exact rational one. */
module BlendColor {
  import opened GL
  import opened GE

  /** A colour decoded from a 24-bit register: red in the low byte. */
  datatype Rgb = Rgb(r: byte, g: byte, b: byte)

  /** Packs three channels back into the register layout. */
  function ToRgb24(c: Rgb): Rgb24 {
    c.r + 256 * c.g + 65536 * c.b
  }

  /** Vec3f::FromRGB, channel by channel: red is bits 0-7, green 8-15, blue 16-23. */
  function FromRgb(fix: Rgb24): Rgb {
    Rgb(fix % 256, (fix / 256) % 256, fix / 65536)
  }

  /** Packing the decoded channels gives back the register value. */
  lemma ToRgb24OfFromRgb(fix: Rgb24)
    ensures ToRgb24(FromRgb(fix)) == fix
  {
  }

  /** Decoding a packed colour gives back its channels, so decoding is a bijection. */
  lemma FromRgbInverse(c: Rgb)
    ensures FromRgb(ToRgb24(c)) == c
  {
    var x := ToRgb24(c);
    assert x == c.r + 256 * (c.g + 256 * c.b);
    assert x % 256 == c.r && x / 256 == c.g + 256 * c.b;
    assert x / 65536 == (x / 256) / 256;
  }

  /** The two bit-exact tests of the resolver are tests on all three channels. */
  lemma ExactColors(fix: Rgb24)
    ensures fix == 0xFF_FFFF <==> FromRgb(fix) == Rgb(255, 255, 255)
    ensures fix == 0 <==> FromRgb(fix) == Rgb(0, 0, 0)
  {
  }

  /** channel/255 >= 0.99 */
  predicate NearOne(c: byte): (r: bool)
    ensures r <==> c >= 253
  {
    100 * c >= 99 * 255
  }

  /** channel/255 <= 0.01 */
  predicate NearZero(c: byte): (r: bool)
    ensures r <==> c <= 2
  {
    100 * c <= 255
  }

  /** blendColor2Func: picks GL_ONE or GL_ZERO for a fixed colour when it can, and
      GL_INVALID_ENUM when the colour needs the GL blend colour. Only the bit-exact
      white and black leave the approximation flag as it was. */
  function BlendColor2Func(fix: Rgb24, approx: bool): (r: (BlendFactor, bool))
    ensures r.0 in {One, Zero, InvalidEnum}
    ensures fix == 0xFF_FFFF ==> r == (One, approx)
    ensures fix == 0 ==> r == (Zero, approx)
    ensures fix != 0xFF_FFFF && fix != 0 ==> r.1
    ensures var c := FromRgb(fix); r.0 == One <==> c.r >= 253 && c.g >= 253 && c.b >= 253
    ensures var c := FromRgb(fix); r.0 == Zero <==> c.r <= 2 && c.g <= 2 && c.b <= 2
  {
    ExactColors(fix);
    if fix == 0xFF_FFFF then (One, approx)
    else if fix == 0 then (Zero, approx)
    else
      var c := FromRgb(fix);
      if NearOne(c.r) && NearOne(c.g) && NearOne(c.b) then (One, true)
      else if NearZero(c.r) && NearZero(c.g) && NearZero(c.b) then (Zero, true)
      else (InvalidEnum, true)
  }

  /** A colour vector in units of 1/255: the Vec3f of the source, times 255. */
  datatype Vec3 = Vec3(x: int, y: int, z: int)

  /** Vec3f::FromRGB(fix) */
  function ToVec(fix: Rgb24): Vec3 {
    var c := FromRgb(fix);
    Vec3(c.r, c.g, c.b)
  }

  /** Vec3f::AssignToAll(1.0f) */
  const White := Vec3(255, 255, 255)

  /** Vec3f::AssignToAll(0.0f) */
  const Black := Vec3(0, 0, 0)

  /** Vec3f::AssignToAll(1.0f) - v */
  function OneMinus(v: Vec3): Vec3 {
    Vec3(255 - v.x, 255 - v.y, 255 - v.z)
  }

  /** The default margin of blendColorSimilar, 0.1f. */
  const DefaultMargin := Fraction(1, 10)

  /** The margin of the last-resort approximation, 0.25f. */
  const ApproxMargin := Fraction(1, 4)

  function Abs(d: int): nat {
    if d < 0 then -d else d
  }

  /** |d / 255| <= margin */
  predicate WithinMargin(d: int, margin: Fraction) {
    Abs(d) * margin.den <= margin.num * 255
  }

  /** blendColorSimilar: every channel of a - b is within the margin. With the
      two margins the source uses, this is a byte distance of 25 or 63. */
  predicate BlendColorSimilar(a: Vec3, b: Vec3, margin: Fraction): (r: bool)
    ensures margin == DefaultMargin ==>
      (r <==> Abs(a.x - b.x) <= 25 && Abs(a.y - b.y) <= 25 && Abs(a.z - b.z) <= 25)
    ensures margin == ApproxMargin ==>
      (r <==> Abs(a.x - b.x) <= 63 && Abs(a.y - b.y) <= 63 && Abs(a.z - b.z) <= 63)
  {
    WithinMargin(a.x - b.x, margin) && WithinMargin(a.y - b.y, margin) && WithinMargin(a.z - b.z, margin)
  }

  /** Similarity does not depend on the order of the two colours. */
  lemma SimilarSymmetric(a: Vec3, b: Vec3, margin: Fraction)
    ensures BlendColorSimilar(a, b, margin) == BlendColorSimilar(b, a, margin)
  {
    assert Abs(a.x - b.x) == Abs(b.x - a.x);
    assert Abs(a.y - b.y) == Abs(b.y - a.y);
    assert Abs(a.z - b.z) == Abs(b.z - a.z);
  }

  /** Comparing a with 1 - b is comparing 1 - a with b: the complement test of the
      resolver is symmetric in its two colours. */
  lemma SimilarToComplement(a: Vec3, b: Vec3, margin: Fraction)
    ensures BlendColorSimilar(a, OneMinus(b), margin) == BlendColorSimilar(OneMinus(a), b, margin)
  {
    assert a.x - (255 - b.x) == -((255 - a.x) - b.x);
    assert Abs(a.x - (255 - b.x)) == Abs((255 - a.x) - b.x);
    assert Abs(a.y - (255 - b.y)) == Abs((255 - a.y) - b.y);
    assert Abs(a.z - (255 - b.z)) == Abs((255 - a.z) - b.z);
  }

  /** When blendColor2Func picks ONE or ZERO, that unit colour is within 0.01 of the
      fixed colour in every channel (and so within the default margin), so the
      approximation it flags is small. */
  lemma UnitFactorApproximates(fix: Rgb24)
    ensures BlendColor2Func(fix, false).0 == One ==>
      BlendColorSimilar(White, ToVec(fix), Fraction(1, 100)) && BlendColorSimilar(White, ToVec(fix), DefaultMargin)
    ensures BlendColor2Func(fix, false).0 == Zero ==>
      BlendColorSimilar(Black, ToVec(fix), Fraction(1, 100)) && BlendColorSimilar(Black, ToVec(fix), DefaultMargin)
  {
  }
}
