/**
 * The additive (RGB) and subtractive (CMY) colour spaces of CMYColor.java.
 *
 * A packed colour is the 32 bits of a Java `int`, read here as an unsigned
 * number: alpha in bits 24..31, red in 16..23, green in 8..15 and blue in 0..7,
 * as the toolkit's `Color.rgb`, `Color.red`, `Color.green` and `Color.blue`
 * pack and unpack it. CMY components are Java floats, modelled as exact reals.
 */
module ColorSpace {

  /** The bits of a Java `int` colour, as an unsigned number. */
  type Color = c: int | 0 <= c < 0x1_0000_0000

  /** The alpha bits of an opaque colour. */
  const OPAQUE: Color := 0xFF00_0000

  predicate IsChannel(v: int) { 0 <= v <= 255 }

  /** `Color.alpha`, `Color.red`, `Color.green`, `Color.blue`. */
  function Alpha(col: Color): int { col / 0x100_0000 }
  function Red(col: Color): int { (col / 0x1_0000) % 0x100 }
  function Green(col: Color): int { (col / 0x100) % 0x100 }
  function Blue(col: Color): int { col % 0x100 }

  /** `Color.rgb` on channels in 0..255: opaque alpha with each channel shifted into its field. */
  function Rgb(r: int, g: int, b: int): Color
    requires IsChannel(r) && IsChannel(g) && IsChannel(b)
  {
    OPAQUE + r * 0x1_0000 + g * 0x100 + b
  }

  /** The colour with its alpha bits set, Java's `col | 0xFF000000`. */
  function MakeOpaque(col: Color): Color {
    OPAQUE + col % 0x100_0000
  }

  /** Packing three channels and unpacking them again gives them back, with opaque alpha. */
  lemma RgbChannels(r: int, g: int, b: int)
    requires IsChannel(r) && IsChannel(g) && IsChannel(b)
    ensures Red(Rgb(r, g, b)) == r && Green(Rgb(r, g, b)) == g && Blue(Rgb(r, g, b)) == b
    ensures Alpha(Rgb(r, g, b)) == 255
  {
    var col := Rgb(r, g, b);
    assert col / 0x100 == 0xFF_0000 + r * 0x100 + g;
    assert col / 0x1_0000 == 0xFF00 + r;
  }

  /** Repacking the channels of any colour gives that colour made opaque. */
  lemma RgbOfChannels(col: Color)
    ensures Rgb(Red(col), Green(col), Blue(col)) == MakeOpaque(col)
  {
    var b, q0 := col % 0x100, col / 0x100;
    var g, q1 := q0 % 0x100, q0 / 0x100;
    var r, q2 := q1 % 0x100, q1 / 0x100;
    assert col == q0 * 0x100 + b;
    assert q0 == q1 * 0x100 + g;
    assert q1 == q2 * 0x100 + r;
    assert q1 == col / 0x1_0000;
    assert col == q2 * 0x100_0000 + r * 0x1_0000 + g * 0x100 + b;
    assert col % 0x100_0000 == r * 0x1_0000 + g * 0x100 + b;
  }

  const INT_MAX: int := 0x7FFF_FFFF
  const INT_MIN: int := -0x8000_0000

  /** Java's `(int)` cast of a float: truncation toward zero, saturating at the range of `int`. */
  function JavaInt(v: real): int {
    if v >= 0.0 then
      (if v.Floor > INT_MAX then INT_MAX else v.Floor)
    else
      (var t := -((-v).Floor); if t < INT_MIN then INT_MIN else t)
  }

  lemma JavaIntMonotone(a: real, b: real)
    requires a <= b
    ensures JavaInt(a) <= JavaInt(b)
  {
    if a < 0.0 && b < 0.0 {
      assert (-b).Floor <= (-a).Floor;
    }
  }

  /** One RGB channel computed from one CMY component, as `toRGB` does. */
  function Channel(k: real): int {
    JavaInt((1.0 - k) * 255.0)
  }

  /** A component in [0,1] gives a channel in 0..255; 0 gives 255 and 1 gives 0. */
  lemma ChannelRange(k: real)
    requires 0.0 <= k <= 1.0
    ensures IsChannel(Channel(k))
    ensures k == 0.0 ==> Channel(k) == 255
    ensures k == 1.0 ==> Channel(k) == 0
  {
    JavaIntMonotone(0.0, (1.0 - k) * 255.0);
    JavaIntMonotone((1.0 - k) * 255.0, 255.0);
  }

  /** A larger component never gives a larger channel, whatever the components are. */
  lemma ChannelAntitone(k1: real, k2: real)
    requires k1 <= k2
    ensures Channel(k1) >= Channel(k2)
  {
    JavaIntMonotone((1.0 - k2) * 255.0, (1.0 - k1) * 255.0);
  }

  /** A channel is restored exactly from the component `fromRGB` computes for it. */
  lemma ChannelOfComponent(v: int)
    requires IsChannel(v)
    ensures Channel(1.0 - (v as real) / 255.0) == v
  {
    assert (1.0 - (1.0 - (v as real) / 255.0)) * 255.0 == v as real;
  }

  /** A CMY triple. */
  datatype Cmy = Cmy(c: real, m: real, y: real)

  predicate InUnit(k: real) { 0.0 <= k <= 1.0 }

  predicate IsProper(col: Cmy) { InUnit(col.c) && InUnit(col.m) && InUnit(col.y) }

  /**
   * `toRGB`: each channel is the truncation of (1 - component) * 255, packed by
   * `Color.rgb`; the result is opaque and holds exactly those channels, each in 0..255.
   */
  function ToRgb(c: real, m: real, y: real): (col: Color)
    requires InUnit(c) && InUnit(m) && InUnit(y)
    ensures Alpha(col) == 255
    ensures Red(col) == Channel(c) && Green(col) == Channel(m) && Blue(col) == Channel(y)
    ensures IsChannel(Red(col)) && IsChannel(Green(col)) && IsChannel(Blue(col))
  {
    ChannelRange(c);
    ChannelRange(m);
    ChannelRange(y);
    RgbChannels(Channel(c), Channel(m), Channel(y));
    Rgb(Channel(c), Channel(m), Channel(y))
  }

  /** For components in [0,1], raising one component never raises the channel it controls. */
  lemma ToRgbAntitone(a: Cmy, b: Cmy)
    requires IsProper(a) && IsProper(b)
    ensures a.c <= b.c ==> Red(ToRgb(a.c, a.m, a.y)) >= Red(ToRgb(b.c, b.m, b.y))
    ensures a.m <= b.m ==> Green(ToRgb(a.c, a.m, a.y)) >= Green(ToRgb(b.c, b.m, b.y))
    ensures a.y <= b.y ==> Blue(ToRgb(a.c, a.m, a.y)) >= Blue(ToRgb(b.c, b.m, b.y))
  {
    if a.c <= b.c { ChannelAntitone(a.c, b.c); }
    if a.m <= b.m { ChannelAntitone(a.m, b.m); }
    if a.y <= b.y { ChannelAntitone(a.y, b.y); }
  }

  /** `fromRGB`: each component is 1 - channel/255, so it lies in [0,1]; alpha is ignored. */
  function FromRgb(col: Color): (r: Cmy)
    ensures IsProper(r)
  {
    Cmy(1.0 - (Red(col) as real) / 255.0, 1.0 - (Green(col) as real) / 255.0, 1.0 - (Blue(col) as real) / 255.0)
  }

  /** In exact arithmetic converting to CMY and back restores the three channels and makes the colour opaque. */
  lemma RoundTrip(col: Color)
    ensures var back := FromRgb(col); var r := ToRgb(back.c, back.m, back.y);
      r == MakeOpaque(col) && Red(r) == Red(col) && Green(r) == Green(col) && Blue(r) == Blue(col)
  {
    ChannelOfComponent(Red(col));
    ChannelOfComponent(Green(col));
    ChannelOfComponent(Blue(col));
    RgbOfChannels(col);
    RgbChannels(Red(col), Green(col), Blue(col));
  }

  /** The mutable CMYColor object: three components that its setters change one at a time. */
  class CmyColor {
    var c: real
    var m: real
    var y: real

    /** A new object holds Java's default float value, zero, in every component. */
    constructor ()
      ensures c == 0.0 && m == 0.0 && y == 0.0
    {
      c, m, y := 0.0, 0.0, 0.0;
    }

    method SetC(v: real)
      modifies this
      ensures c == v && m == old(m) && y == old(y)
    {
      c := v;
    }

    method SetM(v: real)
      modifies this
      ensures m == v && c == old(c) && y == old(y)
    {
      m := v;
    }

    method SetY(v: real)
      modifies this
      ensures y == v && c == old(c) && m == old(m)
    {
      y := v;
    }

    /** `getC`, `getM`, `getY`: the stored components, as the setters left them. */
    function GetC(): (r: real) reads this ensures r == c { c }
    function GetM(): (r: real) reads this ensures r == m { m }
    function GetY(): (r: real) reads this ensures r == y { y }

    /** The components lie in the range the class documents, [0,1]. */
    ghost predicate Valid()
      reads this
    {
      InUnit(c) && InUnit(m) && InUnit(y)
    }

    /** `getRGB`: the opaque colour whose channels `toRGB` computes from the current components. */
    function GetRgb(): (r: Color)
      reads this
      requires Valid()
      ensures Alpha(r) == 255 && Red(r) == Channel(c) && Green(r) == Channel(m) && Blue(r) == Channel(y)
    {
      ToRgb(c, m, y)
    }
  }
}
