/** The colour-space arithmetic of color.js over exact reals: `Math.round`,
    `_hue2rgb`, the HSL-to-RGB block of `toRGB`/`toRGBA` and the RGB-to-HSL
    block of `toHSL`/`toHSLA`. */
module ColorMath {

  /** `Math.round`: the nearest integer, halves rounded towards +infinity. */
  function Round(x: real): int
  {
    (x + 0.5).Floor
  }

  lemma RoundWithin(x: real, lo: int, hi: int)
    requires lo as real <= x <= hi as real
    ensures lo <= Round(x) <= hi
  {
  }

  lemma RoundInteger(n: int)
    ensures Round(n as real) == n
  {
  }

  function Max3(a: real, b: real, c: real): (m: real)
    ensures m == a || m == b || m == c
    ensures a <= m && b <= m && c <= m
  {
    if a >= b && a >= c then a else if b >= c then b else c
  }

  function Min3(a: real, b: real, c: real): (m: real)
    ensures m == a || m == b || m == c
    ensures m <= a && m <= b && m <= c
  {
    if a <= b && a <= c then a else if b <= c then b else c
  }

  /** A product `p == d * t` of a non-negative `d` and a factor in [0,1]
      lies between 0 and `d`. */
  lemma ScaleWithin(d: real, t: real, p: real)
    requires d >= 0.0 && 0.0 <= t <= 1.0 && p == d * t
    ensures 0.0 <= p <= d
  {
    assert d - p == d * (1.0 - t);
  }

  /** A quotient whose numerator is no larger in size than its positive
      denominator lies in [-1,1]. */
  lemma QuotientWithin(x: real, y: real)
    ensures y > 0.0 && -y <= x <= y ==> -1.0 <= x / y <= 1.0
  {
    if y > 0.0 {
      assert x / y * y == x;
    }
  }

  lemma QuotientNonNegative(x: real, y: real)
    ensures y > 0.0 && 0.0 <= x <= y ==> 0.0 <= x / y <= 1.0
  {
    if y > 0.0 {
      assert x / y * y == x;
    }
  }

  /** `_hue2rgb` (color.js:530-549): the hue fraction is brought back into
      range once, then one of four segments gives a value between `m1` and
      `m2`, scaled to 0-255. */
  function Hue2Rgb(m1: real, m2: real, hue: real): (v: real)
    ensures 0.0 <= m1 <= m2 <= 1.0 && -1.0 <= hue <= 2.0 ==> 0.0 <= v <= 255.0
  {
    var h := if hue < 0.0 then hue + 1.0 else if hue > 1.0 then hue - 1.0 else hue;
    var v :=
      if 6.0 * h < 1.0 then m1 + (m2 - m1) * h * 6.0
      else if 2.0 * h < 1.0 then m2
      else if 3.0 * h < 2.0 then m1 + (m2 - m1) * (2.0 / 3.0 - h) * 6.0
      else m1;
    Hue2RgbWithin(m1, m2, hue, h, v);
    255.0 * v
  }

  lemma Hue2RgbWithin(m1: real, m2: real, hue: real, h: real, v: real)
    requires h == if hue < 0.0 then hue + 1.0 else if hue > 1.0 then hue - 1.0 else hue
    requires v ==
      if 6.0 * h < 1.0 then m1 + (m2 - m1) * h * 6.0
      else if 2.0 * h < 1.0 then m2
      else if 3.0 * h < 2.0 then m1 + (m2 - m1) * (2.0 / 3.0 - h) * 6.0
      else m1
    ensures 0.0 <= m1 <= m2 <= 1.0 && -1.0 <= hue <= 2.0 ==> 0.0 <= v <= 1.0
  {
    if 0.0 <= m1 <= m2 <= 1.0 && -1.0 <= hue <= 2.0 {
      var d := m2 - m1;
      if 6.0 * h < 1.0 {
        var t := h * 6.0;
        ScaleWithin(d, t, d * t);
        assert d * h * 6.0 == d * t;
      } else if 2.0 * h < 1.0 {
      } else if 3.0 * h < 2.0 {
        var t := (2.0 / 3.0 - h) * 6.0;
        ScaleWithin(d, t, d * t);
        assert d * (2.0 / 3.0 - h) * 6.0 == d * t;
      }
    }
  }

  /** The two bounds `m1` and `m2` of the HSL-to-RGB block (color.js:134-140),
      for saturation and lightness as fractions. */
  function Bounds(s: real, l: real): (m: (real, real))
    ensures 0.0 <= s <= 1.0 && 0.0 <= l <= 1.0 ==> 0.0 <= m.0 <= m.1 <= 1.0
  {
    var m2 := if l <= 0.5 then l * (s + 1.0) else l + s - l * s;
    BoundsWithin(s, l, m2);
    (l * 2.0 - m2, m2)
  }

  lemma BoundsWithin(s: real, l: real, m2: real)
    requires m2 == if l <= 0.5 then l * (s + 1.0) else l + s - l * s
    ensures 0.0 <= s <= 1.0 && 0.0 <= l <= 1.0 ==> 0.0 <= l * 2.0 - m2 <= m2 <= 1.0
  {
    if 0.0 <= s <= 1.0 && 0.0 <= l <= 1.0 {
      var ls := l * s;
      if l <= 0.5 {
        ScaleWithin(l, s, ls);
        assert m2 == ls + l;
      } else {
        var k := (1.0 - l) * s;
        ScaleWithin(1.0 - l, s, k);
        assert k == s - ls;
      }
    }
  }

  /** The channels an HSL colour converts to. */
  datatype Channels = Channels(r: real, g: real, b: real)

  /** A channel the conversion may emit: within 0-255 and a whole number of
      hundredths, so that it prints with at most two decimals. */
  predicate IsChannel(x: real)
  {
    0.0 <= x <= 255.0 && (x * 100.0).Floor as real == x * 100.0
  }

  /** One rounded channel of the chromatic case (color.js:142-144). */
  function Channel(m1: real, m2: real, hue: real): (c: int)
    requires 0.0 <= m1 <= m2 <= 1.0 && -1.0 <= hue <= 2.0
    ensures 0 <= c <= 255
  {
    RoundWithin(Hue2Rgb(m1, m2, hue), 0, 255);
    Round(Hue2Rgb(m1, m2, hue))
  }

  lemma WholeIsChannel(n: int)
    requires 0 <= n <= 255
    ensures IsChannel(n as real)
  {
    assert n as real * 100.0 == (n * 100) as real;
  }

  /** The achromatic value `l * 255` for a lightness of `light` percent. */
  function Grey(light: nat): (v: real)
    requires light <= 100
    ensures IsChannel(v)
    ensures v == (light * 255) as real / 100.0
  {
    var v := light as real / 100.0 * 255.0;
    assert v * 100.0 == (light * 255) as real;
    v
  }

  /** `l * 255` is a whole number exactly when `light * 255` is a multiple
      of 100; 50% gives 127.5. */
  lemma GreyWhole(light: nat)
    requires light <= 100
    ensures Grey(light).Floor as real == Grey(light) <==> (light * 255) % 100 == 0
  {
    var n := light * 255;
    var q, m := n / 100, n % 100;
    var v := Grey(light);
    assert n == q * 100 + m && 0 <= m < 100;
    assert v == q as real + m as real / 100.0;
    assert v.Floor == q;
  }

  /** The HSL-to-RGB block of `toRGB` and `toRGBA` (color.js:126-145), from
      the integers `parseInt` reads for hue, saturation and lightness, which
      the HSL patterns keep within 360, 100 and 100. Without saturation all
      three channels are `l * 255`, not rounded; otherwise each is
      `_hue2rgb` rounded. */
  function HslToRgb(h: nat, sat: nat, light: nat): (c: Channels)
    requires h <= 360 && sat <= 100 && light <= 100
    ensures IsChannel(c.r) && IsChannel(c.g) && IsChannel(c.b)
    ensures sat != 0 ==>
      c.r.Floor as real == c.r && c.g.Floor as real == c.g && c.b.Floor as real == c.b
    ensures sat == 0 ==> c.r == c.g == c.b == (light * 255) as real / 100.0
    ensures sat == 0 ==> (c.r.Floor as real == c.r <==> (light * 255) % 100 == 0)
  {
    var s := sat as real / 100.0;
    var l := light as real / 100.0;
    if s == 0.0 then
      var v := Grey(light);
      GreyWhole(light);
      Channels(v, v, v)
    else
      var m := Bounds(s, l);
      var hue := h as real / 360.0;
      var r := Channel(m.0, m.1, hue + 1.0 / 3.0);
      var g := Channel(m.0, m.1, hue);
      var b := Channel(m.0, m.1, hue - 1.0 / 3.0);
      WholeIsChannel(r);
      WholeIsChannel(g);
      WholeIsChannel(b);
      Channels(r as real, g as real, b as real)
  }

  /** An HSL triple as `toHSL` emits it. */
  datatype HslValue = HslValue(h: int, s: int, l: int)

  /** Saturation as a fraction (color.js:303-311). */
  function Saturation(max: real, min: real): (s: real)
    requires 0.0 <= min <= max <= 1.0
    ensures 0.0 <= s <= 1.0
  {
    var l := (max + min) / 2.0;
    if max != min then
      if l < 0.5 then
        QuotientNonNegative(max - min, max + min); (max - min) / (max + min)
      else
        QuotientNonNegative(max - min, 2.0 - max - min); (max - min) / (2.0 - max - min)
    else 0.0
  }

  /** The hue in sixths of a turn (color.js:304-320), from whichever channel
      is largest. */
  function HueSixths(r: real, g: real, b: real): (h: real)
    ensures -1.0 <= h <= 5.0
  {
    var max := Max3(r, g, b);
    var min := Min3(r, g, b);
    if max != min then
      if r == max then QuotientWithin(g - b, max - min); (g - b) / (max - min)
      else if g == max then QuotientWithin(b - r, max - min); 2.0 + (b - r) / (max - min)
      else QuotientWithin(r - g, max - min); 4.0 + (r - g) / (max - min)
    else 0.0
  }

  /** The RGB-to-HSL block of `toHSL` and `toHSLA` (color.js:291-329), from
      the integers `parseInt` reads for red, green and blue. A hue that
      rounds to a negative number of degrees `h` is replaced by `360 - (-h)`.
      The channels are at most 255 wherever color.js reaches this block. */
  function RgbToHsl(red: nat, green: nat, blue: nat): (c: HslValue)
    requires red <= 255 && green <= 255 && blue <= 255
    ensures 0 <= c.h < 360 && 0 <= c.s <= 100 && 0 <= c.l <= 100
  {
    var r := red as real / 255.0;
    var g := green as real / 255.0;
    var b := blue as real / 255.0;
    var max := Max3(r, g, b);
    var min := Min3(r, g, b);
    var l := (max + min) / 2.0;
    var s := Saturation(max, min);
    var h := HueSixths(r, g, b);
    var hDeg := Round(h * 60.0);
    var sPct := Round(s * 100.0);
    var lPct := Round(l * 100.0);
    var hue := if hDeg < 0 then 360 - (-hDeg) else hDeg;
    RoundWithin(h * 60.0, -60, 300);
    RoundWithin(s * 100.0, 0, 100);
    RoundWithin(l * 100.0, 0, 100);
    HslValue(hue, sPct, lPct)
  }
}
