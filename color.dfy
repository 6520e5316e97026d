/** The converters of color.js: `toRGB`, `toRGBA`, `toHSL`, `toHSLA`,
    `toHEX` and `contrast`. Each classifies its input with `type`, removes
    the spaces, and either returns the text unchanged (already in the
    target shape), converts it, or fails. */
module Color {
  import opened Text
  import opened ColorFormat
  import opened ColorMath
  import opened ColorFields

  /** Why a converter yields no colour: `false` (the input has no shape),
      `undefined` (no branch takes a TEXTO input), or the TypeError that
      `.split` throws on either of those when a converter goes on with it. */
  datatype Failure = NotAColor | NoResult | Thrown

  datatype Result<+T> = Ok(value: T) | Fail(failure: Failure)

  /** The two answers of `contrast`. */
  datatype Shade = Light | Dark

  /** The `trans` argument of `toRGBA` and `toHSLA`: omitted, a string, or a
      number, given by the text JavaScript prints for it. */
  datatype Trans = Omitted | Str(s: string) | Num(printed: string)

  /** The arguments `!trans` holds for. */
  predicate Falsy(t: Trans)
  {
    t.Omitted? || t == Str("") || t == Num("0") || t == Num("NaN")
  }

  /** The text `trans` contributes once a falsy one is replaced by 1. */
  function AlphaText(t: Trans): string
  {
    if Falsy(t) then "1"
    else match t
      case Str(s) => s
      case Num(p) => p
      case Omitted => "1"
  }

  /** The converters classify the stripped text again, through `toRGB`: it
      keeps its shape, except that a TEXTO input may turn out to be HEX once
      its spaces are gone. */
  lemma StrippedType(color: string)
    requires Type(color).Some?
    ensures var c := StripSpaces(color);
      if Type(color).value != Text then Type(c) == Type(color)
      else Type(c) == if IsHex(c) then Some(Hex) else Some(Text)
  {
    var c := StripSpaces(color);
    StripSpacesNoSpace(c);
    if Type(color) == Some(Hex) {
      HexHasNoSpace(color);
      StripSpacesNoSpace(color);
    } else {
      ShapesDisjoint(c);
    }
  }

  // Writing the results.

  /** `rgba(r,g,b,trans)` for whole channels. */
  function RgbaInts(r: nat, g: nat, b: nat, alpha: string): string
  {
    Call4("rgba", DecText(r), DecText(g), DecText(b), alpha)
  }

  /** `rgba(r,g,b,trans)` with the channels as JavaScript prints them. */
  function RgbaText(ch: Channels, alpha: string): string
    requires IsChannel(ch.r) && IsChannel(ch.g) && IsChannel(ch.b)
  {
    Call4("rgba", NumberText(ch.r), NumberText(ch.g), NumberText(ch.b), alpha)
  }

  /** `hsl(h,s%,l%)`. */
  function HslText(c: HslValue): string
    requires 0 <= c.h && 0 <= c.s && 0 <= c.l
  {
    Call3("hsl", DecText(c.h), DecText(c.s) + "%", DecText(c.l) + "%")
  }

  /** `hsla(h,s%,l%,trans)`. */
  function HslaText(c: HslValue, alpha: string): string
    requires 0 <= c.h && 0 <= c.s && 0 <= c.l
  {
    Call4("hsla", DecText(c.h), DecText(c.s) + "%", DecText(c.l) + "%", alpha)
  }

  /** The channel values of the HSL branch of `toRGB` and `toRGBA`
      (color.js:120-145), from the integers `parseInt` reads. */
  function HslChannels(c: string): Channels
    requires HslLike(c)
  {
    var (h, s, l) := Ints3(c);
    HslToRgb(h, s, l)
  }

  lemma HslOrHslaShape(c: string)
    requires IsHsl(c) || IsHsla(c)
    ensures HslLike(c)
  {
    if IsHsl(c) {
      HslShape(c);
    } else {
      HslaShape(c);
    }
  }

  lemma RgbWhenShaped(c: string)
    ensures IsRgb(c) ==> RgbLike(c)
    ensures IsRgba(c) ==> RgbLike(c)
  {
    if IsRgb(c) {
      RgbShape(c);
    } else if IsRgba(c) {
      RgbaShape(c);
    }
  }

  /** The HEX branch of `toRGB` (color.js:93-115): the channels the HEX
      patterns find, written as `rgb(r,g,b)`, or `false`. */
  function HexToRgb(c: string): (r: Result<string>)
    ensures r.Ok? <==> HexChannels(c).Some?
    ensures r.Ok? ==> IsRgb(r.value) && ' ' !in r.value
    ensures r.Ok? ==> RgbLike(r.value) && Ints3(r.value) == HexChannels(c).value
  {
    match HexChannels(c)
    case None => Fail(NotAColor)
    case Some(ch) =>
      RgbIntsParts(ch.0, ch.1, ch.2);
      Ok(RgbInts(ch.0, ch.1, ch.2))
  }

  /** The HEX branch of `toRGBA` (color.js:191-215). */
  function HexToRgba(c: string, alpha: string): (r: Result<string>)
    ensures r.Ok? <==> HexChannels(c).Some?
    ensures r.Ok? && Plain(alpha) ==>
      RgbLike(r.value) && Ints3(r.value) == HexChannels(c).value && ' ' !in r.value
    ensures r.Ok? && IsAlphaToken(alpha) ==> IsRgba(r.value)
  {
    match HexChannels(c)
    case None => Fail(NotAColor)
    case Some(ch) =>
      RgbaIntsParts(ch.0, ch.1, ch.2, alpha);
      Ok(RgbaInts(ch.0, ch.1, ch.2, alpha))
  }

  lemma RgbaIntsParts(r: nat, g: nat, b: nat, alpha: string)
    requires r <= 255 && g <= 255 && b <= 255
    ensures Plain(alpha) ==>
      RgbLike(RgbaInts(r, g, b, alpha)) && Ints3(RgbaInts(r, g, b, alpha)) == (r, g, b) &&
      ' ' !in RgbaInts(r, g, b, alpha)
    ensures IsAlphaToken(alpha) ==> IsRgba(RgbaInts(r, g, b, alpha))
  {
    if IsAlphaToken(alpha) {
      AlphaPlain(alpha);
    }
    if Plain(alpha) {
      var f := [DecText(r), DecText(g), DecText(b), alpha];
      DecTextParts(r);
      DecTextParts(g);
      DecTextParts(b);
      Call4Fields("rgba", f[0], f[1], f[2], f[3]);
      Parses3Of(RgbaInts(r, g, b, alpha), f);
      ByteTokenOfText(r);
      ByteTokenOfText(g);
      ByteTokenOfText(b);
    }
  }

  /** What the HSL branch of `toRGB` writes reads back as the integer parts
      of the channels. */
  lemma RgbTextParts(ch: Channels)
    requires IsChannel(ch.r) && IsChannel(ch.g) && IsChannel(ch.b)
    ensures RgbLike(RgbText(ch)) && ' ' !in RgbText(ch)
    ensures Ints3(RgbText(ch)) == (ch.r.Floor as nat, ch.g.Floor as nat, ch.b.Floor as nat)
  {
    var f := [NumberText(ch.r), NumberText(ch.g), NumberText(ch.b)];
    Call3Fields("rgb", f[0], f[1], f[2]);
    Parses3Of(RgbText(ch), f);
  }

  lemma RgbaTextParts(ch: Channels, alpha: string)
    requires IsChannel(ch.r) && IsChannel(ch.g) && IsChannel(ch.b) && Plain(alpha)
    ensures RgbLike(RgbaText(ch, alpha)) && ' ' !in RgbaText(ch, alpha)
    ensures Ints3(RgbaText(ch, alpha)) == (ch.r.Floor as nat, ch.g.Floor as nat, ch.b.Floor as nat)
  {
    var f := [NumberText(ch.r), NumberText(ch.g), NumberText(ch.b), alpha];
    Call4Fields("rgba", f[0], f[1], f[2], f[3]);
    Parses3Of(RgbaText(ch, alpha), f);
  }

  lemma PercentFieldOfText(n: nat)
    requires n <= 100
    ensures IsPercentField(DecText(n) + "%") && Plain(DecText(n) + "%")
  {
    var f := DecText(n) + "%";
    assert f[..|f| - 1] == DecText(n);
    PercentTokenOfText(n);
    DigitsPlain(DecText(n));
  }

  /** An HSL text without spaces is HSL for `type`. */
  lemma TypeOfHsl(s: string)
    requires IsHsl(s) && ' ' !in s
    ensures Type(s) == Some(Hsl)
  {
    ShapesDisjoint(s);
    assert s[0] == "hsl"[0];
    TypeOfStripped(s);
  }

  lemma TypeOfHsla(s: string)
    requires IsHsla(s) && ' ' !in s
    ensures Type(s) == Some(Hsla)
  {
    ShapesDisjoint(s);
    assert s[0] == "hsla"[0] && s[3] == "hsla"[3];
    TypeOfStripped(s);
  }

  /** What `toHSL` writes is an HSL colour for `type`. */
  lemma HslTextType(c: HslValue)
    requires 0 <= c.h < 360 && 0 <= c.s <= 100 && 0 <= c.l <= 100
    ensures Type(HslText(c)) == Some(Hsl)
  {
    var f := [DecText(c.h), DecText(c.s) + "%", DecText(c.l) + "%"];
    DigitsPlain(f[0]);
    HueTokenOfText(c.h);
    PercentFieldOfText(c.s);
    PercentFieldOfText(c.l);
    Call3Fields("hsl", f[0], f[1], f[2]);
    TypeOfHsl(HslText(c));
  }

  /** What `toHSLA` writes is an HSLA colour for `type` when the alpha is
      one the pattern admits. */
  lemma HslaTextType(c: HslValue, alpha: string)
    requires 0 <= c.h < 360 && 0 <= c.s <= 100 && 0 <= c.l <= 100
    requires IsAlphaToken(alpha)
    ensures Type(HslaText(c, alpha)) == Some(Hsla)
  {
    var f := [DecText(c.h), DecText(c.s) + "%", DecText(c.l) + "%", alpha];
    DigitsPlain(f[0]);
    HueTokenOfText(c.h);
    PercentFieldOfText(c.s);
    PercentFieldOfText(c.l);
    AlphaPlain(alpha);
    Call4Fields("hsla", f[0], f[1], f[2], f[3]);
    TypeOfHsla(HslaText(c, alpha));
  }

  /** `toRGB` (color.js:64-149): RGB input comes back without its spaces;
      RGBA input goes through `toHEX` and then, like HEX input, through
      the HEX patterns; HSL and HSLA input is converted; a TEXTO input
      reaches no branch. */
  function ToRGB(color: string): (r: Result<string>)
    ensures r.Fail? <==> Type(color).None? || Type(color) == Some(Text)
    ensures r == Fail(NotAColor) <==> Type(color).None?
    ensures r.Ok? ==> RgbLike(r.value) && ' ' !in r.value
    ensures Type(color) == Some(Rgb) ==> r == Ok(StripSpaces(color))
    ensures Type(color) == Some(Rgba) ==>
      RgbLike(StripSpaces(color)) && r == HexToRgb(RgbFieldsToHex(StripSpaces(color)))
    ensures Type(color) == Some(Hex) ==> r == HexToRgb(color)
    ensures Type(color) == Some(Hsl) || Type(color) == Some(Hsla) ==>
      HslLike(StripSpaces(color)) && r == Ok(RgbText(HslChannels(StripSpaces(color))))
  {
    var t := Type(color);
    if t.None? then Fail(NotAColor)
    else
      var c := StripSpaces(color);
      RgbWhenShaped(c);
      if t.value == Rgb then Ok(c)
      else if t.value == Rgba then HexToRgb(RgbFieldsToHex(c))
      else if t.value == Hex then
        HexHasNoSpace(color);
        StripSpacesNoSpace(color);
        HexChannelsOfHex(c);
        HexToRgb(c)
      else if t.value == Hsl || t.value == Hsla then
        HslOrHslaShape(c);
        var ch := HslChannels(c);
        RgbTextParts(ch);
        Ok(RgbText(ch))
      else Fail(NoResult)
  }

  /** `toRGBA` (color.js:160-247): RGBA input comes back without its
      spaces and `trans` is ignored; RGB input goes through `toHEX`; a
      falsy `trans` becomes 1. */
  function ToRGBA(color: string, trans: Trans): (r: Result<string>)
    ensures r.Fail? <==> Type(color).None? || Type(color) == Some(Text)
    ensures r == Fail(NotAColor) <==> Type(color).None?
    ensures Type(color) == Some(Rgba) ==> r == Ok(StripSpaces(color))
    ensures r.Ok? && Plain(AlphaText(trans)) ==> RgbLike(r.value) && ' ' !in r.value
    ensures r.Ok? && IsAlphaToken(AlphaText(trans)) && Type(color) in {Some(Hex), Some(Rgb), Some(Rgba)} ==>
      Type(r.value) == Some(Rgba)
    ensures Type(color) == Some(Rgb) ==>
      RgbLike(StripSpaces(color)) &&
      r == HexToRgba(RgbFieldsToHex(StripSpaces(color)), AlphaText(trans))
    ensures Type(color) == Some(Hex) ==> r == HexToRgba(color, AlphaText(trans))
    ensures Type(color) == Some(Hsl) || Type(color) == Some(Hsla) ==>
      HslLike(StripSpaces(color)) &&
      r == Ok(RgbaText(HslChannels(StripSpaces(color)), AlphaText(trans)))
  {
    var t := Type(color);
    if t.None? then Fail(NotAColor)
    else
      var c := StripSpaces(color);
      StrippedType(color);
      RgbWhenShaped(c);
      if t.value == Rgba then Ok(c)
      else
        var alpha := AlphaText(trans);
        if t.value == Rgb then
          RgbaOutputType(RgbFieldsToHex(c), alpha);
          HexToRgba(RgbFieldsToHex(c), alpha)
        else if t.value == Hex then
          HexHasNoSpace(color);
          StripSpacesNoSpace(color);
          HexChannelsOfHex(c);
          RgbaOutputType(c, alpha);
          HexToRgba(c, alpha)
        else if t.value == Hsl || t.value == Hsla then
          HslOrHslaShape(c);
          var ch := HslChannels(c);
          if Plain(alpha) then
            RgbaTextParts(ch, alpha);
            Ok(RgbaText(ch, alpha))
          else Ok(RgbaText(ch, alpha))
        else Fail(NoResult)
  }

  lemma RgbaOutputType(c: string, alpha: string)
    ensures HexToRgba(c, alpha).Ok? && IsAlphaToken(alpha) ==>
      Type(HexToRgba(c, alpha).value) == Some(Rgba)
  {
    if HexToRgba(c, alpha).Ok? && IsAlphaToken(alpha) {
      AlphaPlain(alpha);
      TypeOfRgba(HexToRgba(c, alpha).value);
    }
  }

  /** An RGBA text without spaces is RGBA for `type`. */
  lemma TypeOfRgba(s: string)
    requires IsRgba(s) && ' ' !in s
    ensures Type(s) == Some(Rgba)
  {
    ShapesDisjoint(s);
    assert s[0] == "rgba"[0] && s[3] == "rgba"[3];
    TypeOfStripped(s);
  }

  /** `toHSL` (color.js:257-331): HSL input comes back without its
      spaces; anything but RGB goes through `toRGB` first, and a failure
      there makes the `.split` that follows throw. */
  function ToHSL(color: string): (r: Result<string>)
    ensures r.Fail? <==> Type(color).None? || (Type(color) == Some(Text) && !IsHex(StripSpaces(color)))
    ensures r == Fail(NotAColor) <==> Type(color).None?
    ensures Type(color) == Some(Hsl) ==> r == Ok(StripSpaces(color))
    ensures r.Ok? ==> Type(r.value) == Some(Hsl)
  {
    var t := Type(color);
    if t.None? then Fail(NotAColor)
    else
      var c := StripSpaces(color);
      StrippedType(color);
      RgbWhenShaped(c);
      if t.value == Hsl then Ok(c)
      else
        var rgb := if t.value != Rgb then ToRGB(c) else Ok(c);
        if rgb.Fail? then Fail(Thrown)
        else
          var (red, green, blue) := Ints3(rgb.value);
          var hsl := RgbToHsl(red, green, blue);
          HslTextType(hsl);
          Ok(HslText(hsl))
  }

  /** `toHSLA` (color.js:343-429): as `toHSL`, with `trans` appended and a
      falsy `trans` replaced by 1; HSLA input comes back without its
      spaces. */
  function ToHSLA(color: string, trans: Trans): (r: Result<string>)
    ensures r.Fail? <==> Type(color).None? || (Type(color) == Some(Text) && !IsHex(StripSpaces(color)))
    ensures r == Fail(NotAColor) <==> Type(color).None?
    ensures Type(color) == Some(Hsla) ==> r == Ok(StripSpaces(color))
    ensures r.Ok? && IsAlphaToken(AlphaText(trans)) ==> Type(r.value) == Some(Hsla)
  {
    var t := Type(color);
    if t.None? then Fail(NotAColor)
    else
      var c := StripSpaces(color);
      StrippedType(color);
      RgbWhenShaped(c);
      if t.value == Hsla then Ok(c)
      else
        var rgb := if t.value != Rgb then ToRGB(c) else Ok(c);
        if rgb.Fail? then Fail(Thrown)
        else
          var (red, green, blue) := Ints3(rgb.value);
          var hsl := RgbToHsl(red, green, blue);
          var alpha := AlphaText(trans);
          if IsAlphaToken(alpha) then
            HslaTextType(hsl, alpha);
            Ok(HslaText(hsl, alpha))
          else Ok(HslaText(hsl, alpha))
  }

  /** `toHEX` (color.js:439-475): HEX input comes back without its
      spaces; RGB and RGBA input is read directly, anything else goes
      through `toRGB` first. */
  function ToHEX(color: string): (r: Result<string>)
    ensures r.Fail? <==> Type(color).None? || (Type(color) == Some(Text) && !IsHex(StripSpaces(color)))
    ensures r == Fail(NotAColor) <==> Type(color).None?
    ensures Type(color) == Some(Hex) ==> r == Ok(color)
    ensures r.Ok? ==> Type(r.value) == Some(Hex)
    ensures Type(color) == Some(Rgb) || Type(color) == Some(Rgba) ==>
      RgbLike(StripSpaces(color)) && r == Ok(RgbFieldsToHex(StripSpaces(color)))
  {
    var t := Type(color);
    if t.None? then Fail(NotAColor)
    else
      var c := StripSpaces(color);
      StrippedType(color);
      RgbWhenShaped(c);
      if t.value == Hex then
        HexHasNoSpace(color);
        StripSpacesNoSpace(color);
        Ok(c)
      else
        var rgb := if t.value != Rgb && t.value != Rgba then ToRGB(c) else Ok(c);
        if rgb.Fail? then Fail(Thrown)
        else
          var h := RgbFieldsToHex(rgb.value);
          HexHasNoSpace(h);
          StripSpacesNoSpace(h);
          Ok(h)
  }

  /** The weighted brightness of `contrast`, multiplied through by 1000. */
  function Luma(c: (nat, nat, nat)): nat
  {
    299 * c.0 + 587 * c.1 + 114 * c.2
  }

  /** `contrast` (color.js:485-522): `false` for no colour and for TEXTO;
      otherwise light exactly when the brightness
      `(299r + 587g + 114b) / 1000` of the RGB form exceeds 125. */
  function Contrast(color: string): (r: Result<Shade>)
    ensures r.Fail? <==> Type(color).None? || Type(color) == Some(Text)
    ensures r.Ok? ==> ToRGB(color).Ok? && (r.value == Light <==> Luma(Ints3(ToRGB(color).value)) > 125000)
  {
    var t := Type(color);
    if t.None? || t.value == Text then Fail(NotAColor)
    else
      var rgb := if t.value != Rgb then ToRGB(color) else Ok(color);
      StripSpacesNoSpace(ToRGB(color).value);
      var c := StripSpaces(rgb.value);
      var (red, green, blue) := Ints3(c);
      var brightness := (red * 299 + green * 587 + blue * 114) as real / 1000.0;
      if brightness > 125.0 then Ok(Light) else Ok(Dark)
  }
}
