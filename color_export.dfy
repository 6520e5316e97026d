/** The converters as the library hands them out. The default export of
    color.js (color.js:552-560) is a new object that holds `contrast`,
    `toHEX`, `toHSL`, `toHSLA`, `toRGB`, `toRGBA` and `type`, but not
    `_hue2rgb`. A call through it binds `this` to that object, so
    `this._hue2rgb` (color.js:142-144 and 240-242) is not a function, and
    the conversion of an HSL or HSLA colour with saturation throws a
    TypeError. A colour without saturation takes the grey path of
    color.js:132 and never gets there. The converters of module `Color`
    are the methods called on `MoColors` itself, where `_hue2rgb`
    resolves. */
module ColorExport {
  import opened Text
  import opened ColorFormat
  import opened ColorMath
  import opened ColorFields
  import opened Color

  /** An HSL or HSLA colour whose saturation field is not 0: the colours
      whose conversion to RGB calls `this._hue2rgb`. */
  predicate Chromatic(color: string)
  {
    (Type(color) == Some(Hsl) || Type(color) == Some(Hsla)) &&
    Parses3(StripSpaces(color)) && Ints3(StripSpaces(color)).1 != 0
  }

  /** `toRGB` through the export: its HSL block throws on a chromatic
      colour, every other branch is the method's own. */
  function ExportedToRGB(color: string): (r: Result<string>)
    ensures r.Fail? <==> Type(color).None? || Type(color) == Some(Text) || Chromatic(color)
    ensures r.Ok? ==> r == ToRGB(color)
    ensures r == Fail(Thrown) <==> Chromatic(color)
  {
    if Chromatic(color) then Fail(Thrown) else ToRGB(color)
  }

  /** `toRGBA` through the export: its own HSL block (color.js:217-246)
      throws the same way. */
  function ExportedToRGBA(color: string, trans: Trans): (r: Result<string>)
    ensures r.Fail? <==> Type(color).None? || Type(color) == Some(Text) || Chromatic(color)
    ensures r.Ok? ==> r == ToRGBA(color, trans)
  {
    if Chromatic(color) then Fail(Thrown) else ToRGBA(color, trans)
  }

  /** `toHSL` through the export: every input but HSL and RGB goes through
      `this.toRGB` (color.js:281-284), the exported one, and its TypeError
      propagates. */
  function ExportedToHSL(color: string): (r: Result<string>)
    ensures Type(color) == Some(Hsla) && Chromatic(color) ==> r == Fail(Thrown)
    ensures !(Type(color) == Some(Hsla) && Chromatic(color)) ==> r == ToHSL(color)
  {
    if Type(color) != Some(Hsl) && Type(color) != Some(Rgb) && ExportedToRGB(color) == Fail(Thrown)
    then Fail(Thrown)
    else ToHSL(color)
  }

  /** `toHSLA` through the export: every input but HSLA and RGB goes
      through `this.toRGB` (color.js:367-370). */
  function ExportedToHSLA(color: string, trans: Trans): (r: Result<string>)
    ensures Type(color) == Some(Hsl) && Chromatic(color) ==> r == Fail(Thrown)
    ensures !(Type(color) == Some(Hsl) && Chromatic(color)) ==> r == ToHSLA(color, trans)
  {
    if Type(color) != Some(Hsla) && Type(color) != Some(Rgb) && ExportedToRGB(color) == Fail(Thrown)
    then Fail(Thrown)
    else ToHSLA(color, trans)
  }

  /** `toHEX` through the export: every input but HEX, RGB and RGBA goes
      through `this.toRGB` (color.js:456-458). */
  function ExportedToHEX(color: string): (r: Result<string>)
    ensures Chromatic(color) ==> r == Fail(Thrown)
    ensures !Chromatic(color) ==> r == ToHEX(color)
  {
    var t := Type(color);
    if t != Some(Hex) && t != Some(Rgb) && t != Some(Rgba) && ExportedToRGB(color) == Fail(Thrown)
    then Fail(Thrown)
    else ToHEX(color)
  }

  /** `contrast` through the export: every colour but RGB goes through
      `this.toRGB` (color.js:496-498). */
  function ExportedContrast(color: string): (r: Result<Shade>)
    ensures Chromatic(color) ==> r == Fail(Thrown)
    ensures !Chromatic(color) ==> r == Contrast(color)
  {
    if Type(color) != Some(Rgb) && ExportedToRGB(color) == Fail(Thrown)
    then Fail(Thrown)
    else Contrast(color)
  }

  /** On a chromatic colour the exported converters that reach `toRGB`
      throw, where the methods of `MoColors` convert it. */
  lemma ExportedThrows(color: string, trans: Trans)
    requires Chromatic(color)
    ensures ExportedToRGB(color) == Fail(Thrown) && ToRGB(color).Ok?
    ensures ExportedToRGBA(color, trans) == Fail(Thrown) && ToRGBA(color, trans).Ok?
    ensures ExportedToHEX(color) == Fail(Thrown) && ToHEX(color).Ok?
    ensures ExportedContrast(color) == Fail(Thrown) && Contrast(color).Ok?
    ensures Type(color) == Some(Hsla) ==> ExportedToHSL(color) == Fail(Thrown) && ToHSL(color).Ok?
    ensures Type(color) == Some(Hsl) ==> ExportedToHSLA(color, trans) == Fail(Thrown) && ToHSLA(color, trans).Ok?
  {
  }

  /** Pure green, as `toHSL` writes it, is such a colour: through the
      export `toRGB("hsl(120,100%,50%)")` throws. */
  lemma GreenIsChromatic()
    ensures Chromatic(HslText(HslValue(120, 100, 50)))
    ensures ExportedToRGB(HslText(HslValue(120, 100, 50))) == Fail(Thrown)
  {
    var c := HslValue(120, 100, 50);
    var f := [DecText(c.h), DecText(c.s) + "%", DecText(c.l) + "%"];
    HslTextType(c);
    DecTextParts(c.h);
    PercentFieldOfText(c.s);
    PercentFieldOfText(c.l);
    Call3Fields("hsl", f[0], f[1], f[2]);
    StripSpacesNoSpace(HslText(c));
    PercentFieldParts(f[1]);
    PercentFieldParts(f[2]);
    assert f[1][..|f[1]| - 1] == DecText(c.s);
    DecTextValue(c.s);
    Parses3Of(HslText(c), f);
  }
}
