/** Recognisers for the six textual colour shapes of color.js (the regular
    expressions of color.js:11-20), and the classifier `type`
    (color.js:10-54). */
module ColorFormat {
  import opened Text

  /** The answers of `type`; the classifier's `false` is None. */
  datatype Format = Hex | Rgb | Rgba | Hsl | Hsla | Text

  /** regHEX: `#` and then exactly three or exactly six hexadecimal digits. */
  predicate IsHex(s: string)
  {
    (|s| == 4 || |s| == 7) && s[0] == '#' && AllHexDigits(s[1..])
  }

  /** One channel of regRGB and regRGBA, the four alternatives
      `\d{1,2}`, `[0-1][0-9]{2}`, `[0-2][0-4][0-9]` and `[0-2][0-5][0-5]`. */
  predicate IsByteToken(t: string)
  {
    AllDigits(t) &&
    (1 <= |t| <= 2 ||
     (|t| == 3 &&
      (t[0] <= '1' ||
       (t[0] <= '2' && t[1] <= '4') ||
       (t[0] <= '2' && t[1] <= '5' && t[2] <= '5'))))
  }

  /** The hue of regHSL and regHSLA: `\d{1,2}`, `[0-2][0-9]\d`,
      `[0-3][0-5]\d` or `360`. */
  predicate IsHueToken(t: string)
  {
    AllDigits(t) &&
    (1 <= |t| <= 2 ||
     (|t| == 3 && (t[0] <= '2' || (t[0] <= '3' && t[1] <= '5') || t == "360")))
  }

  /** A saturation or lightness: `\d{1,2}` or `100`. */
  predicate IsPercentToken(t: string)
  {
    AllDigits(t) && (1 <= |t| <= 2 || t == "100")
  }

  /** A percentage field, the token followed by `%`. */
  predicate IsPercentField(f: string)
  {
    |f| >= 2 && f[|f| - 1] == '%' && IsPercentToken(f[..|f| - 1])
  }

  /** The alpha of regRGBA and regHSLA: `0?\.[0-9]{1,2}` or `1`. */
  predicate IsAlphaToken(t: string)
  {
    t == "1" ||
    (var f := if |t| > 0 && t[0] == '0' then t[1..] else t;
     2 <= |f| <= 3 && f[0] == '.' && AllDigits(f[1..]))
  }

  /** `^name\(` ... `\)$`: the name, an opening parenthesis, and a closing
      parenthesis at the very end. */
  predicate Wrapped(s: string, name: string)
  {
    |s| >= |name| + 2 && s[..|name|] == name && s[|name|] == '(' && s[|s| - 1] == ')'
  }

  /** What lies between the opening parenthesis and the final one. */
  function Inner(s: string, name: string): string
    requires Wrapped(s, name)
  {
    s[|name| + 1..|s| - 1]
  }

  lemma InnerWraps(s: string, name: string)
    requires Wrapped(s, name)
    ensures s == name + "(" + Inner(s, name) + ")"
  {
    assert s == s[..|name|] + [s[|name|]] + Inner(s, name) + [s[|s| - 1]];
  }

  /** The comma-separated fields between the parentheses. */
  function Args(s: string, name: string): seq<string>
    requires Wrapped(s, name)
  {
    Split(Inner(s, name), ',')
  }

  /** regRGB: `rgb(` and three channels separated by commas, then `)`. */
  predicate IsRgb(s: string)
  {
    Wrapped(s, "rgb") &&
    var f := Args(s, "rgb");
    |f| == 3 && IsByteToken(f[0]) && IsByteToken(f[1]) && IsByteToken(f[2])
  }

  /** regRGBA: `rgba(`, three channels and an alpha, then `)`. */
  predicate IsRgba(s: string)
  {
    Wrapped(s, "rgba") &&
    var f := Args(s, "rgba");
    |f| == 4 && IsByteToken(f[0]) && IsByteToken(f[1]) && IsByteToken(f[2]) && IsAlphaToken(f[3])
  }

  /** regHSL: `hsl(`, a hue and two percentage fields, then `)`. */
  predicate IsHsl(s: string)
  {
    Wrapped(s, "hsl") &&
    var f := Args(s, "hsl");
    |f| == 3 && IsHueToken(f[0]) && IsPercentField(f[1]) && IsPercentField(f[2])
  }

  /** regHSLA: `hsla(`, a hue, two percentage fields and an alpha, then `)`. */
  predicate IsHsla(s: string)
  {
    Wrapped(s, "hsla") &&
    var f := Args(s, "hsla");
    |f| == 4 && IsHueToken(f[0]) && IsPercentField(f[1]) && IsPercentField(f[2]) && IsAlphaToken(f[3])
  }

  /** The unanchored `[a-zA-z]`: some character between `A` and `z`, which
      takes in `[`, `\`, `]`, `^`, `_` and the backquote besides letters. */
  predicate IsText(s: string)
  {
    exists i :: 0 <= i < |s| && 'A' <= s[i] <= 'z'
  }

  /** Whether `color` has the shape of format `f` as `type` tests it: HEX on
      the input as given, the others on the input without its spaces. */
  predicate Matches(f: Format, color: string)
  {
    var c := StripSpaces(color);
    match f
    case Hex => IsHex(color)
    case Rgb => IsRgb(c)
    case Rgba => IsRgba(c)
    case Hsl => IsHsl(c)
    case Hsla => IsHsla(c)
    case Text => IsText(c)
  }

  /** The position of each test in `type`. */
  function Rank(f: Format): nat
  {
    match f
    case Hex => 0
    case Rgb => 1
    case Rgba => 2
    case Hsl => 3
    case Hsla => 4
    case Text => 5
  }

  /** `type` (color.js:10-54): the first shape, in the order HEX, RGB, RGBA,
      HSL, HSLA, TEXTO, that the colour has; None (`false`) when it has
      none. */
  function Type(color: string): (r: Option<Format>)
    ensures r.Some? ==> Matches(r.value, color)
    ensures r.Some? ==> forall g :: Rank(g) < Rank(r.value) ==> !Matches(g, color)
    ensures r.None? ==> forall g :: !Matches(g, color)
  {
    if IsHex(color) then Some(Hex)
    else
      var c := StripSpaces(color);
      if IsRgb(c) then Some(Rgb)
      else if IsRgba(c) then Some(Rgba)
      else if IsHsl(c) then Some(Hsl)
      else if IsHsla(c) then Some(Hsla)
      else if IsText(c) then Some(Text)
      else None
  }

  // The numbers the patterns admit.

  lemma DecValueOne(t: string)
    requires AllDigits(t) && |t| == 1
    ensures DecValue(t) == HexDigitValue(t[0])
  {
    assert t[..0] == [];
  }

  lemma DecValueTwo(t: string)
    requires AllDigits(t) && |t| == 2
    ensures DecValue(t) == 10 * HexDigitValue(t[0]) + HexDigitValue(t[1])
  {
    DecValueOne(t[..1]);
  }

  lemma DecValueThree(t: string)
    requires AllDigits(t) && |t| == 3
    ensures DecValue(t) == 100 * HexDigitValue(t[0]) + 10 * HexDigitValue(t[1]) + HexDigitValue(t[2])
  {
    DecValueTwo(t[..2]);
  }

  /** The four alternatives of the channel pattern admit exactly the
      numbers up to 255 written with one to three digits, leading zeros
      included: none of 256-299 gets through. */
  lemma ByteTokenIff(t: string)
    requires AllDigits(t) && 1 <= |t| <= 3
    ensures IsByteToken(t) <==> DecValue(t) <= 255
  {
    if |t| == 1 {
      DecValueOne(t);
    } else if |t| == 2 {
      DecValueTwo(t);
    } else {
      DecValueThree(t);
    }
  }

  /** The hue alternatives admit exactly the numbers up to 360 written with
      one to three digits. */
  lemma HueTokenIff(t: string)
    requires AllDigits(t) && 1 <= |t| <= 3
    ensures IsHueToken(t) <==> DecValue(t) <= 360
  {
    if |t| == 1 {
      DecValueOne(t);
    } else if |t| == 2 {
      DecValueTwo(t);
    } else {
      DecValueThree(t);
      if DecValue(t) == 360 {
        assert t[0] == '3' && t[1] == '6' && t[2] == '0';
        assert t == "360";
      }
    }
  }

  /** Saturation and lightness are at most 100; three digits are allowed
      only for `100` itself, so `050` is refused. */
  lemma PercentTokenValue(t: string)
    requires IsPercentToken(t)
    ensures DecValue(t) <= 100
    ensures |t| == 3 ==> DecValue(t) == 100
  {
    if |t| == 1 {
      DecValueOne(t);
    } else if |t| == 2 {
      DecValueTwo(t);
    } else {
      DecValueThree(t);
    }
  }

  lemma DecTextHundred()
    ensures DecText(100) == "100"
  {
    assert DecText(1) == "1";
    assert DecText(10) == DecText(1) + "0";
  }

  lemma ByteTokenOfText(n: nat)
    requires n <= 255
    ensures IsByteToken(DecText(n))
  {
    DecTextValue(n);
    ByteTokenIff(DecText(n));
  }

  lemma HueTokenOfText(n: nat)
    requires n <= 360
    ensures IsHueToken(DecText(n))
  {
    DecTextValue(n);
    HueTokenIff(DecText(n));
  }

  lemma PercentTokenOfText(n: nat)
    requires n <= 100
    ensures IsPercentToken(DecText(n))
  {
    if n == 100 {
      DecTextHundred();
    }
  }

  /** A bare `0` is not an alpha: the pattern wants `1` or a point. */
  lemma AlphaTokenShape(t: string)
    requires IsAlphaToken(t)
    ensures t == "1" || (|t| >= 2 && '.' in t[..2])
    ensures t != "0" && t != ""
  {
  }

  /** The catch-all test also takes strings with no letter at all. */
  lemma TextTakesPunctuation()
    ensures IsText("_") && IsText("[") && IsText("`")
    ensures !IsText("#123")
  {
    assert "_"[0] == '_';
    assert "["[0] == '[';
    assert "`"[0] == '`';
  }

  lemma HexHasNoSpace(s: string)
    requires IsHex(s)
    ensures ' ' !in s
  {
    assert s == [s[0]] + s[1..];
  }

  /** Each shape excludes the others except TEXTO, which every functional
      shape also satisfies, hence the order of the tests. */
  lemma ShapesDisjoint(s: string)
    ensures IsHex(s) ==> !IsRgb(s) && !IsRgba(s) && !IsHsl(s) && !IsHsla(s)
    ensures IsRgb(s) ==> !IsRgba(s) && !IsHsl(s) && !IsHsla(s) && IsText(s)
    ensures IsRgba(s) ==> !IsHsl(s) && !IsHsla(s) && IsText(s)
    ensures IsHsl(s) ==> !IsHsla(s) && IsText(s)
    ensures IsHsla(s) ==> IsText(s)
  {
    if IsRgb(s) || IsRgba(s) || IsHsl(s) || IsHsla(s) {
      assert 'A' <= s[1] <= 'z';
    }
  }

  /** A text without spaces that does not start with `#` is classified by
      the functional patterns and the letter test alone. */
  lemma TypeOfStripped(s: string)
    requires ' ' !in s && |s| > 0 && s[0] != '#'
    ensures Type(s) ==
      if IsRgb(s) then Some(Rgb)
      else if IsRgba(s) then Some(Rgba)
      else if IsHsl(s) then Some(Hsl)
      else if IsHsla(s) then Some(Hsla)
      else if IsText(s) then Some(Text)
      else None
  {
    StripSpacesNoSpace(s);
  }
}
