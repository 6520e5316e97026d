/** Laws that relate the converters of color.js to each other: round trips
    through HEX, idempotence, agreement of `toRGB` and `toRGBA`, the
    achromatic quirk of the HSL branch, and a few worked values. */
module ColorLaws {
  import opened Text
  import opened ColorFormat
  import opened ColorMath
  import opened ColorFields
  import opened Color

  /** Lower-case hexadecimal text, as `toString(16)` writes it. */
  predicate LowerCase(s: string)
  {
    forall i :: 0 <= i < |s| ==> !('A' <= s[i] <= 'F')
  }

  /** The RGB text `toRGB` writes has the shape RGB, and `type` says so. */
  lemma RgbIntsType(r: nat, g: nat, b: nat)
    requires r <= 255 && g <= 255 && b <= 255
    ensures Type(RgbInts(r, g, b)) == Some(Rgb)
  {
    var s := RgbInts(r, g, b);
    RgbIntsParts(r, g, b);
    assert s[0] == 'r';
    TypeOfStripped(s);
  }

  // One branch of a converter at a time.

  lemma HexIsStripped(c: string)
    requires IsHex(c)
    ensures Type(c) == Some(Hex) && StripSpaces(c) == c
  {
    HexHasNoSpace(c);
    StripSpacesNoSpace(c);
  }

  lemma RgbIsStripped(s: string)
    requires IsRgb(s) && ' ' !in s
    ensures Type(s) == Some(Rgb) && StripSpaces(s) == s && RgbLike(s)
  {
    RgbShape(s);
    assert s[0] == 'r';
    TypeOfStripped(s);
    StripSpacesNoSpace(s);
  }

  lemma ToRGBOfHex(h: string)
    requires IsHex(h)
    ensures ToRGB(h) == HexToRgb(h)
  {
    HexIsStripped(h);
  }

  lemma ToHEXOfRgb(s: string)
    requires IsRgb(s) && ' ' !in s
    ensures RgbLike(s) && ToHEX(s) == Ok(RgbFieldsToHex(s))
  {
    RgbIsStripped(s);
  }

  /** Printing the channels of a six-digit lower-case HEX colour gives the
      colour back. */
  lemma PairsOfHex(h: string)
    requires IsHex(h) && |h| == 7 && LowerCase(h)
    ensures "#" + Pair(HexValue(h[1..3])) + Pair(HexValue(h[3..5])) + Pair(HexValue(h[5..7])) == h
  {
    var p, q, u := h[1..3], h[3..5], h[5..7];
    SliceValue(h, 1);
    SliceValue(h, 3);
    SliceValue(h, 5);
    PairOfValue(p);
    PairOfValue(q);
    PairOfValue(u);
    assert h == [h[0]] + p + q + u;
  }

  // The laws.

  /** `toHEX` is idempotent: its result is HEX, which it returns as is. */
  lemma ToHEXIdempotent(color: string)
    requires ToHEX(color).Ok?
    ensures ToHEX(ToHEX(color).value) == ToHEX(color)
  {
  }

  /** A six-digit lower-case HEX colour survives the trip to RGB and back. */
  lemma HexRgbHexRoundTrip(h: string)
    requires IsHex(h) && |h| == 7 && LowerCase(h)
    ensures ToRGB(h).Ok? && ToHEX(ToRGB(h).value) == Ok(h)
  {
    ToRGBOfHex(h);
    HexChannelsOfHex(h);
    var s := ToRGB(h).value;
    ToHEXOfRgb(s);
    PairsOfHex(h);
  }

  /** An RGB text in the form `toRGB` writes survives the trip to HEX and
      back. */
  lemma RgbHexRgbRoundTrip(r: nat, g: nat, b: nat)
    requires r <= 255 && g <= 255 && b <= 255
    ensures ToHEX(RgbInts(r, g, b)).Ok?
    ensures ToRGB(ToHEX(RgbInts(r, g, b)).value) == Ok(RgbInts(r, g, b))
  {
    var s := RgbInts(r, g, b);
    RgbIntsParts(r, g, b);
    ToHEXOfRgb(s);
    ToRGBOfHex(RgbFieldsToHex(s));
  }

  /** In the three-digit shorthand each digit stands for itself doubled. */
  lemma ShorthandDoubles(c: string)
    requires IsHex(c) && |c| == 4
    ensures ToRGB(c) == Ok(RgbInts(17 * HexDigitValue(c[1]), 17 * HexDigitValue(c[2]), 17 * HexDigitValue(c[3])))
  {
    HexIsStripped(c);
    HexChannelsOfHex(c);
  }

  /** `toRGB` and `toRGBA` agree on the channels of every colour they
      convert, for an alpha that prints without `,`, `(`, `)` or a space.
      The texts may differ: RGB input keeps its leading zeros in `toRGB`
      and loses them on the way through HEX in `toRGBA`, and RGBA input
      goes the other way. */
  lemma RgbaAgreesWithRgb(color: string, trans: Trans)
    requires ToRGB(color).Ok? && Plain(AlphaText(trans))
    ensures ToRGBA(color, trans).Ok?
    ensures RgbLike(ToRGBA(color, trans).value)
    ensures Ints3(ToRGBA(color, trans).value) == Ints3(ToRGB(color).value)
  {
    var c := StripSpaces(color);
    var t := Type(color).value;
    var alpha := AlphaText(trans);
    if t == Rgb || t == Rgba {
      RgbWhenShaped(c);
    } else if t == Hex {
      HexIsStripped(color);
      HexChannelsOfHex(color);
    } else {
      HslOrHslaShape(c);
      var ch := HslChannels(c);
      RgbTextParts(ch);
      RgbaTextParts(ch, alpha);
    }
  }

  /** A falsy `trans` (omitted, empty, 0 or NaN) is the same as 1. */
  lemma FalsyTransIsOne(color: string, trans: Trans)
    requires Falsy(trans)
    ensures ToRGBA(color, trans) == ToRGBA(color, Num("1"))
  {
    assert AlphaText(trans) == AlphaText(Num("1"));
  }

  lemma FalsyTransIsOneHsla(color: string, trans: Trans)
    requires Falsy(trans)
    ensures ToHSLA(color, trans) == ToHSLA(color, Num("1"))
  {
    assert AlphaText(trans) == AlphaText(Num("1"));
  }

  /** A text written `rgb(...)` whose first field is no channel token is
      TEXTO for `type`. */
  lemma TypeOfBadRgb(s: string)
    requires Wrapped(s, "rgb") && ' ' !in s
    requires |Args(s, "rgb")| >= 1 && !IsByteToken(Args(s, "rgb")[0])
    ensures Type(s) == Some(Text)
  {
    assert s[0] == "rgb"[0] && s[1] == "rgb"[1] && s[3] == '(';
    assert IsText(s);
    TypeOfStripped(s);
  }

  /** The RGB text of a grey with a fraction is TEXTO for `type`. */
  lemma FractionalRgbIsText(ch: Channels)
    requires IsChannel(ch.r) && IsChannel(ch.g) && IsChannel(ch.b)
    requires ch.r.Floor as real != ch.r
    ensures Type(RgbText(ch)) == Some(Text)
  {
    var f := [NumberText(ch.r), NumberText(ch.g), NumberText(ch.b)];
    Call3Fields("rgb", f[0], f[1], f[2]);
    assert !IsByteToken(f[0]);
    TypeOfBadRgb(RgbText(ch));
  }

  /** Without saturation the HSL branch does not round, so a lightness whose
      `l * 255` has a fraction (50% gives 127.5) yields an RGB text that
      `type` takes for TEXTO, not RGB: `toRGB` of its own result then
      reaches no branch. */
  lemma AchromaticIsText(color: string)
    requires Type(color) == Some(Hsl) || Type(color) == Some(Hsla)
    requires Parses3(StripSpaces(color))
    requires Ints3(StripSpaces(color)).1 == 0 && (Ints3(StripSpaces(color)).2 * 255) % 100 != 0
    ensures ToRGB(color).Ok? && Type(ToRGB(color).value) == Some(Text)
    ensures ToRGB(ToRGB(color).value) == Fail(NoResult)
  {
    var c := StripSpaces(color);
    HslOrHslaShape(c);
    FractionalRgbIsText(HslChannels(c));
    ToRGBOfText(ToRGB(color).value);
  }

  /** `toRGB` has no branch for TEXTO. */
  lemma ToRGBOfText(s: string)
    requires Type(s) == Some(Text)
    ensures ToRGB(s) == Fail(NoResult)
  {
  }

  /** With saturation every channel is rounded, and the result is RGB for
      `type`. */
  lemma ChromaticIsRgb(color: string)
    requires Type(color) == Some(Hsl) || Type(color) == Some(Hsla)
    requires Parses3(StripSpaces(color)) && Ints3(StripSpaces(color)).1 != 0
    ensures ToRGB(color).Ok? && Type(ToRGB(color).value) == Some(Rgb)
  {
    HslOrHslaShape(StripSpaces(color));
    var ch := HslChannels(StripSpaces(color));
    var r, g, b := ch.r.Floor as nat, ch.g.Floor as nat, ch.b.Floor as nat;
    assert RgbText(ch) == RgbInts(r, g, b);
    RgbIntsType(r, g, b);
  }

  // Worked values.

  /** `contrast` of a HEX colour is decided by the channels the HEX
      patterns find. */
  lemma ContrastOfHex(h: string)
    requires IsHex(h)
    ensures HexChannels(h).Some? && Contrast(h).Ok?
    ensures Contrast(h).value == Light <==> Luma(HexChannels(h).value) > 125000
  {
    HexIsStripped(h);
    HexChannelsOfHex(h);
  }

  /** Each two-digit slice of a six-digit HEX colour is one base-16 pair. */
  lemma SliceValue(h: string, k: nat)
    requires IsHex(h) && |h| == 7 && 1 <= k <= 5
    ensures AllHexDigits(h[k..k + 2])
    ensures HexValue(h[k..k + 2]) == 16 * HexDigitValue(h[k]) + HexDigitValue(h[k + 1])
  {
    assert h[k..k + 2] == [h[1..][k - 1], h[1..][k]];
    PairValue(h[k..k + 2]);
  }

  /** A six-digit grey `#dddddd` is light exactly when its digit is 8 or
      more: `#888888` has a brightness of 136, `#777777` of 119. */
  lemma GreyContrast(h: string)
    requires IsHex(h) && |h| == 7
    requires h[2] == h[1] && h[3] == h[1] && h[4] == h[1] && h[5] == h[1] && h[6] == h[1]
    ensures Contrast(h) == if HexDigitValue(h[1]) >= 8 then Ok(Light) else Ok(Dark)
  {
    ContrastOfHex(h);
    HexChannelsOfHex(h);
    SliceValue(h, 1);
    SliceValue(h, 3);
    SliceValue(h, 5);
  }

  /** Worked examples of `GreyContrast` at its two ends: black (digit 0)
      is dark and white (digit f) is light. */
  lemma BlackIsDark()
    ensures Contrast("#000000") == Ok(Dark)
  {
    assert IsHex("#000000") by {
      assert "#000000"[1..] == "000000";
    }
    GreyContrast("#000000");
  }

  lemma WhiteIsLight()
    ensures Contrast("#ffffff") == Ok(Light)
  {
    assert IsHex("#ffffff") by {
      assert "#ffffff"[1..] == "ffffff";
    }
    GreyContrast("#ffffff");
  }

  /** Pure red with half blue lies at 330 degrees. */
  lemma RgbToHslExample()
    ensures RgbToHsl(255, 0, 127) == HslValue(330, 100, 50)
  {
    var b := 127.0 / 255.0;
    assert Max3(1.0, 0.0, b) == 1.0;
    assert Min3(1.0, 0.0, b) == 0.0;
    assert Saturation(1.0, 0.0) == 1.0;
    assert HueSixths(1.0, 0.0, b) == -b;
    assert Round(-b * 60.0) == -30;
    assert Round(1.0 * 100.0) == 100;
    assert Round(0.5 * 100.0) == 50;
  }

  /** `# abc` is TEXTO (the space spoils the HEX pattern, which sees the
      raw input), so `toRGB` has no branch for it; `toHEX` strips the space
      and passes `#abc` to `toRGB`, and so converts it. */
  lemma SpacedHexIsText()
    ensures Type("# abc") == Some(Text)
    ensures ToRGB("# abc") == Fail(NoResult)
    ensures ToHEX("# abc").Ok?
  {
    var raw := "# abc";
    assert !IsHex(raw) by {
      assert !IsHexDigit(raw[1..][0]);
    }
    assert StripSpaces(raw) == "#abc";
    var c := "#abc";
    assert IsHex(c) by {
      assert c[1..] == "abc";
    }
    assert IsText(c) by {
      assert 'A' <= c[1] <= 'z';
    }
  }
}
