/** How the converters of color.js take a colour text apart and put one
    together: the `split` chain that yields the fields of a functional
    colour, the two HEX patterns of the HEX-to-RGB branch, and the pieces
    `toHEX` writes. */
module ColorFields {
  import opened Text
  import opened ColorFormat
  import opened ColorMath

  /** `name(a,b,c)`. */
  function Call3(name: string, a: string, b: string, c: string): string
  {
    name + "(" + (a + "," + b + "," + c) + ")"
  }

  /** `name(a,b,c,d)`. */
  function Call4(name: string, a: string, b: string, c: string, d: string): string
  {
    name + "(" + (a + "," + b + "," + c + "," + d) + ")"
  }

  /** A field that cannot disturb the splitting: no comma, no parenthesis,
      no space. */
  predicate Plain(t: string)
  {
    ',' !in t && '(' !in t && ')' !in t && ' ' !in t
  }

  /** `color.split("(")[1].split(")")[0].split(",")`, as every converter
      reads a functional colour; None when there is no `(`, where the first
      split has no second piece and the next `.split` throws. */
  function Fields(color: string): Option<seq<string>>
  {
    var parts := Split(color, '(');
    if |parts| < 2 then None else Some(Split(Split(parts[1], ')')[0], ','))
  }

  lemma WrapParts(name: string, body: string)
    ensures Wrapped(name + "(" + body + ")", name)
    ensures Inner(name + "(" + body + ")", name) == body
  {
    var s := name + "(" + body + ")";
    assert s[..|name|] == name;
    assert s[|name| + 1..|s| - 1] == body;
  }

  /** The `split` chain recovers the comma-separated fields of `name(body)`
      when neither the name nor the body holds a parenthesis. */
  lemma FieldsOfWrap(name: string, body: string)
    requires '(' !in name && '(' !in body && ')' !in body
    ensures Fields(name + "(" + body + ")") == Some(Split(body, ','))
  {
    assert name + "(" + body + ")" == name + ['('] + (body + [')']);
    SplitAtFirst(name, '(', body + [')']);
    SplitNoSeparator(body + [')'], '(');
    assert body + [')'] == body + [')'] + [];
    SplitAtFirst(body, ')', []);
  }

  lemma Split3(a: string, b: string, c: string)
    requires ',' !in a && ',' !in b && ',' !in c
    ensures Split(a + "," + b + "," + c, ',') == [a, b, c]
  {
    assert a + "," + b + "," + c == a + [','] + (b + [','] + c);
    SplitAtFirst(a, ',', b + [','] + c);
    SplitAtFirst(b, ',', c);
    SplitNoSeparator(c, ',');
  }

  lemma Split4(a: string, b: string, c: string, d: string)
    requires ',' !in a && ',' !in b && ',' !in c && ',' !in d
    ensures Split(a + "," + b + "," + c + "," + d, ',') == [a, b, c, d]
  {
    assert a + "," + b + "," + c + "," + d == a + [','] + (b + "," + c + "," + d);
    SplitAtFirst(a, ',', b + "," + c + "," + d);
    Split3(b, c, d);
  }

  /** A text written as `name(a,b,c)` has the fields `a`, `b`, `c`, both
      for the patterns of `type` and for the converters' own splitting, and
      no space when its fields have none. */
  lemma Call3Fields(name: string, a: string, b: string, c: string)
    requires '(' !in name && ' ' !in name
    requires Plain(a) && Plain(b) && Plain(c)
    ensures Wrapped(Call3(name, a, b, c), name)
    ensures Args(Call3(name, a, b, c), name) == [a, b, c]
    ensures Fields(Call3(name, a, b, c)) == Some([a, b, c])
    ensures ' ' !in Call3(name, a, b, c)
  {
    var body := a + "," + b + "," + c;
    WrapParts(name, body);
    Split3(a, b, c);
    FieldsOfWrap(name, body);
  }

  lemma Call4Fields(name: string, a: string, b: string, c: string, d: string)
    requires '(' !in name && ' ' !in name
    requires Plain(a) && Plain(b) && Plain(c) && Plain(d)
    ensures Wrapped(Call4(name, a, b, c, d), name)
    ensures Args(Call4(name, a, b, c, d), name) == [a, b, c, d]
    ensures Fields(Call4(name, a, b, c, d)) == Some([a, b, c, d])
    ensures ' ' !in Call4(name, a, b, c, d)
  {
    var body := a + "," + b + "," + c + "," + d;
    WrapParts(name, body);
    Split4(a, b, c, d);
    FieldsOfWrap(name, body);
  }

  /** For a text the patterns accept, the `split` chain finds exactly the
      fields the pattern saw. */
  lemma ShapeFields(s: string, name: string)
    requires Wrapped(s, name) && '(' !in name
    requires forall k :: 0 <= k < |Args(s, name)| ==> Plain(Args(s, name)[k])
    ensures Fields(s) == Some(Args(s, name))
  {
    var body := Inner(s, name);
    InnerWraps(s, name);
    var f := Split(body, ',');
    assert f == Args(s, name);
    assert forall k :: 0 <= k < |f| ==> Plain(f[k]);
    SplitCovers(body, ',', '(');
    SplitCovers(body, ',', ')');
    FieldsOfWrap(name, body);
  }

  lemma DigitsPlain(t: string)
    requires AllDigits(t)
    ensures Plain(t) && '.' !in t && '%' !in t
  {
  }

  lemma AlphaPlain(t: string)
    requires IsAlphaToken(t)
    ensures Plain(t)
  {
    if t != "1" {
      var f := if |t| > 0 && t[0] == '0' then t[1..] else t;
      DigitsPlain(f[1..]);
      assert f == [f[0]] + f[1..];
      if |t| > 0 && t[0] == '0' {
        assert t == [t[0]] + f;
      }
    }
  }

  lemma PercentFieldParts(f: string)
    requires IsPercentField(f)
    ensures Plain(f)
    ensures ParseInt(f) == Some(DecValue(f[..|f| - 1]))
    ensures DecValue(f[..|f| - 1]) <= 100
    ensures ParseInt(f).Some? && ParseInt(f).value <= 100
  {
    var t := f[..|f| - 1];
    assert f == t + "%";
    DigitsPlain(t);
    ParseIntPrefix(t, "%");
    PercentTokenValue(t);
  }

  lemma ByteTokenParse(t: string)
    requires IsByteToken(t)
    ensures Plain(t)
    ensures ParseInt(t) == Some(DecValue(t)) && DecValue(t) <= 255
  {
    DigitsPlain(t);
    ParseIntDigits(t);
    ByteTokenIff(t);
  }

  lemma HueTokenParse(t: string)
    requires IsHueToken(t)
    ensures Plain(t)
    ensures ParseInt(t) == Some(DecValue(t)) && DecValue(t) <= 360
  {
    DigitsPlain(t);
    ParseIntDigits(t);
    HueTokenIff(t);
  }

  /** The first three fields of a functional colour each start with a
      digit, so `parseInt` gives a number for each. */
  predicate Parses3(s: string)
  {
    Fields(s).Some? && |Fields(s).value| >= 3 &&
    ParseInt(Fields(s).value[0]).Some? &&
    ParseInt(Fields(s).value[1]).Some? &&
    ParseInt(Fields(s).value[2]).Some?
  }

  /** `parseInt` of the first three fields. */
  function Ints3(s: string): (nat, nat, nat)
    requires Parses3(s)
  {
    var f := Fields(s).value;
    (ParseInt(f[0]).value, ParseInt(f[1]).value, ParseInt(f[2]).value)
  }

  /** A text the RGB reading of color.js works on: three numeric fields
      whose integer parts are channels. */
  predicate RgbLike(s: string)
  {
    Parses3(s) && Ints3(s).0 <= 255 && Ints3(s).1 <= 255 && Ints3(s).2 <= 255
  }

  /** A text the HSL reading works on: a hue up to 360 and two percentages
      up to 100. */
  predicate HslLike(s: string)
  {
    Parses3(s) && Ints3(s).0 <= 360 && Ints3(s).1 <= 100 && Ints3(s).2 <= 100
  }

  lemma AllPlain(f: seq<string>)
    requires |f| == 4 && Plain(f[0]) && Plain(f[1]) && Plain(f[2]) && Plain(f[3])
    ensures forall k :: 0 <= k < |f| ==> Plain(f[k])
  {
    forall k | 0 <= k < |f|
      ensures Plain(f[k])
    {
      if k == 0 {
      } else if k == 1 {
      } else if k == 2 {
      } else {
      }
    }
  }

  lemma Parses3Of(s: string, f: seq<string>)
    requires Fields(s) == Some(f) && |f| >= 3
    requires ParseInt(f[0]).Some? && ParseInt(f[1]).Some? && ParseInt(f[2]).Some?
    ensures Parses3(s)
    ensures Ints3(s) == (ParseInt(f[0]).value, ParseInt(f[1]).value, ParseInt(f[2]).value)
  {
  }

  /** What the RGB pattern admits reads back as its three channel values. */
  lemma RgbShape(s: string)
    requires IsRgb(s)
    ensures RgbLike(s)
    ensures var f := Args(s, "rgb");
      Ints3(s) == (DecValue(f[0]), DecValue(f[1]), DecValue(f[2]))
  {
    var f := Args(s, "rgb");
    ByteTokenParse(f[0]);
    ByteTokenParse(f[1]);
    ByteTokenParse(f[2]);
    ShapeFields(s, "rgb");
    Parses3Of(s, f);
  }

  lemma RgbaShape(s: string)
    requires IsRgba(s)
    ensures RgbLike(s)
  {
    var f := Args(s, "rgba");
    ByteTokenParse(f[0]);
    ByteTokenParse(f[1]);
    ByteTokenParse(f[2]);
    AlphaPlain(f[3]);
    AllPlain(f);
    ShapeFields(s, "rgba");
    Parses3Of(s, f);
  }

  lemma HslShape(s: string)
    requires IsHsl(s)
    ensures HslLike(s)
  {
    var f := Args(s, "hsl");
    assert IsHueToken(f[0]) && IsPercentField(f[1]) && IsPercentField(f[2]);
    HueTokenParse(f[0]);
    PercentFieldParts(f[1]);
    PercentFieldParts(f[2]);
    ShapeFields(s, "hsl");
    var a, b, c := ParseInt(f[0]).value, ParseInt(f[1]).value, ParseInt(f[2]).value;
    assert a <= 360 && b <= 100 && c <= 100;
    Parses3Of(s, f);
    assert Ints3(s) == (a, b, c);
  }

  lemma HslaShape(s: string)
    requires IsHsla(s)
    ensures HslLike(s)
  {
    var f := Args(s, "hsla");
    assert IsHueToken(f[0]) && IsPercentField(f[1]) && IsPercentField(f[2]);
    HueTokenParse(f[0]);
    PercentFieldParts(f[1]);
    PercentFieldParts(f[2]);
    AlphaPlain(f[3]);
    AllPlain(f);
    ShapeFields(s, "hsla");
    var a, b, c := ParseInt(f[0]).value, ParseInt(f[1]).value, ParseInt(f[2]).value;
    assert a <= 360 && b <= 100 && c <= 100;
    Parses3Of(s, f);
    assert Ints3(s) == (a, b, c);
  }

  // The HEX patterns of the HEX-to-RGB branches.

  /** What follows the optional `#` of `^#?`. */
  function AfterHash(c: string): string
  {
    if |c| > 0 && c[0] == '#' then c[1..] else c
  }

  /** The shorthand replacement (color.js:94-98): an optional `#` and
      exactly three hexadecimal digits become the six digits with each one
      doubled, and the `#` is dropped; anything else is left alone. */
  function ExpandShorthand(c: string): string
  {
    var d := AfterHash(c);
    if |d| == 3 && AllHexDigits(d) then [d[0], d[0], d[1], d[1], d[2], d[2]] else c
  }

  lemma PairValue(p: string)
    requires |p| == 2 && AllHexDigits(p)
    ensures HexValue(p) == 16 * HexDigitValue(p[0]) + HexDigitValue(p[1])
  {
    assert p[..1] == [p[0]];
    assert p[..1][..0] == [];
    assert HexValue(p[..1]) == HexDigitValue(p[0]);
  }

  /** The six-digit pattern (color.js:100): an optional `#` and six
      hexadecimal digits, read as three base-16 pairs; None when it does
      not match. */
  function HexPairs(c: string): (r: Option<(nat, nat, nat)>)
    ensures r.Some? ==> r.value.0 <= 255 && r.value.1 <= 255 && r.value.2 <= 255
  {
    var d := AfterHash(c);
    if |d| == 6 && AllHexDigits(d) then
      PairValue(d[0..2]);
      PairValue(d[2..4]);
      PairValue(d[4..6]);
      Some((HexValue(d[0..2]), HexValue(d[2..4]), HexValue(d[4..6])))
    else None
  }

  /** The channels the HEX-to-RGB branch of `toRGB` and `toRGBA` finds. */
  function HexChannels(c: string): Option<(nat, nat, nat)>
  {
    HexPairs(ExpandShorthand(c))
  }

  /** Every HEX colour yields channels; in the three-digit shorthand each
      digit stands for itself doubled, 17 times its value. */
  lemma HexChannelsOfHex(c: string)
    requires IsHex(c)
    ensures HexChannels(c).Some?
    ensures |c| == 4 ==> HexChannels(c) == Some((17 * HexDigitValue(c[1]),
                                                 17 * HexDigitValue(c[2]),
                                                 17 * HexDigitValue(c[3])))
    ensures |c| == 7 ==> HexChannels(c) == Some((HexValue(c[1..3]), HexValue(c[3..5]), HexValue(c[5..7])))
  {
    if |c| == 4 {
      var d := c[1..];
      var e := [d[0], d[0], d[1], d[1], d[2], d[2]];
      assert ExpandShorthand(c) == e;
      assert AfterHash(e) == e;
      PairValue(e[0..2]);
      PairValue(e[2..4]);
      PairValue(e[4..6]);
    } else {
      assert AfterHash(c) == c[1..];
      assert c[1..][0..2] == c[1..3];
      assert c[1..][2..4] == c[3..5];
      assert c[1..][4..6] == c[5..7];
    }
  }

  // The pieces `toHEX` writes (color.js:462-474).

  /** `n.toString(16)`, with a lone digit padded by `0`. */
  function Pair(n: nat): (p: string)
    ensures |p| >= 2 && AllHexDigits(p) && HexValue(p) == n
    ensures n <= 255 <==> |p| == 2
    ensures forall i :: 0 <= i < |p| ==> !('A' <= p[i] <= 'F')
  {
    var h := HexText(n);
    HexTextValue(n);
    if |h| == 1 then
      PairValue("0" + h);
      "0" + h
    else h
  }

  /** A lower-case pair is exactly what `Pair` writes for its value. */
  lemma PairOfValue(p: string)
    requires |p| == 2 && AllHexDigits(p)
    requires forall i :: 0 <= i < |p| ==> !('A' <= p[i] <= 'F')
    ensures Pair(HexValue(p)) == p
  {
    PairValue(p);
    var hi := HexDigitValue(p[0]);
    var lo := HexDigitValue(p[1]);
    var n := HexValue(p);
    DigitCharOf(p[0]);
    DigitCharOf(p[1]);
    if hi == 0 {
      assert HexText(n) == [DigitChar(lo)];
    } else {
      assert n / 16 == hi && n % 16 == lo;
      assert HexText(n) == HexText(hi) + [DigitChar(lo)];
    }
  }

  /** `#` and the padded base-16 pairs of the three channels `parseInt`
      reads from the fields. */
  function RgbFieldsToHex(c: string): (h: string)
    requires Parses3(c)
    ensures RgbLike(c) ==> IsHex(h) && |h| == 7
    ensures RgbLike(c) ==> HexChannels(h) == Some(Ints3(c))
  {
    var (r, g, b) := Ints3(c);
    var h := "#" + Pair(r) + Pair(g) + Pair(b);
    if RgbLike(c) then
      HexOfPairs(Pair(r), Pair(g), Pair(b));
      h
    else h
  }

  lemma HexOfPairs(p: string, q: string, u: string)
    requires |p| == 2 && |q| == 2 && |u| == 2
    requires AllHexDigits(p) && AllHexDigits(q) && AllHexDigits(u)
    ensures IsHex("#" + p + q + u)
    ensures HexChannels("#" + p + q + u) == Some((HexValue(p), HexValue(q), HexValue(u)))
  {
    var h := "#" + p + q + u;
    assert h[1..] == p + q + u;
    HexChannelsOfHex(h);
    assert h[1..3] == p && h[3..5] == q && h[5..7] == u;
  }

  // The numbers `toRGB` and `toRGBA` print.

  /** How JavaScript prints a channel of the HSL conversion: a whole number
      as its digits, `l * 255` with its decimals. `parseInt` reads back its
      integer part. */
  function NumberText(x: real): (t: string)
    requires IsChannel(x)
    ensures Plain(t)
    ensures ParseInt(t) == Some(x.Floor as nat)
    ensures x.Floor as real == x ==> t == DecText(x.Floor as nat)
    ensures x.Floor as real != x ==> !AllDigits(t)
  {
    var k := (x * 100.0).Floor;
    NumberFloor(x, k);
    NumberTextParts(x, k);
    CentsText(k as nat)
  }

  lemma NumberTextParts(x: real, k: int)
    requires IsChannel(x) && k == (x * 100.0).Floor
    requires k >= 0 && k / 100 == x.Floor
    requires x.Floor as real == x <==> k % 100 == 0
    ensures ParseInt(CentsText(k as nat)) == Some(x.Floor as nat)
    ensures x.Floor as real == x ==> CentsText(k as nat) == DecText(x.Floor as nat)
    ensures x.Floor as real != x ==> !AllDigits(CentsText(k as nat))
  {
    var t := CentsText(k as nat);
    ParseIntCentsText(k as nat);
    if x.Floor as real == x {
      assert k == 100 * x.Floor;
      CentsTextWhole(x.Floor as nat);
    } else {
      assert !IsDigit(t[|DecText(k / 100)|]);
    }
  }

  lemma NumberFloor(x: real, k: int)
    requires IsChannel(x) && k == (x * 100.0).Floor
    ensures k >= 0 && k / 100 == x.Floor
    ensures x.Floor as real == x <==> k % 100 == 0
  {
    var q := k / 100;
    var r := k % 100;
    assert k == 100 * q + r;
    assert x == q as real + r as real / 100.0;
  }

  /** `rgb(r,g,b)` with the channels as JavaScript prints them. */
  function RgbText(ch: Channels): string
    requires IsChannel(ch.r) && IsChannel(ch.g) && IsChannel(ch.b)
  {
    Call3("rgb", NumberText(ch.r), NumberText(ch.g), NumberText(ch.b))
  }

  /** `rgb(r,g,b)` for whole channels. */
  function RgbInts(r: nat, g: nat, b: nat): string
  {
    Call3("rgb", DecText(r), DecText(g), DecText(b))
  }

  /** What `toRGB` writes reads back as the channels it was given, and is
      an RGB text `type` accepts. */
  lemma RgbIntsParts(r: nat, g: nat, b: nat)
    requires r <= 255 && g <= 255 && b <= 255
    ensures RgbLike(RgbInts(r, g, b)) && Ints3(RgbInts(r, g, b)) == (r, g, b)
    ensures IsRgb(RgbInts(r, g, b)) && ' ' !in RgbInts(r, g, b)
  {
    var s := RgbInts(r, g, b);
    var f := [DecText(r), DecText(g), DecText(b)];
    DecTextParts(r);
    DecTextParts(g);
    DecTextParts(b);
    Call3Fields("rgb", f[0], f[1], f[2]);
    Parses3Of(s, f);
    ByteTokenOfText(r);
    ByteTokenOfText(g);
    ByteTokenOfText(b);
  }

  lemma DecTextParts(n: nat)
    ensures Plain(DecText(n))
    ensures ParseInt(DecText(n)) == Some(n)
  {
    DigitsPlain(DecText(n));
    ParseIntDigits(DecText(n));
    DecTextValue(n);
  }
}
