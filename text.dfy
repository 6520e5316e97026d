/** The handful of JavaScript string built-ins the colour module relies on,
    over `seq<char>`: `split` with a one-character separator, removal of
    spaces, `parseInt` on decimal text, and `Number.prototype.toString`
    in bases 10 and 16. */
module Text {

  datatype Option<+T> = None | Some(value: T)

  predicate IsDigit(c: char) { '0' <= c <= '9' }

  /** `[A-Fa-f0-9]`, the class the hexadecimal patterns of color.js use. */
  predicate IsHexDigit(c: char) { IsDigit(c) || 'a' <= c <= 'f' || 'A' <= c <= 'F' }

  predicate AllDigits(s: string) { forall i :: 0 <= i < |s| ==> IsDigit(s[i]) }

  predicate AllHexDigits(s: string) { forall i :: 0 <= i < |s| ==> IsHexDigit(s[i]) }

  function HexDigitValue(c: char): (v: nat)
    requires IsHexDigit(c)
    ensures v < 16
    ensures IsDigit(c) ==> v < 10
  {
    if IsDigit(c) then c as int - '0' as int
    else if 'a' <= c <= 'f' then c as int - 'a' as int + 10
    else c as int - 'A' as int + 10
  }

  /** The value of a string of decimal digits, most significant first. */
  function DecValue(s: string): nat
    requires AllDigits(s)
  {
    if |s| == 0 then 0 else DecValue(s[..|s| - 1]) * 10 + HexDigitValue(s[|s| - 1])
  }

  /** The value of a string of hexadecimal digits, most significant first. */
  function HexValue(s: string): nat
    requires AllHexDigits(s)
  {
    if |s| == 0 then 0 else HexValue(s[..|s| - 1]) * 16 + HexDigitValue(s[|s| - 1])
  }

  /** The lower-case digit for a value below 16; the inverse of
      `HexDigitValue` on digits that are not upper-case. */
  function DigitChar(d: nat): (c: char)
    requires d < 16
    ensures IsHexDigit(c) && HexDigitValue(c) == d
    ensures d < 10 ==> IsDigit(c)
    ensures !('A' <= c <= 'F')
  {
    if d < 10 then ('0' as int + d) as char else ('a' as int + d - 10) as char
  }

  lemma DigitCharOf(c: char)
    requires IsHexDigit(c) && !('A' <= c <= 'F')
    ensures DigitChar(HexDigitValue(c)) == c
  {
  }

  /** `String(n)` for a natural number: its decimal digits. */
  function DecText(n: nat): (r: string)
    ensures AllDigits(r)
    ensures 1 <= |r|
    ensures n < 10 <==> |r| == 1
    ensures n < 100 <==> |r| <= 2
    ensures n < 1000 <==> |r| <= 3
  {
    if n < 10 then [DigitChar(n)] else DecText(n / 10) + [DigitChar(n % 10)]
  }

  /** `n.toString(16)`: lower-case hexadecimal digits. */
  function HexText(n: nat): (r: string)
    ensures AllHexDigits(r)
    ensures forall i :: 0 <= i < |r| ==> !('A' <= r[i] <= 'F')
    ensures 1 <= |r|
    ensures n < 16 <==> |r| == 1
    ensures n < 256 <==> |r| <= 2
  {
    if n < 16 then [DigitChar(n)] else HexText(n / 16) + [DigitChar(n % 16)]
  }

  lemma {:induction false} DecTextValue(n: nat)
    ensures DecValue(DecText(n)) == n
  {
    if n >= 10 {
      DecTextValue(n / 10);
      var r := DecText(n);
      assert r[..|r| - 1] == DecText(n / 10);
    }
  }

  lemma {:induction false} HexTextValue(n: nat)
    ensures HexValue(HexText(n)) == n
  {
    if n >= 16 {
      HexTextValue(n / 16);
      var r := HexText(n);
      assert r[..|r| - 1] == HexText(n / 16);
    }
  }

  /** `s.replace(new RegExp(" ", "g"), "")`: every ASCII space removed,
      every other character kept in order. */
  function StripSpaces(s: string): (r: string)
    ensures ' ' !in r
    ensures |r| <= |s|
    ensures forall c :: c != ' ' ==> (c in r <==> c in s)
  {
    if |s| == 0 then [] else (if s[0] == ' ' then [] else [s[0]]) + StripSpaces(s[1..])
  }

  lemma {:induction false} StripSpacesNoSpace(s: string)
    requires ' ' !in s
    ensures StripSpaces(s) == s
  {
    if |s| > 0 {
      StripSpacesNoSpace(s[1..]);
    }
  }

  /** `s.split(c)` for a one-character separator: the pieces between the
      separators, in order; the empty string gives one empty piece. */
  function Split(s: string, c: char): (r: seq<string>)
    ensures |r| >= 1
    ensures forall k :: 0 <= k < |r| ==> c !in r[k]
  {
    if |s| == 0 then [[]]
    else
      var rest := Split(s[1..], c);
      if s[0] == c then [[]] + rest else [[s[0]] + rest[0]] + rest[1..]
  }

  lemma {:induction false} SplitNoSeparator(s: string, c: char)
    requires c !in s
    ensures Split(s, c) == [s]
  {
    if |s| > 0 {
      SplitNoSeparator(s[1..], c);
      assert [s[0]] + s[1..] == s;
    }
  }

  lemma {:induction false} SplitAtFirst(a: string, c: char, b: string)
    requires c !in a
    ensures Split(a + [c] + b, c) == [a] + Split(b, c)
  {
    if |a| == 0 {
      assert a + [c] + b == [c] + b;
      assert ([c] + b)[1..] == b;
    } else {
      SplitAtFirst(a[1..], c, b);
      assert (a + [c] + b)[1..] == a[1..] + [c] + b;
      assert [a[0]] + a[1..] == a;
    }
  }

  /** A character other than the separator that no piece holds is not in
      the string. */
  lemma {:induction false} SplitCovers(s: string, c: char, x: char)
    requires x != c
    requires forall k :: 0 <= k < |Split(s, c)| ==> x !in Split(s, c)[k]
    ensures x !in s
  {
    if |s| > 0 {
      var rest := Split(s[1..], c);
      if s[0] == c {
        assert forall k :: 0 <= k < |rest| ==> rest[k] == Split(s, c)[k + 1];
      } else {
        assert Split(s, c)[0] == [s[0]] + rest[0];
        assert forall k :: 1 <= k < |rest| ==> rest[k] == Split(s, c)[k];
      }
      SplitCovers(s[1..], c, x);
      assert s == [s[0]] + s[1..];
    }
  }

  /** The longest prefix of decimal digits. */
  function DigitPrefix(s: string): (r: string)
    ensures AllDigits(r)
    ensures |r| <= |s|
    ensures |r| < |s| ==> !IsDigit(s[|r|])
  {
    if |s| == 0 || !IsDigit(s[0]) then [] else [s[0]] + DigitPrefix(s[1..])
  }

  /** `parseInt(s)` as color.js calls it, on text that starts with a digit
      or with nothing numeric at all: the value of the leading digits, and
      None (NaN) when there are none. */
  function ParseInt(s: string): Option<nat>
  {
    if |s| == 0 || !IsDigit(s[0]) then None else Some(DecValue(DigitPrefix(s)))
  }

  lemma {:induction false} DigitPrefixOf(t: string, rest: string)
    requires AllDigits(t)
    requires |rest| == 0 || !IsDigit(rest[0])
    ensures DigitPrefix(t + rest) == t
  {
    if |t| > 0 {
      assert (t + rest)[1..] == t[1..] + rest;
      DigitPrefixOf(t[1..], rest);
      assert [t[0]] + t[1..] == t;
    } else {
      assert t + rest == rest;
    }
  }

  /** `parseInt` reads every leading digit and stops at the first other
      character. */
  lemma ParseIntPrefix(t: string, rest: string)
    requires AllDigits(t) && |t| > 0
    requires |rest| == 0 || !IsDigit(rest[0])
    ensures ParseInt(t + rest) == Some(DecValue(t))
  {
    DigitPrefixOf(t, rest);
    assert (t + rest)[0] == t[0];
  }

  lemma ParseIntDigits(t: string)
    requires AllDigits(t) && |t| > 0
    ensures ParseInt(t) == Some(DecValue(t))
  {
    ParseIntPrefix(t, []);
    assert t + [] == t;
  }

  /** How JavaScript prints a non-negative number that is a whole number
      of hundredths, `cents / 100`: the integer part, then a point and the
      fraction digits without trailing zeros when there is a fraction. */
  function CentsText(cents: nat): (r: string)
    ensures |r| >= 1 && IsDigit(r[0])
    ensures ',' !in r && '(' !in r && ')' !in r && ' ' !in r
  {
    var whole := DecText(cents / 100);
    var frac := cents % 100;
    if frac == 0 then whole
    else if frac % 10 == 0 then whole + ['.', DigitChar(frac / 10)]
    else whole + ['.', DigitChar(frac / 10), DigitChar(frac % 10)]
  }

  /** `parseInt` of a printed number is its integer part. */
  lemma ParseIntCentsText(cents: nat)
    ensures ParseInt(CentsText(cents)) == Some(cents / 100)
  {
    var whole := DecText(cents / 100);
    DecTextValue(cents / 100);
    var frac := cents % 100;
    if frac == 0 {
      ParseIntDigits(whole);
    } else if frac % 10 == 0 {
      ParseIntPrefix(whole, ['.', DigitChar(frac / 10)]);
    } else {
      ParseIntPrefix(whole, ['.', DigitChar(frac / 10), DigitChar(frac % 10)]);
    }
  }

  lemma CentsTextWhole(n: nat)
    ensures CentsText(100 * n) == DecText(n)
  {
    assert (100 * n) / 100 == n;
    assert (100 * n) % 100 == 0;
  }
}
