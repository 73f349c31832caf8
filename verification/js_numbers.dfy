/**
 The number conversions the application uses: the global parseInt with no
 radix (section 19.2.5 of ECMA-262), the decision the global isNaN makes on a
 string (ToNumber applied to a String, section 7.1.4.1.1), and the decimal
 rendering of an integer (Number::toString, section 6.1.6.1.20).

 A JavaScript number is modelled as NaN or an integer; fractions, infinities,
 the sign of zero and double-precision rounding are not represented.
 */
module JsNumbers {
  import opened JsText

  datatype JsNumber = NaN | Finite(value: int)

  predicate IsDecimalDigit(c: char) {
    '0' <= c <= '9'
  }

  /** The value of `c` as a digit in radices up to 36; 36 when it is no digit. */
  function DigitValue(c: char): (d: nat)
    ensures d <= 36
    ensures d < 10 <==> IsDecimalDigit(c)
  {
    if '0' <= c <= '9' then c as int - '0' as int
    else if 'a' <= c <= 'z' then c as int - 'a' as int + 10
    else if 'A' <= c <= 'Z' then c as int - 'A' as int + 10
    else 36
  }

  predicate IsRadixDigit(c: char, radix: nat) {
    DigitValue(c) < radix
  }

  predicate AllRadixDigits(s: string, radix: nat) {
    forall i :: 0 <= i < |s| ==> IsRadixDigit(s[i], radix)
  }

  /** Length of the longest prefix of `s` made of digits of `radix`. */
  function DigitPrefixLength(s: string, radix: nat): (n: nat)
    ensures n <= |s|
    ensures AllRadixDigits(s[..n], radix)
    ensures n < |s| ==> !IsRadixDigit(s[n], radix)
  {
    if |s| == 0 || !IsRadixDigit(s[0], radix) then 0
    else
      var n := 1 + DigitPrefixLength(s[1..], radix);
      assert s[..n] == [s[0]] + s[1..][..n - 1];
      n
  }

  /** The mathematical value of a digit string, most significant digit first. */
  function DigitsValue(s: string, radix: nat): nat
    requires AllRadixDigits(s, radix)
  {
    if |s| == 0 then 0
    else DigitsValue(s[..|s| - 1], radix) * radix + DigitValue(s[|s| - 1])
  }

  function DigitChar(d: nat): (c: char)
    requires d < 10
    ensures IsDecimalDigit(c) && DigitValue(c) == d
  {
    ('0' as int + d) as char
  }

  /** Decimal digits of a natural number, without leading zeros. */
  function NatToDecimal(n: nat): (s: string)
    ensures |s| >= 1
    ensures AllRadixDigits(s, 10)
    ensures DigitsValue(s, 10) == n
    ensures s[0] == '0' ==> n == 0
  {
    if n < 10 then [DigitChar(n)]
    else
      var s := NatToDecimal(n / 10) + [DigitChar(n % 10)];
      assert s[..|s| - 1] == NatToDecimal(n / 10);
      s
  }

  /** Number::toString for an integer: a minus sign, then the decimal digits. */
  function IntToDecimal(i: int): (s: string)
    ensures |s| >= 1
    ensures i >= 0 <==> IsDecimalDigit(s[0])
  {
    if i < 0 then "-" + NatToDecimal(-i) else NatToDecimal(i)
  }

  /** The decimal text of an integer has no surrounding white space. */
  lemma DecimalIsTrimmed(i: int)
    ensures Trim(IntToDecimal(i)) == IntToDecimal(i)
  {
    var s := IntToDecimal(i);
    var d := NatToDecimal(if i < 0 then -i else i);
    assert s[|s| - 1] == d[|d| - 1];
    assert IsRadixDigit(d[|d| - 1], 10);
    assert i < 0 ==> s[0] == '-';
    TrimOfTrimmed(s);
  }

  function Negate(x: JsNumber): JsNumber {
    match x
    case NaN => NaN
    case Finite(m) => Finite(-m)
  }

  /** The value of the longest prefix of `v` made of digits of `radix`; NaN
      when `v` does not start with such a digit. */
  function ReadDigits(v: string, radix: nat): JsNumber
  {
    var n := DigitPrefixLength(v, radix);
    if n == 0 then NaN else Finite(DigitsValue(v[..n], radix))
  }

  /** parseInt after the sign: a "0x" or "0X" prefix selects radix 16. */
  function ParseUnsigned(u: string): JsNumber
  {
    if |u| >= 2 && u[0] == '0' && (u[1] == 'x' || u[1] == 'X') then ReadDigits(u[2..], 16)
    else ReadDigits(u, 10)
  }

  /** The global parseInt with no radix argument. Leading white space is
      skipped, one sign is taken, a "0x" or "0X" prefix switches to radix 16,
      and the longest digit prefix is read; no digit gives NaN. */
  function ParseInt(s: string): JsNumber
  {
    ParseSigned(s[LeadingWhitespace(s)..])
  }

  /** parseInt once the leading white space is gone: one optional sign. */
  function ParseSigned(t: string): JsNumber
  {
    if |t| > 0 && t[0] == '-' then Negate(ParseUnsigned(t[1..]))
    else if |t| > 0 && t[0] == '+' then ParseUnsigned(t[1..])
    else ParseUnsigned(t)
  }

  lemma DigitPrefixOfDigits(s: string, radix: nat)
    requires AllRadixDigits(s, radix)
    ensures DigitPrefixLength(s, radix) == |s|
  {
  }

  /** A digit run with no leading "0x" is read in radix 10 to its end. */
  lemma ParseUnsignedOfDigits(d: string)
    requires |d| >= 1 && AllRadixDigits(d, 10)
    ensures ParseUnsigned(d) == Finite(DigitsValue(d, 10))
  {
    assert |d| >= 2 ==> IsRadixDigit(d[1], 10);
    DigitPrefixOfDigits(d, 10);
    assert d[..|d|] == d;
  }

  /** parseInt reads back what Number::toString writes for an integer. */
  lemma ParseIntOfDecimal(i: int)
    ensures ParseInt(IntToDecimal(i)) == Finite(i)
  {
    var s := IntToDecimal(i);
    assert LeadingWhitespace(s) == 0;
    assert s[0..] == s;
    var d := NatToDecimal(if i < 0 then -i else i);
    ParseUnsignedOfDigits(d);
    if i < 0 {
      assert s[1..] == d;
    } else {
      assert IsRadixDigit(d[0], 10);
    }
  }

  /** parseInt ignores leading white space. */
  lemma ParseIntSkipsWhitespace(w: string, s: string)
    requires AllWhitespace(w)
    ensures ParseInt(w + s) == ParseInt(s)
  {
    var n := LeadingWhitespace(s);
    var ws := w + s;
    var t := ws[LeadingWhitespace(ws)..];
    assert t == s[n..] by {
      LeadingWhitespaceOfPadded(w, s);
      assert ws[|w|..] == s;
      assert ws[|w| + n..] == ws[|w|..][n..];
    }
    assert ParseInt(ws) == ParseSigned(t);
    assert ParseInt(s) == ParseSigned(s[n..]);
  }

  /** A string with no decimal digit in it parses to NaN (a hexadecimal
      digit only counts after a "0x" prefix, which itself needs a '0'). */
  lemma ParseIntWithoutDigits(s: string)
    requires forall i :: 0 <= i < |s| ==> !IsDecimalDigit(s[i])
    ensures ParseInt(s) == NaN
  {
    var t := s[LeadingWhitespace(s)..];
    var u := if |t| > 0 && (t[0] == '+' || t[0] == '-') then t[1..] else t;
    if |u| > 0 {
      assert u[0] == s[|s| - |u|];
      assert !IsRadixDigit(u[0], 10);
    }
  }

  /** Text whose first character is neither white space, a sign nor a
      digit parses to NaN. */
  lemma ParseIntOfNonDigitStart(s: string)
    requires |s| > 0 && !IsWhitespace(s[0]) && s[0] != '+' && s[0] != '-' && !IsDecimalDigit(s[0])
    ensures ParseInt(s) == NaN
  {
    assert LeadingWhitespace(s) == 0;
    assert s[0..] == s;
    assert !IsRadixDigit(s[0], 10);
  }

  lemma {:induction false} DigitPrefixOfDigitsThenRest(d: string, rest: string)
    requires AllRadixDigits(d, 10)
    requires |rest| > 0 ==> !IsDecimalDigit(rest[0])
    ensures DigitPrefixLength(d + rest, 10) == |d|
    decreases |d|
  {
    var s := d + rest;
    if |d| == 0 {
      assert s == rest;
      assert |rest| > 0 ==> !IsRadixDigit(rest[0], 10);
    } else {
      assert s[0] == d[0] && IsRadixDigit(d[0], 10);
      assert AllRadixDigits(d[1..], 10);
      assert s[1..] == d[1..] + rest;
      DigitPrefixOfDigitsThenRest(d[1..], rest);
    }
  }

  /** A digit string is read up to the first character that cannot continue
      it: "21 años" and "21x" parse as 21. Only "0" followed by an x starts
      a hexadecimal number instead. */
  lemma ParseIntOfDigitsThenRest(d: string, rest: string)
    requires |d| >= 1 && AllRadixDigits(d, 10)
    requires |rest| > 0 ==> !IsDecimalDigit(rest[0])
    requires d == "0" && |rest| > 0 ==> rest[0] != 'x' && rest[0] != 'X'
    ensures ParseInt(d + rest) == Finite(DigitsValue(d, 10))
  {
    var s := d + rest;
    assert s[0] == d[0] && IsRadixDigit(d[0], 10);
    assert ParseInt(s) == ParseSigned(s) by {
      assert LeadingWhitespace(s) == 0;
      assert s[0..] == s;
    }
    assert ParseSigned(s) == ParseUnsigned(s);
    assert ParseUnsigned(s) == ReadDigits(s, 10) by {
      if |d| >= 2 { assert s[1] == d[1]; assert IsRadixDigit(d[1], 10); }
      else if |s| >= 2 {
        assert s[1] == rest[0];
        assert d == [d[0]];
      }
    }
    assert ReadDigits(s, 10) == Finite(DigitsValue(d, 10)) by {
      DigitPrefixOfDigitsThenRest(d, rest);
      assert s[..|d|] == d;
    }
  }

  /** A minus sign negates the parsed value. */
  lemma ParseIntNegative(s: string)
    requires |s| > 0 ==> !IsWhitespace(s[0]) && s[0] != '+' && s[0] != '-'
    ensures ParseInt("-" + s) == Negate(ParseInt(s))
  {
    var t := "-" + s;
    assert LeadingWhitespace(t) == 0;
    assert t[0..] == t;
    assert t[1..] == s;
    assert LeadingWhitespace(s) == 0;
    assert s[0..] == s;
  }

  // ---- ToNumber applied to a String (section 7.1.4.1.1) ----

  predicate IsSignedInteger(s: string) {
    var u := if |s| > 0 && (s[0] == '+' || s[0] == '-') then s[1..] else s;
    |u| > 0 && AllRadixDigits(u, 10)
  }

  predicate IsOptionalExponent(s: string) {
    s == [] || ((s[0] == 'e' || s[0] == 'E') && IsSignedInteger(s[1..]))
  }

  /** StrUnsignedDecimalLiteral: "Infinity", or digits with an optional
      fraction and exponent, at least one digit before or after the point. */
  predicate IsStrUnsignedDecimalLiteral(s: string) {
    || s == "Infinity"
    || (var a := DigitPrefixLength(s, 10);
        var rest := s[a..];
        if |rest| > 0 && rest[0] == '.' then
          var b := DigitPrefixLength(rest[1..], 10);
          (a > 0 || b > 0) && IsOptionalExponent(rest[1 + b..])
        else
          a > 0 && IsOptionalExponent(rest))
  }

  predicate IsStrDecimalLiteral(s: string) {
    if |s| > 0 && (s[0] == '+' || s[0] == '-') then IsStrUnsignedDecimalLiteral(s[1..])
    else IsStrUnsignedDecimalLiteral(s)
  }

  /** BinaryIntegerLiteral, OctalIntegerLiteral and HexIntegerLiteral: no sign. */
  predicate IsNonDecimalIntegerLiteral(s: string) {
    && |s| >= 3 && s[0] == '0'
    && (|| ((s[1] == 'b' || s[1] == 'B') && AllRadixDigits(s[2..], 2))
        || ((s[1] == 'o' || s[1] == 'O') && AllRadixDigits(s[2..], 8))
        || ((s[1] == 'x' || s[1] == 'X') && AllRadixDigits(s[2..], 16)))
  }

  /** ToNumber of the string is not NaN: it is white space only (which gives
      0) or a StrNumericLiteral surrounded by white space. */
  predicate IsNumericString(s: string) {
    var t := Trim(s);
    t == [] || IsStrDecimalLiteral(t) || IsNonDecimalIntegerLiteral(t)
  }

  /** The global isNaN applied to a string. */
  predicate IsNaNString(s: string) {
    !IsNumericString(s)
  }

  lemma DigitsTrimmed(d: string)
    requires |d| >= 1 && AllRadixDigits(d, 10)
    ensures Trim(d) == d
  {
    assert IsTrimmed(d) by {
      assert !IsWhitespace(d[0]) by { assert IsRadixDigit(d[0], 10); }
      assert !IsWhitespace(d[|d| - 1]) by { assert IsRadixDigit(d[|d| - 1], 10); }
    }
    TrimOfTrimmed(d);
  }

  lemma DigitsAreDecimalLiteral(d: string)
    requires |d| >= 1 && AllRadixDigits(d, 10)
    ensures IsStrDecimalLiteral(d)
  {
    assert IsStrUnsignedDecimalLiteral(d) by {
      DigitPrefixOfDigits(d, 10);
      assert d[|d|..] == [];
    }
    assert IsRadixDigit(d[0], 10);
  }

  /** A non-empty run of decimal digits is a number. */
  lemma DigitsAreNumeric(d: string)
    requires |d| >= 1 && AllRadixDigits(d, 10)
    ensures !IsNaNString(d)
  {
    DigitsTrimmed(d);
    DigitsAreDecimalLiteral(d);
  }

  /** Digit-free text is no unsigned decimal literal unless it is "Infinity". */
  lemma NoDigitsNoUnsignedLiteral(u: string)
    requires u != "Infinity"
    requires forall i :: 0 <= i < |u| ==> !IsDecimalDigit(u[i])
    ensures !IsStrUnsignedDecimalLiteral(u)
  {
    assert DigitPrefixLength(u, 10) == 0 by {
      if |u| > 0 { assert !IsRadixDigit(u[0], 10); }
    }
    assert u[0..] == u;
    if |u| > 0 && u[0] == '.' {
      var r := u[1..];
      assert DigitPrefixLength(r, 10) == 0 by {
        if |r| > 0 { assert r[0] == u[1]; assert !IsRadixDigit(r[0], 10); }
      }
    }
  }

  /** Digit-free text is no numeric literal, except the Infinity spellings. */
  lemma NoDigitsNoLiteral(t: string)
    requires t != "Infinity" && t != "+Infinity" && t != "-Infinity"
    requires forall i :: 0 <= i < |t| ==> !IsDecimalDigit(t[i])
    ensures !IsStrDecimalLiteral(t) && !IsNonDecimalIntegerLiteral(t)
  {
    if |t| > 0 {
      assert t[0] != '0';
    }
    if |t| > 0 && (t[0] == '+' || t[0] == '-') {
      var u := t[1..];
      assert [t[0]] + u == t;
      assert u != "Infinity";
      NoDigitsNoUnsignedLiteral(u);
    } else {
      NoDigitsNoUnsignedLiteral(t);
    }
  }

  /** Text without a digit is not a number, except the word Infinity and
      blank text. */
  lemma LettersAreNaN(s: string)
    requires Trim(s) != [] && Trim(s) != "Infinity" && Trim(s) != "+Infinity" && Trim(s) != "-Infinity"
    requires forall i :: 0 <= i < |s| ==> !IsDecimalDigit(s[i])
    ensures IsNaNString(s)
  {
    var t := Trim(s);
    var a := LeadingWhitespace(s);
    assert forall i :: 0 <= i < |t| ==> t[i] == s[a + i];
    NoDigitsNoLiteral(t);
  }
}
