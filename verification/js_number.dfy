/** `parseInt(x, 10)` as the composables use it (`toInt`), on strings.

    The ECMAScript algorithm: skip leading white space, read an optional
    sign, then take the longest run of decimal digits; no digits means NaN.
    Values are unbounded integers here (no double-precision rounding). */
module JsNumber {

  /** What `parseInt` returns: an integral number or NaN. */
  datatype Number = Int(value: int) | NaN

  predicate IsDigit(c: char) {
    '0' <= c <= '9'
  }

  /** WhiteSpace and LineTerminator code points of ECMAScript (StrWhiteSpaceChar). */
  predicate IsWhiteSpace(c: char) {
    || c == '\t' || c == '\n' || c == '\U{000B}' || c == '\U{000C}' || c == '\r'
    || c == ' ' || c == '\U{00A0}' || c == '\U{1680}'
    || ('\U{2000}' <= c <= '\U{200A}')
    || c == '\U{2028}' || c == '\U{2029}' || c == '\U{202F}' || c == '\U{205F}'
    || c == '\U{3000}' || c == '\U{FEFF}'
  }

  predicate AllDigits(s: string) {
    forall i :: 0 <= i < |s| ==> IsDigit(s[i])
  }

  predicate AllWhiteSpace(s: string) {
    forall i :: 0 <= i < |s| ==> IsWhiteSpace(s[i])
  }

  /** The string with its leading white space removed. */
  function TrimStart(s: string): string {
    if |s| > 0 && IsWhiteSpace(s[0]) then TrimStart(s[1..]) else s
  }

  /** The longest prefix of `s` made of decimal digits. */
  function DigitPrefix(s: string): (r: string)
    ensures AllDigits(r)
  {
    if |s| > 0 && IsDigit(s[0]) then [s[0]] + DigitPrefix(s[1..]) else []
  }

  function DigitValue(c: char): nat
    requires IsDigit(c)
  {
    c as int - '0' as int
  }

  /** The value of a run of decimal digits, most significant digit first. */
  function DigitsValue(ds: string): nat
    requires AllDigits(ds)
  {
    if ds == [] then 0 else DigitsValue(ds[..|ds| - 1]) * 10 + DigitValue(ds[|ds| - 1])
  }

  /** The text after an optional leading sign. */
  function Unsigned(t: string): string {
    if |t| > 0 && (t[0] == '-' || t[0] == '+') then t[1..] else t
  }

  /** `parseInt` on text that no longer starts with white space. */
  function ParseSigned(t: string): Number {
    var ds := DigitPrefix(Unsigned(t));
    if ds == [] then NaN
    else
      var magnitude: int := DigitsValue(ds);
      if |t| > 0 && t[0] == '-' then Int(-magnitude) else Int(magnitude)
  }

  /** `toInt = x => parseInt(x, 10)`. */
  function ToInt(s: string): (r: Number)
    ensures var t := Unsigned(TrimStart(s)); r.NaN? <==> t == [] || !IsDigit(t[0])
  {
    ParseSigned(TrimStart(s))
  }

  /** TrimStart removes exactly the leading run of white space. */
  lemma {:induction false} TrimStartRemovesLeadingWhiteSpace(s: string)
    ensures var r := TrimStart(s);
      && |r| <= |s| && r == s[|s| - |r|..]
      && AllWhiteSpace(s[..|s| - |r|])
      && (r == [] || !IsWhiteSpace(r[0]))
    decreases |s|
  {
    if |s| > 0 && IsWhiteSpace(s[0]) {
      TrimStartRemovesLeadingWhiteSpace(s[1..]);
      var r := TrimStart(s[1..]);
      assert s[..|s| - |r|] == [s[0]] + s[1..][..|s[1..]| - |r|];
    }
  }

  /** DigitPrefix stops exactly at the first character that is not a digit. */
  lemma {:induction false} DigitPrefixIsLongest(s: string)
    ensures var r := DigitPrefix(s);
      && |r| <= |s| && r == s[..|r|]
      && (|r| == |s| || !IsDigit(s[|r|]))
    decreases |s|
  {
    if |s| > 0 && IsDigit(s[0]) {
      DigitPrefixIsLongest(s[1..]);
    }
  }

  /** Text without a single decimal digit reads as NaN. */
  lemma ToIntWithoutDigits(s: string)
    requires forall i :: 0 <= i < |s| ==> !IsDigit(s[i])
    ensures ToInt(s) == NaN
  {
    var t := TrimStart(s);
    TrimStartRemovesLeadingWhiteSpace(s);
    var u := Unsigned(t);
    assert |u| <= |t| && u == t[|t| - |u|..];
    if |u| > 0 {
      assert u[0] == s[|s| - |u|];
    }
  }

  function DigitChar(d: nat): (c: char)
    requires d < 10
    ensures IsDigit(c) && DigitValue(c) == d
  {
    ('0' as int + d) as char
  }

  /** Decimal notation of a natural number, without leading zeros. */
  function FormatNat(n: nat): (s: string)
    ensures |s| >= 1 && AllDigits(s)
    ensures |s| > 1 ==> s[0] != '0'
  {
    if n < 10 then [DigitChar(n)] else FormatNat(n / 10) + [DigitChar(n % 10)]
  }

  /** Decimal notation of an integer, with a leading `-` when negative. */
  function FormatInt(n: int): (s: string)
    ensures |s| >= 1 && !IsWhiteSpace(s[0])
  {
    if n < 0 then "-" + FormatNat(-n) else FormatNat(n)
  }

  lemma {:induction false} DigitsValueOfFormatNat(n: nat)
    ensures DigitsValue(FormatNat(n)) == n
    decreases n
  {
    if n >= 10 {
      var s := FormatNat(n);
      assert s[..|s| - 1] == FormatNat(n / 10);
      DigitsValueOfFormatNat(n / 10);
    }
  }

  lemma {:induction false} TrimStartOfPadded(ws: string, x: string)
    requires AllWhiteSpace(ws)
    requires x == [] || !IsWhiteSpace(x[0])
    ensures TrimStart(ws + x) == x
    decreases |ws|
  {
    if ws != [] {
      assert (ws + x)[0] == ws[0];
      assert (ws + x)[1..] == ws[1..] + x;
      TrimStartOfPadded(ws[1..], x);
    }
  }

  lemma {:induction false} DigitPrefixOfDigits(ds: string, rest: string)
    requires AllDigits(ds)
    requires rest == [] || !IsDigit(rest[0])
    ensures DigitPrefix(ds + rest) == ds
    decreases |ds|
  {
    if ds != [] {
      assert (ds + rest)[0] == ds[0];
      assert (ds + rest)[1..] == ds[1..] + rest;
      DigitPrefixOfDigits(ds[1..], rest);
      assert ds == [ds[0]] + ds[1..];
    }
  }

  lemma ToIntOfNonNegative(t: string, n: nat, rest: string)
    requires t == FormatNat(n) + rest
    requires rest == [] || !IsDigit(rest[0])
    ensures ParseSigned(t) == Int(n)
  {
    var digits := FormatNat(n);
    assert t[0] == digits[0];
    assert Unsigned(t) == t;
    DigitPrefixOfDigits(digits, rest);
    DigitsValueOfFormatNat(n);
  }

  lemma ToIntOfNegative(t: string, n: nat, rest: string)
    requires t == "-" + FormatNat(n) + rest
    requires rest == [] || !IsDigit(rest[0])
    ensures ParseSigned(t) == Int(0 - n)
  {
    var digits := FormatNat(n);
    assert t[0] == '-';
    assert Unsigned(t) == digits + rest;
    DigitPrefixOfDigits(digits, rest);
    DigitsValueOfFormatNat(n);
  }

  /** `parseInt` reads back any decimal integer, whatever white space precedes
      it and whatever non-digit text (a unit such as "px") follows it. */
  lemma ToIntOfFormatInt(ws: string, n: int, rest: string)
    requires AllWhiteSpace(ws)
    requires rest == [] || !IsDigit(rest[0])
    ensures ToInt(ws + FormatInt(n) + rest) == Int(n)
  {
    var t := FormatInt(n) + rest;
    assert ws + FormatInt(n) + rest == ws + t;
    TrimStartOfPadded(ws, t);
    if n < 0 {
      ToIntOfNegative(t, -n, rest);
    } else {
      ToIntOfNonNegative(t, n, rest);
    }
  }

  /** A decimal integer followed by a unit (or by nothing) reads as that
      integer. */
  lemma ToIntWithUnit(n: int, unit: string)
    requires unit == [] || !IsDigit(unit[0])
    ensures ToInt(FormatInt(n) + unit) == Int(n)
  {
    var t := FormatInt(n) + unit;
    assert t[0] == FormatInt(n)[0];
    TrimStartOfPadded([], t);
    assert [] + t == t;
    if n < 0 {
      ToIntOfNegative(t, -n, unit);
    } else {
      ToIntOfNonNegative(t, n, unit);
    }
  }
}
