/** The .NET string operations the conversion logic relies on: blank checks,
    ordinal case-insensitive suffix tests and decimal formatting of `int`. */
module Text {
  import opened Wrappers

  /** `char.IsWhiteSpace`: the Unicode White_Space characters of the UTF-16 range. */
  predicate IsWhiteSpace(c: char) {
    || ('\t' <= c <= '\r')
    || c == ' ' || c == '\U{0085}' || c == '\U{00A0}' || c == '\U{1680}'
    || ('\U{2000}' <= c <= '\U{200A}')
    || c == '\U{2028}' || c == '\U{2029}' || c == '\U{202F}' || c == '\U{205F}' || c == '\U{3000}'
  }

  /** `string.IsNullOrWhiteSpace`; a null string is modelled as the empty string. */
  predicate IsNullOrWhiteSpace(s: string) {
    forall i :: 0 <= i < |s| ==> IsWhiteSpace(s[i])
  }

  /** Upper-case mapping used for ordinal case-insensitive comparison (ASCII letters only). */
  function UpperAscii(c: char): (u: char)
    ensures 'a' <= c <= 'z' ==> 'A' <= u <= 'Z'
    ensures !('a' <= c <= 'z') ==> u == c
  {
    if 'a' <= c <= 'z' then (c as int - 32) as char else c
  }

  predicate EqualsIgnoreCase(a: string, b: string) {
    |a| == |b| && forall i :: 0 <= i < |a| ==> UpperAscii(a[i]) == UpperAscii(b[i])
  }

  predicate EndsWith(s: string, suffix: string) {
    |suffix| <= |s| && forall i :: 0 <= i < |suffix| ==> s[|s| - |suffix| + i] == suffix[i]
  }

  lemma EndsWithTransitive(s: string, t: string, u: string)
    requires EndsWith(s, t) && EndsWith(t, u)
    ensures EndsWith(s, u)
  {
    assert s[|s| - |u|..] == s[|s| - |t|..][|t| - |u|..];
  }

  /** `s.EndsWith(suffix, StringComparison.OrdinalIgnoreCase)`. */
  predicate EndsWithIgnoreCase(s: string, suffix: string) {
    |suffix| <= |s| && EqualsIgnoreCase(s[|s| - |suffix|..], suffix)
  }

  /** Every character upper-cased as `UpperAscii` does. */
  function UpperAll(s: string): string {
    seq(|s|, i requires 0 <= i < |s| => UpperAscii(s[i]))
  }

  /** The ordinal case-insensitive suffix test is the ordinary suffix test on the
      upper-cased strings, in both directions. */
  lemma EndsWithIgnoreCaseIffUpper(s: string, suffix: string)
    ensures EndsWithIgnoreCase(s, suffix) <==> EndsWith(UpperAll(s), UpperAll(suffix))
  {
    if |suffix| <= |s| {
      var t := s[|s| - |suffix|..];
      assert UpperAll(s)[|s| - |suffix|..] == UpperAll(t);
      forall i | 0 <= i < |t|
        ensures UpperAll(t)[i] == UpperAll(suffix)[i] <==> UpperAscii(t[i]) == UpperAscii(suffix[i])
      {
      }
    }
  }

  /** Whatever precedes it, a string ending in any casing of `suffix` passes the test. */
  lemma EndsWithIgnoreCaseOfAppend(s: string, v: string, suffix: string)
    requires EqualsIgnoreCase(v, suffix)
    ensures EndsWithIgnoreCase(s + v, suffix)
  {
    assert (s + v)[|s + v| - |suffix|..] == v;
  }

  /** `TrimStart()`: drops the leading white space. */
  function TrimStart(s: string): string {
    if s != [] && IsWhiteSpace(s[0]) then TrimStart(s[1..]) else s
  }

  /** A string is blank exactly when trimming its leading white space leaves nothing. */
  lemma {:induction false} IsNullOrWhiteSpaceIffTrimmedEmpty(s: string)
    ensures IsNullOrWhiteSpace(s) <==> TrimStart(s) == []
  {
    if s != [] && IsWhiteSpace(s[0]) {
      IsNullOrWhiteSpaceIffTrimmedEmpty(s[1..]);
      assert forall i :: 1 <= i < |s| ==> s[i] == s[1..][i - 1];
    }
  }

  predicate IsDigit(c: char) {
    '0' <= c <= '9'
  }

  function DigitChar(d: nat): (c: char)
    requires d < 10
    ensures IsDigit(c)
  {
    "0123456789"[d]
  }

  function DigitValue(c: char): nat
    requires IsDigit(c)
  {
    c as int - '0' as int
  }

  predicate AllDigits(s: string) {
    forall i :: 0 <= i < |s| ==> IsDigit(s[i])
  }

  /** Decimal digits of `n`, most significant first, without leading zeros. */
  function NatToString(n: nat): (s: string)
    ensures |s| >= 1 && AllDigits(s)
    ensures |s| > 1 ==> s[0] != '0'
    decreases n
  {
    if n < 10 then [DigitChar(n)]
    else NatToString(n / 10) + [DigitChar(n % 10)]
  }

  /** `int.ToString()`: an optional minus sign followed by the decimal digits. */
  function IntToString(n: int): (s: string)
    ensures |s| >= 1
    ensures n < 0 <==> s[0] == '-'
  {
    if n < 0 then "-" + NatToString(-n) else NatToString(n)
  }

  function DigitsValue(s: string): nat
    requires AllDigits(s)
  {
    if s == [] then 0
    else DigitsValue(s[..|s| - 1]) * 10 + DigitValue(s[|s| - 1])
  }

  /** Reads back what `IntToString` writes. */
  function ParseInt(s: string): Option<int> {
    if |s| > 1 && s[0] == '-' && AllDigits(s[1..]) then Some(0 - DigitsValue(s[1..]) as int)
    else if |s| > 0 && AllDigits(s) then Some(DigitsValue(s))
    else None
  }

  lemma {:induction false} NatToStringRoundTrip(n: nat)
    ensures DigitsValue(NatToString(n)) == n
    decreases n
  {
    if n >= 10 {
      var s := NatToString(n);
      NatToStringRoundTrip(n / 10);
      assert s[..|s| - 1] == NatToString(n / 10);
    }
  }

  lemma SignedRoundTrip(digits: string)
    requires |digits| >= 1 && AllDigits(digits)
    ensures ParseInt("-" + digits) == Some(0 - DigitsValue(digits) as int)
  {
    var s := "-" + digits;
    assert s[1..] == digits;
  }

  lemma UnsignedRoundTrip(digits: string)
    requires |digits| >= 1 && AllDigits(digits)
    ensures ParseInt(digits) == Some(DigitsValue(digits) as int)
  {
    assert IsDigit(digits[0]);
  }

  /** The decimal text of an integer determines the integer. */
  lemma IntToStringRoundTrip(n: int)
    ensures ParseInt(IntToString(n)) == Some(n)
  {
    if n < 0 {
      NegativeRoundTrip(n);
    } else {
      NonNegativeRoundTrip(n);
    }
  }

  lemma NegativeRoundTrip(n: int)
    requires n < 0
    ensures ParseInt(IntToString(n)) == Some(n)
  {
    var m: nat := -n;
    var digits := NatToString(m);
    NatToStringRoundTrip(m);
    SignedRoundTrip(digits);
    var text := IntToString(n);
    assert text == "-" + digits;
    assert DigitsValue(digits) == m;
  }

  lemma NonNegativeRoundTrip(n: int)
    requires n >= 0
    ensures ParseInt(IntToString(n)) == Some(n)
  {
    var digits := NatToString(n);
    NatToStringRoundTrip(n);
    UnsignedRoundTrip(digits);
    assert IntToString(n) == digits;
  }
}
