/**
 * Decimal text for 32-bit integers, as .NET writes and reads it with the
 * invariant culture: `int.ToString()` and `int.TryParse(string, out int)`
 * (number style `Integer`: optional surrounding white space, an optional
 * sign, ASCII digits, and a value inside the `Int32` range).
 */
module Decimal {
  import opened Base

  const Int32Min: int := -0x8000_0000
  const Int32Max: int := 0x7FFF_FFFF

  predicate IsInt32(n: int) {
    Int32Min <= n <= Int32Max
  }

  predicate IsDigit(c: char) {
    '0' <= c <= '9'
  }

  predicate AllDigits(s: string) {
    forall i :: 0 <= i < |s| ==> IsDigit(s[i])
  }

  function DigitChar(d: nat): (c: char)
    requires d < 10
    ensures IsDigit(c) && c as int - '0' as int == d
  {
    (d + '0' as int) as char
  }

  /** The digits of a natural number, most significant first, without leading zeros. */
  function NatToDigits(n: nat): (s: string)
    ensures s != [] && AllDigits(s)
  {
    if n < 10 then [DigitChar(n)] else NatToDigits(n / 10) + [DigitChar(n % 10)]
  }

  /** `int.ToString()`: a minus sign for negative numbers, then the digits. */
  function ToDecimal(n: int): (s: string)
    ensures s != [] && IsDigit(s[|s| - 1])
    ensures s[0] == '-' || IsDigit(s[0])
  {
    if n < 0 then "-" + NatToDigits(-n) else NatToDigits(n)
  }

  /** The value of a string of decimal digits. */
  function DigitsValue(s: string): nat
    requires AllDigits(s)
  {
    if s == [] then 0 else DigitsValue(s[..|s| - 1]) * 10 + (s[|s| - 1] as int - '0' as int)
  }

  /** The white space that number parsing skips around a number: U+0009..U+000D and U+0020. */
  predicate IsParseWhite(c: char) {
    '\U{9}' <= c <= '\U{D}' || c == ' '
  }

  /** `s` without the white space that number parsing skips at either end. */
  function StripParseWhite(s: string): (r: string)
    ensures |r| <= |s|
  {
    if s != [] && IsParseWhite(s[0]) then StripParseWhite(s[1..])
    else if s != [] && IsParseWhite(s[|s| - 1]) then StripParseWhite(s[..|s| - 1])
    else s
  }

  /** `int.TryParse`: `Some(value)` for well-formed text whose value fits in 32 bits,
      `None` (the `false` return) otherwise. */
  function TryParseInt32(s: string): (r: Option<int>)
    ensures r.Some? ==> IsInt32(r.value)
  {
    var t := StripParseWhite(s);
    var signed := t != [] && (t[0] == '-' || t[0] == '+');
    var digits := if signed then t[1..] else t;
    if digits == [] || !AllDigits(digits) then None
    else
      var v: int := if signed && t[0] == '-' then -(DigitsValue(digits) as int) else DigitsValue(digits);
      if IsInt32(v) then Some(v) else None
  }

  /** Reading back the digits of `n` gives `n`. */
  lemma {:induction false} DigitsRoundTrip(n: nat)
    ensures DigitsValue(NatToDigits(n)) == n
  {
    if n >= 10 {
      var s := NatToDigits(n);
      assert s[..|s| - 1] == NatToDigits(n / 10);
      DigitsRoundTrip(n / 10);
    }
  }

  /** Text without parse white space at its ends is left alone by the parser's stripping. */
  lemma StripNothing(s: string)
    requires s != [] ==> !IsParseWhite(s[0]) && !IsParseWhite(s[|s| - 1])
    ensures StripParseWhite(s) == s
  {
  }

  /** `int.TryParse(n.ToString())` recovers every 32-bit `n`. */
  lemma ParseOfToDecimal(n: int)
    requires IsInt32(n)
    ensures TryParseInt32(ToDecimal(n)) == Some(n)
  {
    var s := ToDecimal(n);
    StripNothing(s);
    if n < 0 {
      assert s[1..] == NatToDigits(-n);
      DigitsRoundTrip(-n);
    } else {
      DigitsRoundTrip(n);
    }
  }
}
