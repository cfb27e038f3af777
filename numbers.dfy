/**
 * Decimal rendering of whole numbers (string interpolation of an int) and Int32.TryParse
 * with NumberStyles.Integer: optional white space, an optional sign, decimal digits, and
 * a result that must fit in 32 bits.
 */
module Numbers {
  import opened Wrappers
  import opened Strings

  const INT32_MIN: int := -0x8000_0000
  const INT32_MAX: int := 0x7FFF_FFFF

  predicate IsDigit(c: char) {
    '0' <= c <= '9'
  }

  predicate AllDigits(s: string) {
    forall i :: 0 <= i < |s| ==> IsDigit(s[i])
  }

  function DigitChar(d: nat): (c: char)
    requires d < 10
    ensures IsDigit(c) && c as int - '0' as int == d
  {
    ('0' as int + d) as char
  }

  /** The decimal form of `n`, without sign or leading zeros. */
  function NatToString(n: nat): (s: string)
    ensures s != [] && AllDigits(s)
    ensures s[0] == '0' ==> n == 0
  {
    if n < 10 then [DigitChar(n)] else NatToString(n / 10) + [DigitChar(n % 10)]
  }

  /** The number a string of decimal digits denotes. */
  function DigitsValue(s: string): nat
    requires AllDigits(s)
  {
    if s == [] then 0 else DigitsValue(s[..|s| - 1]) * 10 + (s[|s| - 1] as int - '0' as int)
  }

  /** Reading back the decimal form of `n` gives `n`. */
  lemma {:induction false} DigitsValueOfNatToString(n: nat)
    ensures DigitsValue(NatToString(n)) == n
  {
    var s := NatToString(n);
    if n >= 10 {
      DigitsValueOfNatToString(n / 10);
      assert s[..|s| - 1] == NatToString(n / 10);
    }
  }

  /** Int32.TryParse of a possibly-null string: the parsed value, or None when parsing fails. */
  function TryParseInt32(s: Option<string>): (r: Option<int>)
    ensures r.Some? ==> INT32_MIN <= r.value <= INT32_MAX
  {
    match s
    case None => None
    case Some(raw) => ParseSignedDigits(TrimWith(raw, NUMBER_WHITE_SPACE))
  }

  /** An optional sign followed by at least one digit, within the 32-bit range. */
  function ParseSignedDigits(t: string): (r: Option<int>)
    ensures r.Some? ==> INT32_MIN <= r.value <= INT32_MAX
  {
    var signed := t != [] && (t[0] == '-' || t[0] == '+');
    var digits := if signed then t[1..] else t;
    if digits == [] || !AllDigits(digits) then None
    else
      var v: int := if signed && t[0] == '-' then 0 - DigitsValue(digits) as int else DigitsValue(digits);
      if INT32_MIN <= v <= INT32_MAX then Some(v) else None
  }

  lemma ParseSignedDigitsOfNatToString(n: nat)
    ensures ParseSignedDigits(NatToString(n)) == if n <= INT32_MAX then Some(n) else None
  {
    var s := NatToString(n);
    assert IsDigit(s[0]);
    DigitsValueOfNatToString(n);
  }

  lemma NatToStringIsTrimmed(n: nat)
    ensures TrimWith(NatToString(n), NUMBER_WHITE_SPACE) == NatToString(n)
  {
    var s := NatToString(n);
    assert IsDigit(s[0]) && IsDigit(s[|s| - 1]);
    TrimWithNoop(s, NUMBER_WHITE_SPACE);
  }

  /** Every 32-bit non-negative number survives rendering and parsing. */
  lemma TryParseInt32OfNatToString(n: nat)
    requires n <= INT32_MAX
    ensures TryParseInt32(Some(NatToString(n))) == Some(n)
  {
    NatToStringIsTrimmed(n);
    ParseSignedDigitsOfNatToString(n);
  }

  /** Negative numbers down to INT32_MIN survive rendering with a leading '-' and parsing. */
  lemma TryParseInt32OfNegative(n: nat)
    requires 0 < n <= -INT32_MIN
    ensures TryParseInt32(Some("-" + NatToString(n))) == Some(-(n as int))
  {
    var d := NatToString(n);
    var s := "-" + d;
    assert IsDigit(d[|d| - 1]) && s[|s| - 1] == d[|d| - 1];
    TrimWithNoop(s, NUMBER_WHITE_SPACE);
    assert s[1..] == d;
    DigitsValueOfNatToString(n);
  }

  /** A number past INT32_MAX is rejected rather than wrapped around. */
  lemma TryParseInt32Overflow(n: nat)
    requires n > INT32_MAX
    ensures TryParseInt32(Some(NatToString(n))) == None
  {
    NatToStringIsTrimmed(n);
    ParseSignedDigitsOfNatToString(n);
  }

  /** A null string, and a string holding no digit at all, do not parse. */
  lemma TryParseInt32RejectsNoDigits(s: string)
    requires forall i :: 0 <= i < |s| ==> !IsDigit(s[i])
    ensures TryParseInt32(None) == None
    ensures TryParseInt32(Some(s)) == None
  {
    var t := TrimWith(s, NUMBER_WHITE_SPACE);
    TrimWithIsMiddle(s, NUMBER_WHITE_SPACE);
    if t != [] {
      assert !IsDigit(t[0]);
    }
  }
}
