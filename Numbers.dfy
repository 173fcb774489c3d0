/** Decimal numbers as Kotlin reads and writes them: String.toIntOrNull,
    String.toLongOrNull and String.toInt (radix 10, an optional '+' or '-',
    at least one digit, no overflow), and Int.toString. */
module Numbers {
  import opened Wrappers

  const INT_MIN: int := -0x8000_0000
  const INT_MAX: int := 0x7FFF_FFFF
  const LONG_MIN: int := -0x8000_0000_0000_0000
  const LONG_MAX: int := 0x7FFF_FFFF_FFFF_FFFF

  predicate IsDigit(c: char) { '0' <= c <= '9' }

  predicate AllDigits(s: string) {
    forall i :: 0 <= i < |s| ==> IsDigit(s[i])
  }

  function DigitValue(c: char): (d: nat)
    requires IsDigit(c)
    ensures d < 10
  {
    (c as int) - ('0' as int)
  }

  function DigitChar(d: nat): (c: char)
    requires d < 10
    ensures IsDigit(c) && DigitValue(c) == d
  {
    ('0' as int + d) as char
  }

  /** The value of a run of decimal digits, most significant first. */
  function DigitsValue(s: string): nat
    requires AllDigits(s)
  {
    if |s| == 0 then 0 else 10 * DigitsValue(s[..|s| - 1]) + DigitValue(s[|s| - 1])
  }

  /** A decimal literal: one or more digits, optionally after one '+' or '-'. */
  predicate IsNumeral(s: string) {
    (|s| >= 1 && AllDigits(s)) || (|s| >= 2 && (s[0] == '+' || s[0] == '-') && AllDigits(s[1..]))
  }

  /** The unbounded value of a decimal literal, or None when `s` is not one. */
  function ParseDecimal(s: string): (r: Option<int>)
    ensures r.Some? <==> IsNumeral(s)
    ensures |s| >= 1 && AllDigits(s) ==> r == Some(DigitsValue(s) as int)
    ensures |s| >= 2 && s[0] == '+' && AllDigits(s[1..]) ==> r == Some(DigitsValue(s[1..]) as int)
    ensures |s| >= 2 && s[0] == '-' && AllDigits(s[1..]) ==> r == Some(-(DigitsValue(s[1..]) as int))
  {
    if |s| == 0 then None
    else if (s[0] == '-' || s[0] == '+') && |s| >= 2 && AllDigits(s[1..]) then
      var v: int := DigitsValue(s[1..]);
      Some(if s[0] == '-' then -v else v)
    else if AllDigits(s) then Some(DigitsValue(s))
    else None
  }

  /** String.toIntOrNull(): a 32-bit value only. */
  function ToIntOrNull(s: string): (r: Option<int>)
    ensures r.Some? <==> ParseDecimal(s).Some? && INT_MIN <= ParseDecimal(s).value <= INT_MAX
    ensures r.Some? ==> r == ParseDecimal(s)
  {
    match ParseDecimal(s)
    case Some(v) => if INT_MIN <= v <= INT_MAX then Some(v) else None
    case None => None
  }

  /** String.toLongOrNull(): a 64-bit value only. */
  function ToLongOrNull(s: string): (r: Option<int>)
    ensures r.Some? <==> ParseDecimal(s).Some? && LONG_MIN <= ParseDecimal(s).value <= LONG_MAX
    ensures r.Some? ==> r == ParseDecimal(s)
  {
    match ParseDecimal(s)
    case Some(v) => if LONG_MIN <= v <= LONG_MAX then Some(v) else None
    case None => None
  }

  /** String.toInt(): like toIntOrNull, but throws NumberFormatException. */
  function ToInt(s: string): (r: Result<int>)
    ensures r.Ok? <==> ToIntOrNull(s).Some?
    ensures r.Ok? ==> r.value == ToIntOrNull(s).value
    ensures r.Err? ==> r.error == NumberFormat(s)
  {
    match ToIntOrNull(s)
    case Some(v) => Ok(v)
    case None => Err(NumberFormat(s))
  }

  /** The decimal digits of a natural number, without leading zeros. */
  function NatToString(n: nat): (s: string)
    ensures |s| >= 1 && AllDigits(s)
    decreases n
  {
    if n < 10 then [DigitChar(n)] else NatToString(n / 10) + [DigitChar(n % 10)]
  }

  /** Int.toString() / string templates: a '-' before negative numbers. */
  function IntToString(n: int): string {
    if n < 0 then "-" + NatToString(-n) else NatToString(n)
  }

  lemma {:induction false} DigitsOfNat(n: nat)
    ensures DigitsValue(NatToString(n)) == n
    decreases n
  {
    var s := NatToString(n);
    if n >= 10 {
      DigitsOfNat(n / 10);
      assert s[..|s| - 1] == NatToString(n / 10);
    }
  }

  /** Reading back a formatted number gives the number: toInt(n.toString()) == n. */
  lemma IntToStringRoundTrip(n: int)
    ensures ParseDecimal(IntToString(n)) == Some(n)
    ensures INT_MIN <= n <= INT_MAX ==> ToInt(IntToString(n)) == Ok(n)
  {
    var s := IntToString(n);
    if n < 0 {
      assert s == "-" + NatToString(-n);
      NegativeRoundTrip(-n);
    } else {
      assert s == NatToString(n);
      NatRoundTrip(n);
    }
  }

  lemma NatRoundTrip(n: nat)
    ensures ParseDecimal(NatToString(n)) == Some(n as int)
  {
    DigitsOfNat(n);
  }

  lemma NegativeRoundTrip(n: nat)
    ensures ParseDecimal("-" + NatToString(n)) == Some(-(n as int))
  {
    var d := NatToString(n);
    DigitsOfNat(n);
    var s := "-" + d;
    assert s[0] == '-' && s[1..] == d;
  }
}
