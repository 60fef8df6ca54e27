/** Decimal numerals as the C library reads and prints them. */
module Numerals {
  import opened Basics

  predicate IsSpace(c: char) {
    c == ' ' || '\t' <= c <= '\r'
  }

  predicate IsDigit(c: char) {
    '0' <= c <= '9'
  }

  function SkipSpace(s: string): string {
    if s != "" && IsSpace(s[0]) then SkipSpace(s[1..]) else s
  }

  predicate AllDigits(s: string) {
    forall k :: 0 <= k < |s| ==> IsDigit(s[k])
  }

  function DigitsValue(s: string): nat
    requires AllDigits(s)
  {
    if s == "" then 0
    else
      assert IsDigit(s[|s| - 1]);
      DigitsValue(s[..|s| - 1]) * 10 + (s[|s| - 1] as int - '0' as int)
  }

  /** The longest prefix of digits. */
  function DigitPrefix(s: string): (r: string)
    ensures AllDigits(r) && r <= s
    ensures AllDigits(s) ==> r == s
  {
    if s == "" || !IsDigit(s[0]) then "" else [s[0]] + DigitPrefix(s[1..])
  }

  // ----- `strtoll` in base 10, over the whole text -----

  const INT64_MIN: int := -0x8000_0000_0000_0000
  const INT64_MAX: int := 0x7FFF_FFFF_FFFF_FFFF

  function Clamp(v: int): (r: int)
    ensures INT64_MIN <= r <= INT64_MAX
  {
    if v < INT64_MIN then INT64_MIN else if v > INT64_MAX then INT64_MAX else v
  }

  /** Leading white space and a sign are accepted, overflow saturates, trailing text is refused. */
  function ParseInteger(s: string): Option<int> {
    var t := SkipSpace(s);
    var negative := t != "" && t[0] == '-';
    var digits := if t != "" && (t[0] == '-' || t[0] == '+') then t[1..] else t;
    if digits == "" || !AllDigits(digits) then None
    else
      var magnitude: int := DigitsValue(digits);
      Some(Clamp(if negative then -magnitude else magnitude))
  }

  // ----- `sscanf` with `%u` -----

  const TWO_32: nat := 0x1_0000_0000

  function Wrap(v: int): (r: nat)
    ensures r < TWO_32 && (0 <= v < TWO_32 ==> r == v)
  {
    v % TWO_32
  }

  /** Leading white space and a sign are accepted, text after the digits is ignored, and the value
      wraps at 32 bits. */
  function ScanUnsigned(s: string): (r: Option<nat>)
    ensures r.Some? ==> r.value < TWO_32
  {
    var t := SkipSpace(s);
    if t != "" && t[0] == '-' then ScanDigits(DigitPrefix(t[1..]), true)
    else if t != "" && t[0] == '+' then ScanDigits(DigitPrefix(t[1..]), false)
    else ScanDigits(DigitPrefix(t), false)
  }

  function ScanDigits(digits: string, negative: bool): (r: Option<nat>)
    requires AllDigits(digits)
    ensures r.Some? ==> r.value < TWO_32
  {
    if digits == "" then None
    else
      var magnitude: int := DigitsValue(digits);
      Some(Wrap(if negative then -magnitude else magnitude))
  }

  // ----- `%u` -----

  function DigitChar(d: nat): (c: char)
    requires d < 10
    ensures IsDigit(c) && c as int - '0' as int == d
  {
    ('0' as int + d) as char
  }

  function Decimal(n: nat): (s: string)
    ensures s != "" && AllDigits(s)
  {
    if n < 10 then [DigitChar(n)] else Decimal(n / 10) + [DigitChar(n % 10)]
  }

  lemma {:induction false} DecimalValue(n: nat)
    ensures DigitsValue(Decimal(n)) == n
  {
    var s := Decimal(n);
    if n < 10 {
      assert s[..0] == "";
    } else {
      DecimalValue(n / 10);
      assert s[..|s| - 1] == Decimal(n / 10);
    }
  }

  lemma DigitsScan(s: string, n: nat)
    requires s != "" && AllDigits(s) && DigitsValue(s) == n < TWO_32
    ensures ScanUnsigned(s) == Some(n)
  {
    assert IsDigit(s[0]);
    assert SkipSpace(s) == s && DigitPrefix(s) == s;
  }

  /** What is printed is read back, for 32-bit numbers. */
  lemma DecimalScans(n: nat)
    requires n < TWO_32
    ensures ScanUnsigned(Decimal(n)) == Some(n)
  {
    var s := Decimal(n);
    assert DigitsValue(s) == n by {
      DecimalValue(n);
    }
    DigitsScan(s, n);
  }
}
