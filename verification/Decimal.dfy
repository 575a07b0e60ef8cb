/** Decimal numerals, as text and as bytes, and the integer parsers of the standard library. */
module Decimal {
  import opened Basics

  const U64_MAX: nat := 0xFFFF_FFFF_FFFF_FFFF
  const I64_MAX: nat := 0x7FFF_FFFF_FFFF_FFFF

  type Digit = nat

  function Digits(n: nat): (r: seq<Digit>)
    ensures r != [] && forall i | 0 <= i < |r| :: r[i] < 10
  {
    if n < 10 then [n] else Digits(n / 10) + [n % 10]
  }

  function Number(ds: seq<Digit>): nat {
    if ds == [] then 0 else Number(ds[..|ds| - 1]) * 10 + ds[|ds| - 1]
  }

  lemma {:induction false} NumberOfDigits(n: nat)
    ensures Number(Digits(n)) == n
  {
    if n < 10 {
      assert Digits(n)[..0] == [];
    } else {
      NumberOfDigits(n / 10);
      assert Digits(n)[..|Digits(n)| - 1] == Digits(n / 10);
    }
  }

  predicate IsDigit(c: char) { '0' <= c <= '9' }

  predicate AllDigits(s: string) { forall i | 0 <= i < |s| :: IsDigit(s[i]) }

  function Text(n: nat): (r: string)
    ensures r != "" && AllDigits(r)
  {
    var ds := Digits(n);
    seq(|ds|, i requires 0 <= i < |ds| => ('0' as int + ds[i]) as char)
  }

  function DigitsOf(s: string): (r: seq<Digit>)
    requires AllDigits(s)
  {
    seq(|s|, i requires 0 <= i < |s| => s[i] as int - '0' as int)
  }

  /** An unsigned numeral without a sign. */
  function ParseNat(s: string): Option<nat> {
    if s != "" && AllDigits(s) then Some(Number(DigitsOf(s))) else None
  }

  lemma ParseText(n: nat)
    ensures ParseNat(Text(n)) == Some(n)
  {
    assert DigitsOf(Text(n)) == Digits(n);
    NumberOfDigits(n);
  }

  /** `str::parse::<u64>`: an optional plus sign, digits, no overflow. */
  function ParseU64(s: string): Option<nat> {
    var n := ParseNat(if |s| > 1 && s[0] == '+' then s[1..] else s);
    if n.Some? && n.value <= U64_MAX then n else None
  }

  /** `str::parse::<i64>`. */
  function ParseI64(s: string): Option<int> {
    var negative := |s| > 1 && s[0] == '-';
    var n := ParseNat(if |s| > 1 && (s[0] == '+' || s[0] == '-') then s[1..] else s);
    if n.None? then None
    else
      var v: int := if negative then -(n.value as int) else n.value;
      if -(I64_MAX as int) - 1 <= v <= I64_MAX then Some(v) else None
  }

  lemma ParseU64Text(n: nat)
    ensures ParseU64(Text(n)) == if n <= U64_MAX then Some(n) else None
  {
    assert IsDigit(Text(n)[0]);
    ParseText(n);
  }

  /** A number in decimal, with a minus sign if it is negative. */
  function SignedText(v: int): string { if v < 0 then "-" + Text(-v) else Text(v) }

  /** A printed number parses back exactly when it fits in 64 bits with its sign. */
  lemma ParseI64Text(v: int)
    ensures ParseI64(SignedText(v))
         == if -0x8000_0000_0000_0000 <= v < 0x8000_0000_0000_0000 then Some(v) else None
  {
    var n: nat := if v < 0 then -v else v;
    assert IsDigit(Text(n)[0]);
    ParseText(n);
    SplitAt("-", Text(n));
  }

  // ----- Bytes -----

  predicate IsDigitByte(b: Byte) { DIGIT_ZERO <= b <= DIGIT_ZERO + 9 }

  function ByteText(n: nat): (r: Bytes)
    ensures r != [] && forall b | b in r :: IsDigitByte(b)
  {
    var ds := Digits(n);
    seq(|ds|, i requires 0 <= i < |ds| => DIGIT_ZERO + ds[i])
  }

  function ParseBytes(bs: Bytes): Option<nat> {
    if bs != [] && forall i | 0 <= i < |bs| :: IsDigitByte(bs[i]) then
      var ds: seq<Digit> := seq(|bs|, i requires 0 <= i < |bs| => bs[i] - DIGIT_ZERO);
      Some(Number(ds))
    else None
  }

  lemma ParseByteText(n: nat)
    ensures ParseBytes(ByteText(n)) == Some(n)
  {
    var bs := ByteText(n);
    var ds: seq<Digit> := seq(|bs|, i requires 0 <= i < |bs| => bs[i] - DIGIT_ZERO);
    assert ds == Digits(n);
    NumberOfDigits(n);
  }
}
