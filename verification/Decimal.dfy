/** 64-bit decimal text: Long.toString and Long.parseLong over the ASCII digits. */
module Decimal {
  import opened Wrappers

  const LONG_MIN: int := -0x8000_0000_0000_0000
  const LONG_MAX: int := 0x7fff_ffff_ffff_ffff

  predicate IsLong(v: int) { LONG_MIN <= v <= LONG_MAX }

  predicate IsDigit(c: char) { '0' <= c <= '9' }

  function DigitChar(d: nat): (c: char)
    requires d < 10
    ensures IsDigit(c) && DigitValue(c) == d
  {
    '0' + d as char
  }

  function DigitValue(c: char): nat
    requires IsDigit(c)
  {
    c as int - '0' as int
  }

  function PrintNat(n: nat): (s: string)
    ensures s != [] && forall i | 0 <= i < |s| :: IsDigit(s[i])
  {
    if n < 10 then [DigitChar(n)] else PrintNat(n / 10) + [DigitChar(n % 10)]
  }

  function Print(v: int): string {
    if v < 0 then "-" + PrintNat(-v) else PrintNat(v)
  }

  /** The value of a run of digits; None when empty or some character is no digit. */
  function ParseDigits(s: string): Option<nat> {
    if s == [] then None
    else if !IsDigit(s[|s| - 1]) then None
    else if |s| == 1 then Some(DigitValue(s[0]))
    else
      match ParseDigits(s[..|s| - 1])
      case None => None
      case Some(high) => Some(high * 10 + DigitValue(s[|s| - 1]))
  }

  /** An optional sign, then digits, within the 64-bit range. */
  function ParseLong(s: string): Option<int> {
    var negative := s != [] && s[0] == '-';
    var digits := if s != [] && (s[0] == '-' || s[0] == '+') then s[1..] else s;
    match ParseDigits(digits)
    case None => None
    case Some(n) =>
      var v: int := if negative then -(n as int) else n;
      if IsLong(v) then Some(v) else None
  }

  lemma {:induction false} DigitsRoundTrip(n: nat)
    ensures ParseDigits(PrintNat(n)) == Some(n)
  {
    if n >= 10 {
      DigitsRoundTrip(n / 10);
      var s := PrintNat(n);
      assert s[..|s| - 1] == PrintNat(n / 10);
    }
  }

  /** Every 64-bit value, the smallest included, survives printing and parsing. */
  lemma {:induction false} ParsePrint(v: int)
    requires IsLong(v)
    ensures ParseLong(Print(v)) == Some(v)
  {
    var digits := PrintNat(if v < 0 then -v else v);
    DigitsRoundTrip(if v < 0 then -v else v);
    hide PrintNat, ParseDigits;
    assert IsDigit(digits[0]);
    if v < 0 {
      assert Print(v)[1..] == digits;
    }
  }

  // ----- what is a number -----------------------------------------------------------------

  function Zeros(n: nat): string { seq(n, _ => '0') }

  lemma {:induction false} ParseZeros(z: nat, n: nat)
    ensures ParseDigits(Zeros(z) + PrintNat(n)) == Some(n)
  {
    var s := Zeros(z) + PrintNat(n);
    if n >= 10 {
      ParseZeros(z, n / 10);
      assert s[..|s| - 1] == Zeros(z) + PrintNat(n / 10);
    } else {
      assert PrintNat(n) == [DigitChar(n)];
      if z > 0 {
        ParseZeros(z - 1, 0);
        assert s[..|s| - 1] == Zeros(z - 1) + PrintNat(0);
      }
    }
  }

  lemma {:induction false} DigitsAreZerosAndPrint(s: string) returns (z: nat)
    requires ParseDigits(s).Some?
    ensures s == Zeros(z) + PrintNat(ParseDigits(s).value)
  {
    var last := DigitValue(s[|s| - 1]);
    assert s == s[..|s| - 1] + [DigitChar(last)];
    if |s| == 1 {
      z := 0;
    } else {
      var high := ParseDigits(s[..|s| - 1]).value;
      z := DigitsAreZerosAndPrint(s[..|s| - 1]);
      if high > 0 {
        assert PrintNat(high * 10 + last) == PrintNat(high) + [DigitChar(last)];
      } else {
        assert s[..|s| - 1] == Zeros(z + 1);
        z := z + 1;
      }
    }
  }

  function Unsigned(z: nat, n: nat): string { Zeros(z) + PrintNat(n) }

  /** A sign where it fits, any number of zeros, and the plain decimal digits. */
  ghost predicate IsNumeral(s: string, v: int, z: nat) {
    var t := Unsigned(z, if v < 0 then -v else v);
    (v >= 0 && (s == t || s == "+" + t)) || (v <= 0 && s == "-" + t)
  }

  lemma UnsignedText(z: nat, n: nat)
    ensures Unsigned(z, n) != "" && IsDigit(Unsigned(z, n)[0]) && ParseDigits(Unsigned(z, n)) == Some(n)
  {
    ParseZeros(z, n);
    hide ParseDigits;
    var t := Unsigned(z, n);
    assert z > 0 ==> t[0] == '0';
    assert z == 0 ==> t == PrintNat(n);
  }

  /** A signed text is read as its sign and the rest. */
  lemma SignedText(t: string, n: nat)
    requires t != "" && IsDigit(t[0]) && ParseDigits(t) == Some(n)
    ensures ParseLong(t) == ParseLong("+" + t) == if IsLong(n) then Some(n) else None
    ensures ParseLong("-" + t) == if IsLong(-(n as int)) then Some(-(n as int)) else None
  {
    hide ParseDigits;
    assert ("+" + t)[1..] == t && ("-" + t)[1..] == t;
  }

  /** The parser accepts exactly the numerals of the 64-bit values. */
  lemma {:induction false} ParseLongIff(s: string, v: int)
    ensures ParseLong(s) == Some(v) <==> IsLong(v) && exists z :: IsNumeral(s, v, z)
  {
    if z :| IsNumeral(s, v, z) {
      UnsignedText(z, if v < 0 then -v else v);
      SignedText(Unsigned(z, if v < 0 then -v else v), if v < 0 then -v else v);
      hide ParseLong, Unsigned, ParseDigits;
    }
    if ParseLong(s) == Some(v) {
      NumeralOf(s, v);
    }
  }

  lemma NumeralOf(s: string, v: int)
    requires ParseLong(s) == Some(v)
    ensures exists z :: IsNumeral(s, v, z)
  {
    var digits := if s != [] && (s[0] == '-' || s[0] == '+') then s[1..] else s;
    var z := DigitsAreZerosAndPrint(digits);
    hide PrintNat, ParseDigits;
    assert s != digits ==> s == [s[0]] + digits;
    assert digits == Unsigned(z, if v < 0 then -v else v);
    assert IsNumeral(s, v, z);
  }
}
