/**
 * Unsigned numerals in base 10 and 16: the digits written for the bytes of
 * a dotted quad and for the groups of an IPv6 address, and the reading of
 * such digits back into numbers.
 */
module Numerals {

  import opened Optional

  /** The digits written, lowest value first; hexadecimal digits are lowercase. */
  const Digits: string := "0123456789abcdef"

  /** The value of a digit character: decimal digits and hexadecimal letters in either case. */
  function DigitValue(c: char): (d: Option<nat>)
    ensures d.Some? ==> d.value < 16
    ensures d.Some? <==> ('0' <= c <= '9' || 'a' <= c <= 'f' || 'A' <= c <= 'F')
  {
    if '0' <= c <= '9' then Some(c as int - '0' as int)
    else if 'a' <= c <= 'f' then Some(c as int - 'a' as int + 10)
    else if 'A' <= c <= 'F' then Some(c as int - 'A' as int + 10)
    else None
  }

  /** The character written for digit value `d`. */
  function DigitChar(d: nat): (c: char)
    requires d < 16
    ensures DigitValue(c) == Some(d)
    ensures c in Digits
  {
    Digits[d]
  }

  /** `n` written in `base`, most significant digit first, without leading zeros. */
  function Numeral(n: nat, base: nat): (s: string)
    requires 2 <= base <= 16
    ensures |s| >= 1
    ensures forall i :: 0 <= i < |s| ==> s[i] in Digits
    ensures s[0] == '0' ==> s == "0"
    decreases n
  {
    if n < base then [DigitChar(n)]
    else
      DivMod(n, base);
      Numeral(n / base, base) + [DigitChar(n % base)]
  }

  /** The number that the digits of `s` denote in `base`; none if `s` is empty or holds a non-digit. */
  function ParseNumeral(s: string, base: nat): (n: Option<nat>)
    requires 2 <= base <= 16
  {
    if |s| == 0 then None
    else
      match DigitValue(s[|s| - 1])
      case None => None
      case Some(d) =>
        if d >= base then None
        else if |s| == 1 then Some(d)
        else
          match ParseNumeral(s[..|s| - 1], base)
          case None => None
          case Some(high) => Some(Shift(high, base, d))
  }

  /** The value of digits worth `high` followed by one more digit `d`. */
  function Shift(high: nat, base: nat, d: nat): nat {
    high * base + d
  }

  /** Reading a numeral gives back the number written. */
  lemma {:induction false} NumeralRoundTrip(n: nat, base: nat)
    requires 2 <= base <= 16
    ensures ParseNumeral(Numeral(n, base), base) == Some(n)
    decreases n
  {
    if n >= base {
      DivMod(n, base);
      var q, r := n / base, n % base;
      assert Numeral(n, base) == Numeral(q, base) + [DigitChar(r)];
      NumeralRoundTrip(q, base);
      ReadAppendedDigit(Numeral(q, base), base, q, r);
      assert Shift(q, base, r) == n;
    }
  }

  /** A digit written after a numeral of `q` gives a numeral of `q * base + d`. */
  lemma ReadAppendedDigit(s: string, base: nat, q: nat, d: nat)
    requires 2 <= base <= 16 && d < base && |s| >= 1
    requires ParseNumeral(s, base) == Some(q)
    ensures ParseNumeral(s + [DigitChar(d)], base) == Some(Shift(q, base, d))
  {
    var t := s + [DigitChar(d)];
    assert t[..|t| - 1] == s;
  }

  /** A decimal digit is the character written for its value. */
  lemma DecimalDigitWritten(c: char, d: nat)
    requires DigitValue(c) == Some(d) && d < 10
    ensures DigitChar(d) == c
  {
  }

  /** Decimal digits that do not start with '0' denote a positive number. */
  lemma {:induction false} LeadingDigitPositive(s: string, n: nat)
    requires |s| >= 1 && s[0] != '0'
    requires ParseNumeral(s, 10) == Some(n)
    ensures n >= 1
    decreases |s|
  {
    if |s| > 1 {
      var p := s[..|s| - 1];
      var q :| ParseNumeral(p, 10) == Some(q);
      LeadingDigitPositive(p, q);
    }
  }

  /**
   * Decimal digits without a superfluous leading zero are exactly the
   * numeral written for the number they denote: such text is canonical.
   */
  lemma {:induction false} ParsedDecimalIsNumeral(s: string, n: nat)
    requires |s| >= 1 && (s[0] == '0' ==> s == "0")
    requires ParseNumeral(s, 10) == Some(n)
    ensures Numeral(n, 10) == s
    decreases |s|
  {
    var c := s[|s| - 1];
    var d := DigitValue(c).value;
    DecimalDigitWritten(c, d);
    if |s| > 1 {
      var p := s[..|s| - 1];
      var q := ParseNumeral(p, 10).value;
      assert n == Shift(q, 10, d);
      LeadingDigitPositive(p, q);
      ParsedDecimalIsNumeral(p, q);
      DecimalAppend(q, d);
      assert s == p + [c];
    }
  }

  /** The decimal numeral of a positive number followed by one more digit. */
  lemma DecimalAppend(q: nat, d: nat)
    requires q >= 1 && d < 10
    ensures Numeral(Shift(q, 10, d), 10) == Numeral(q, 10) + [DigitChar(d)]
  {
    ShiftDivModTen(q, d);
  }

  /** Division by the base takes the appended digit back off. */
  lemma ShiftDivModTen(high: nat, d: nat)
    requires d < 10
    ensures Shift(high, 10, d) / 10 == high
    ensures Shift(high, 10, d) % 10 == d
  {
  }

  /** Euclidean division by the base: quotient and remainder recompose `n`, and the quotient is smaller. */
  lemma DivMod(n: nat, base: nat)
    requires 2 <= base
    ensures n % base < base
    ensures (n / base) * base + n % base == n
    ensures n >= base ==> 1 <= n / base < n
  {
  }

  /** A character that is not a digit never occurs in a numeral, so it can separate numerals. */
  lemma NotInNumeral(n: nat, base: nat, c: char)
    requires 2 <= base <= 16
    requires c !in Digits
    ensures c !in Numeral(n, base)
  {
  }

  /** `Decimal(n)`: `n` in base 10. */
  function Decimal(n: nat): (s: string)
    ensures ParseNumeral(s, 10) == Some(n)
  {
    NumeralRoundTrip(n, 10);
    Numeral(n, 10)
  }

  /** `Hex(n)`: `n` in base 16, lowercase. */
  function Hex(n: nat): (s: string)
    ensures ParseNumeral(s, 16) == Some(n)
  {
    NumeralRoundTrip(n, 16);
    Numeral(n, 16)
  }

  /** A 16-bit value takes between one and four hexadecimal digits. */
  lemma HexLength(n: nat)
    requires n < 0x1_0000
    ensures 1 <= |Hex(n)| <= 4
  {
    var n1 := n / 16;
    var n2 := n1 / 16;
    var n3 := n2 / 16;
    assert n3 < 16;
    assert |Numeral(n3, 16)| == 1;
    assert |Numeral(n2, 16)| <= 2;
    assert |Numeral(n1, 16)| <= 3;
  }

  /** A byte value takes between one and three decimal digits. */
  lemma DecimalLength(n: nat)
    requires n < 0x100
    ensures 1 <= |Decimal(n)| <= 3
  {
    var n1 := n / 10;
    var n2 := n1 / 10;
    assert n2 < 10;
    assert |Numeral(n2, 10)| == 1;
    assert |Numeral(n1, 10)| <= 2;
  }

}
