/** Decimal numerals as Go's `%d` verb prints integers, and their inverse. */
module Decimal {
  import opened Wrappers

  predicate IsDigit(c: char) {
    '0' <= c <= '9'
  }

  predicate AllDigits(s: string) {
    forall i :: 0 <= i < |s| ==> IsDigit(s[i])
  }

  /** A numeral `%d` may print for a non-negative number: one or more digits,
      and no leading zero unless the numeral is "0" itself. */
  predicate Canonical(s: string) {
    |s| >= 1 && AllDigits(s) && (s[0] == '0' ==> |s| == 1)
  }

  function DigitChar(d: nat): (c: char)
    requires d < 10
    ensures IsDigit(c)
  {
    (48 + d) as char
  }

  function DigitValue(c: char): (d: nat)
    requires IsDigit(c)
    ensures d < 10
  {
    c as int - 48
  }

  /** The value a string of digits denotes, most significant digit first. */
  function DecimalValue(s: string): nat
    requires AllDigits(s)
  {
    if |s| == 0 then 0 else DecimalValue(s[..|s| - 1]) * 10 + DigitValue(s[|s| - 1])
  }

  /** `%d` of a non-negative number: the numeral is canonical and starts with
      '0' exactly when the number is zero. */
  function NatToDecimal(n: nat): (s: string)
    ensures Canonical(s)
    ensures s[0] == '0' <==> n == 0
  {
    if n < 10 then [DigitChar(n)] else NatToDecimal(n / 10) + [DigitChar(n % 10)]
  }

  /** `%d` of a signed number: a minus sign exactly for negative numbers,
      followed by the numeral of the magnitude. */
  function IntToDecimal(i: int): (s: string)
    ensures |s| >= 1 && (s[0] == '-' <==> i < 0)
    ensures ' ' !in s && '\n' !in s
  {
    if i < 0 then "-" + NatToDecimal(-i) else NatToDecimal(i)
  }

  /** Reads back a numeral printed by NatToDecimal; anything else is rejected. */
  function ParseNat(s: string): Option<nat> {
    if Canonical(s) then Some(DecimalValue(s)) else None
  }

  /** Reads back a numeral printed by IntToDecimal; "-0" and leading zeros are rejected. */
  function ParseInt(s: string): Option<int> {
    if |s| >= 2 && s[0] == '-' then
      if Canonical(s[1..]) && s[1] != '0' then Some(-(DecimalValue(s[1..]) as int)) else None
    else if Canonical(s) then Some(DecimalValue(s) as int)
    else None
  }

  lemma {:induction false} NatToDecimalInverse(n: nat)
    ensures DecimalValue(NatToDecimal(n)) == n
  {
    if n >= 10 {
      var s := NatToDecimal(n / 10);
      NatToDecimalInverse(n / 10);
      assert (s + [DigitChar(n % 10)])[..|s|] == s;
    }
  }

  lemma {:induction false} CanonicalInverse(s: string)
    requires Canonical(s)
    ensures NatToDecimal(DecimalValue(s)) == s
  {
    if |s| > 1 {
      var init := s[..|s| - 1];
      assert init[0] == s[0];
      CanonicalInverse(init);
      var v := DecimalValue(s);
      var d := DigitValue(s[|s| - 1]);
      assert v / 10 == DecimalValue(init) && v % 10 == d;
      assert DecimalValue(init) != 0;
      assert DigitChar(d) == s[|s| - 1];
      assert s == init + [s[|s| - 1]];
    } else {
      assert DigitChar(DigitValue(s[0])) == s[0];
    }
  }

  /** Printing then parsing a number gives the number back. */
  lemma NatRoundTrip(n: nat)
    ensures ParseNat(NatToDecimal(n)) == Some(n)
  {
    NatToDecimalInverse(n);
  }

  /** Parsing succeeds only on a numeral that printing the parsed number reproduces. */
  lemma NatParseSound(s: string, n: nat)
    requires ParseNat(s) == Some(n)
    ensures NatToDecimal(n) == s
  {
    CanonicalInverse(s);
  }

  lemma IntRoundTrip(i: int)
    ensures ParseInt(IntToDecimal(i)) == Some(i)
  {
    if i < 0 {
      var s := IntToDecimal(i);
      assert s[1..] == NatToDecimal(-i);
      NatToDecimalInverse(-i);
    } else {
      NatToDecimalInverse(i);
    }
  }

  lemma IntParseSound(s: string, i: int)
    requires ParseInt(s) == Some(i)
    ensures IntToDecimal(i) == s
  {
    if |s| >= 2 && s[0] == '-' {
      CanonicalInverse(s[1..]);
      assert s == "-" + s[1..];
    } else {
      CanonicalInverse(s);
    }
  }
}
