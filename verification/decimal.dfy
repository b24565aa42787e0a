/** Ruby's `Integer#to_s` in base 10, and the parser a receiver uses to read it back. */
module Decimal {
  import opened Basics

  predicate IsDigit(c: char)
  {
    '0' <= c <= '9'
  }

  function DigitChar(d: int): (c: char)
    requires 0 <= d < 10
    ensures IsDigit(c)
  {
    ('0' as int + d) as char
  }

  function DigitValue(c: char): (d: int)
    requires IsDigit(c)
    ensures 0 <= d < 10 && DigitChar(d) == c
  {
    c as int - '0' as int
  }

  /** The decimal digits of `n`, most significant first, without leading zeros. */
  function Digits(n: nat): (s: string)
    ensures 1 <= |s|
    ensures forall i :: 0 <= i < |s| ==> IsDigit(s[i])
    ensures |s| > 1 ==> s[0] != '0'
    decreases n
  {
    if n < 10 then [DigitChar(n)] else Digits(n / 10) + [DigitChar(n % 10)]
  }

  /** A non-empty run of digits with no leading zero (a lone "0" is allowed). */
  predicate IsCanonicalDigits(s: string)
  {
    && 1 <= |s|
    && (forall i :: 0 <= i < |s| ==> IsDigit(s[i]))
    && (|s| > 1 ==> s[0] != '0')
  }

  /** The form `Integer#to_s` writes: canonical digits, or '-' and canonical digits of a non-zero magnitude. */
  predicate IsCanonicalInteger(s: string)
  {
    || IsCanonicalDigits(s)
    || (|s| >= 2 && s[0] == '-' && s[1] != '0' && IsCanonicalDigits(s[1..]))
  }

  /** `n.to_s`: a minus sign for negative numbers, then the digits of the magnitude. */
  function IntegerToS(n: int): (s: string)
    ensures 1 <= |s|
    ensures forall i :: 0 <= i < |s| ==> IsDigit(s[i]) || (i == 0 && s[i] == '-')
    ensures s[0] == '-' <==> n < 0
    ensures n >= 0 && |s| > 1 ==> s[0] != '0'
    ensures n < 0 ==> |s| >= 2 && s[1] != '0'
    ensures IsCanonicalInteger(s)
  {
    if n < 0 then "-" + Digits(-n) else Digits(n)
  }

  /** Reads a non-empty string of decimal digits. */
  function ParseDigits(s: string): (r: Option<nat>)
    decreases |s|
  {
    if |s| == 0 || !IsDigit(s[|s| - 1]) then None
    else if |s| == 1 then Some(DigitValue(s[0]))
    else
      match ParseDigits(s[..|s| - 1])
      case None => None
      case Some(high) => Some(high * 10 + DigitValue(s[|s| - 1]))
  }

  /** Reads an optionally negative decimal integer. */
  function ParseInteger(s: string): (r: Option<int>)
  {
    if |s| > 0 && s[0] == '-' then
      match ParseDigits(s[1..])
      case None => None
      case Some(m) => Some(-(m as int))
    else ParseDigits(s)
  }

  lemma {:induction false} DigitsRoundTrip(n: nat)
    ensures ParseDigits(Digits(n)) == Some(n)
    decreases n
  {
    if n >= 10 {
      var s := Digits(n);
      assert s[..|s| - 1] == Digits(n / 10);
      DigitsRoundTrip(n / 10);
    }
  }

  /** Reading back the printed integer gives the integer. */
  lemma IntegerRoundTrip(n: int)
    ensures ParseInteger(IntegerToS(n)) == Some(n)
  {
    if n < 0 {
      assert IntegerToS(n)[1..] == Digits(-n);
      DigitsRoundTrip(-n);
    } else {
      DigitsRoundTrip(n);
    }
  }

  /** Distinct integers print differently. */
  lemma IntegerToSInjective(m: int, n: int)
    requires IntegerToS(m) == IntegerToS(n)
    ensures m == n
  {
    IntegerRoundTrip(m);
    IntegerRoundTrip(n);
  }

  /** A canonical digit string is the only text `Digits` writes for the value it reads as. */
  lemma {:induction false} CanonicalDigitsUnique(s: string, m: nat)
    requires IsCanonicalDigits(s) && ParseDigits(s) == Some(m)
    ensures s == Digits(m)
    decreases |s|
  {
    if |s| > 1 {
      var init := s[..|s| - 1];
      var high := ParseDigits(init).value;
      assert IsCanonicalDigits(init) by {
        assert forall i :: 0 <= i < |init| ==> init[i] == s[i];
      }
      CanonicalDigitsUnique(init, high);
      assert init[0] == s[0];
      assert m / 10 == high && m % 10 == DigitValue(s[|s| - 1]);
      assert s == init + [s[|s| - 1]];
    }
  }

  /** Printing is the inverse of reading on canonical text: `to_s` writes nothing else that reads as `n`. */
  lemma CanonicalIntegerUnique(s: string, n: int)
    requires IsCanonicalInteger(s) && ParseInteger(s) == Some(n)
    ensures s == IntegerToS(n)
  {
    if |s| > 0 && s[0] == '-' {
      var m := ParseDigits(s[1..]).value;
      CanonicalDigitsUnique(s[1..], m);
      assert s[1..][0] == s[1];
      assert s == "-" + s[1..];
    } else {
      CanonicalDigitsUnique(s, n);
    }
  }
}
