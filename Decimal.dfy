/**
  Base-10 rendering of integers, as Go's `strconv.FormatInt(v, 10)` writes
  them: the decimal digits of the magnitude, most significant first, with no
  leading zeros, no grouping, and a leading '-' only for a negative value.
  `ParseInt` reads such a string back; the two are inverse bijections
  between the integers and the canonical decimal strings.
 */
module Decimal {

  predicate IsDigit(c: char) {
    '0' <= c <= '9'
  }

  predicate AllDigits(s: string) {
    forall i :: 0 <= i < |s| ==> IsDigit(s[i])
  }

  function DigitChar(d: nat): (c: char)
    requires d < 10
    ensures IsDigit(c)
  {
    ('0' as int + d) as char
  }

  function DigitValue(c: char): (d: nat)
    requires IsDigit(c)
    ensures d < 10 && DigitChar(d) == c
  {
    c as int - '0' as int
  }

  /** A non-empty digit string without a superfluous leading zero. */
  predicate CanonicalDigits(s: string) {
    |s| > 0 && AllDigits(s) && (s[0] == '0' ==> |s| == 1)
  }

  /** What `FormatInt` can produce: canonical digits, optionally after a '-'
      that is followed by a non-zero magnitude. */
  predicate CanonicalDecimal(s: string) {
    if |s| > 0 && s[0] == '-' then CanonicalDigits(s[1..]) && s[1..] != "0"
    else CanonicalDigits(s)
  }

  /** The digits of `n`, most significant first. */
  function NatDigits(n: nat): (s: string)
    ensures CanonicalDigits(s)
    ensures s == "0" <==> n == 0
    decreases n
  {
    if n < 10 then [DigitChar(n)]
    else
      var s := NatDigits(n / 10) + [DigitChar(n % 10)];
      assert s[..|s| - 1] == NatDigits(n / 10);
      s
  }

  /** `strconv.FormatInt(x, 10)`. */
  function FormatInt(x: int): (s: string)
    ensures CanonicalDecimal(s)
    ensures |s| > 0 && (s[0] == '-' <==> x < 0)
  {
    if x < 0 then
      var s := "-" + NatDigits(-x);
      assert s[1..] == NatDigits(-x);
      s
    else NatDigits(x)
  }

  /** The number a digit string denotes. */
  function DigitsValue(s: string): nat
    requires AllDigits(s)
    decreases |s|
  {
    if s == [] then 0 else DigitsValue(s[..|s| - 1]) * 10 + DigitValue(s[|s| - 1])
  }

  /** Reads back a canonical decimal string. */
  function ParseInt(s: string): int
    requires CanonicalDecimal(s)
  {
    if |s| > 0 && s[0] == '-' then -(DigitsValue(s[1..]) as int) else DigitsValue(s)
  }

  lemma {:induction false} DigitsValueOfNatDigits(n: nat)
    ensures DigitsValue(NatDigits(n)) == n
    decreases n
  {
    if n >= 10 {
      var s := NatDigits(n);
      assert s[..|s| - 1] == NatDigits(n / 10);
      DigitsValueOfNatDigits(n / 10);
    }
  }

  lemma {:induction false} LeadingNonZeroPositive(s: string)
    requires CanonicalDigits(s) && s[0] != '0'
    ensures DigitsValue(s) > 0
    decreases |s|
  {
    if |s| > 1 {
      LeadingNonZeroPositive(s[..|s| - 1]);
    }
  }

  lemma {:induction false} NatDigitsOfDigitsValue(s: string)
    requires CanonicalDigits(s)
    ensures NatDigits(DigitsValue(s)) == s
    decreases |s|
  {
    if |s| > 1 {
      var p := s[..|s| - 1];
      LeadingNonZeroPositive(p);
      NatDigitsOfDigitsValue(p);
      var n := DigitsValue(s);
      assert n / 10 == DigitsValue(p) && n % 10 == DigitValue(s[|s| - 1]);
      assert s == p + [s[|s| - 1]];
    }
  }

  /** Reading back what `FormatInt` wrote gives the original number. */
  lemma ParseFormat(x: int)
    ensures ParseInt(FormatInt(x)) == x
  {
    if x < 0 {
      DigitsValueOfNatDigits(-x);
      assert FormatInt(x)[1..] == NatDigits(-x);
    } else {
      DigitsValueOfNatDigits(x);
    }
  }

  /** Every canonical decimal string is what `FormatInt` writes for its value. */
  lemma FormatParse(s: string)
    requires CanonicalDecimal(s)
    ensures FormatInt(ParseInt(s)) == s
  {
    if |s| > 0 && s[0] == '-' {
      var d := s[1..];
      NatDigitsOfDigitsValue(d);
      LeadingNonZeroPositive(d);
      assert s == "-" + d;
    } else {
      NatDigitsOfDigitsValue(s);
    }
  }
}
