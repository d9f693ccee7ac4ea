/** Decimal integers as text: the `isInt` test a path parameter must pass,
    the conversion the store applies to such a parameter, and the decimal
    rendering of a number (how a number becomes text). */
module Numerals {

  predicate IsDigit(c: char) {
    '0' <= c <= '9'
  }

  /** Every character is a decimal digit (the empty string included). */
  predicate AllDigits(s: string) {
    forall i :: 0 <= i < |s| ==> IsDigit(s[i])
  }

  predicate HasSign(s: string) {
    |s| > 0 && (s[0] == '-' || s[0] == '+')
  }

  /** The `isInt` check: an optional sign followed by one or more digits
      (leading zeros allowed). */
  predicate IsInt(s: string)
    ensures IsInt(s) ==> |s| > 0 && forall i :: 1 <= i < |s| ==> IsDigit(s[i])
    ensures IsInt(s) && !HasSign(s) ==> IsDigit(s[0])
    ensures |s| > 0 && AllDigits(s) ==> IsInt(s)
    ensures s == "-" || s == "+" ==> !IsInt(s)
  {
    if HasSign(s) then |s| > 1 && AllDigits(s[1..]) else |s| > 0 && AllDigits(s)
  }

  function DigitValue(c: char): (d: nat)
    requires IsDigit(c)
    ensures d < 10
  {
    c as int - '0' as int
  }

  function DigitChar(d: nat): (c: char)
    requires d < 10
    ensures IsDigit(c) && DigitValue(c) == d
  {
    ('0' as int + d) as char
  }

  /** The value of a digit string, read most significant digit first. */
  function ParseDigits(s: string): nat
    requires AllDigits(s)
  {
    if |s| == 0 then 0 else ParseDigits(s[..|s| - 1]) * 10 + DigitValue(s[|s| - 1])
  }

  /** The integer an `isInt` string denotes. */
  function ParseInt(s: string): (n: int)
    requires IsInt(s)
    ensures !HasSign(s) ==> n >= 0 && n == ParseDigits(s)
    ensures s[0] == '-' ==> n <= 0 && n == -(ParseDigits(s[1..]) as int)
    ensures s[0] == '+' ==> n >= 0 && n == ParseDigits(s[1..])
  {
    if HasSign(s) && s[0] == '-' then -(ParseDigits(s[1..]) as int)
    else if HasSign(s) then ParseDigits(s[1..])
    else ParseDigits(s)
  }

  /** The shortest decimal rendering of a natural number. */
  function ShowNat(n: nat): (s: string)
    ensures |s| > 0 && AllDigits(s)
    ensures s[0] == '0' ==> n == 0
  {
    if n < 10 then [DigitChar(n)] else ShowNat(n / 10) + [DigitChar(n % 10)]
  }

  /** The decimal rendering of an integer, with a leading '-' when negative. */
  function ShowInt(n: int): (s: string)
    ensures IsInt(s)
    ensures |s| > 0
  {
    if n < 0 then "-" + ShowNat(-n) else ShowNat(n)
  }

  lemma {:induction false} ParseShowNat(n: nat)
    ensures ParseDigits(ShowNat(n)) == n
  {
    if n >= 10 {
      var s := ShowNat(n);
      assert s[..|s| - 1] == ShowNat(n / 10);
      ParseShowNat(n / 10);
    }
  }

  /** Every integer is reachable as text: rendering it gives a string that
      passes `isInt` and parses back to the same integer. */
  lemma ParseShowInt(n: int)
    ensures IsInt(ShowInt(n)) && ParseInt(ShowInt(n)) == n
  {
    if n < 0 {
      var s := ShowInt(n);
      assert s[1..] == ShowNat(-n);
      ParseShowNat(-n);
    } else {
      ParseShowNat(n);
    }
  }

  /** A string whose first character is neither a sign nor a digit is not an
      integer (how "not-valid-url" and "Hob" are rejected). */
  lemma NotIntWhenLeadIsLetter(s: string)
    requires |s| > 0 && !IsDigit(s[0]) && s[0] != '-' && s[0] != '+'
    ensures !IsInt(s)
  {
  }
}
