/** Decimal rendering of non-negative integers, as a template literal `${n}`
    shows a whole number, and the reading of such a digit string back. */
module Decimal {

  predicate IsDigit(c: char) {
    '0' <= c <= '9'
  }

  predicate AllDigits(s: string) {
    forall i :: 0 <= i < |s| ==> IsDigit(s[i])
  }

  function DigitChar(d: nat): (c: char)
    requires d < 10
    ensures IsDigit(c)
  {
    "0123456789"[d]
  }

  function DigitValue(c: char): (d: nat)
    requires IsDigit(c)
    ensures d < 10 && DigitChar(d) == c
  {
    (c as int - '0' as int) as nat
  }

  /** The shortest decimal spelling of n: never empty, digits only, and no
      leading zero unless n itself is zero. */
  function NatToString(n: nat): (s: string)
    ensures |s| >= 1 && AllDigits(s)
    ensures s[0] == '0' <==> n == 0
    decreases n
  {
    if n < 10 then [DigitChar(n)] else NatToString(n / 10) + [DigitChar(n % 10)]
  }

  /** The number a digit string denotes, most significant digit first. */
  function DigitsValue(s: string): (n: nat)
    requires AllDigits(s)
  {
    if s == [] then 0 else DigitsValue(s[..|s| - 1]) * 10 + DigitValue(s[|s| - 1])
  }

  /** Reading back what NatToString wrote gives the number again. */
  lemma {:induction false} DigitsValueOfNatToString(n: nat)
    ensures DigitsValue(NatToString(n)) == n
    decreases n
  {
    if n >= 10 {
      var s := NatToString(n / 10);
      var t := NatToString(n);
      assert t == s + [DigitChar(n % 10)];
      assert t[..|t| - 1] == s;
      DigitsValueOfNatToString(n / 10);
    }
  }

  /** So distinct numbers are spelled differently. */
  lemma NatToStringInjective(m: nat, n: nat)
    requires NatToString(m) == NatToString(n)
    ensures m == n
  {
    DigitsValueOfNatToString(m);
    DigitsValueOfNatToString(n);
  }

  /** The longest prefix of s made of digits. */
  function LeadingDigits(s: string): (p: string)
    ensures AllDigits(p) && p <= s
  {
    if s == [] || !IsDigit(s[0]) then [] else [s[0]] + LeadingDigits(s[1..])
  }

  /** A digit string followed by a non-digit is exactly the leading digits. */
  lemma {:induction false} LeadingDigitsOfDigitsThen(ds: string, rest: string)
    requires AllDigits(ds)
    requires rest != [] && !IsDigit(rest[0])
    ensures LeadingDigits(ds + rest) == ds
  {
    if ds != [] {
      assert (ds + rest)[1..] == ds[1..] + rest;
      LeadingDigitsOfDigitsThen(ds[1..], rest);
    } else {
      assert ds + rest == rest;
    }
  }
}
