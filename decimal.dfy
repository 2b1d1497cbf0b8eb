/** Decimal rendering of natural numbers: the number-to-string step that
    JavaScript performs when a string is concatenated with a non-negative
    integer (`baseText + i`). */
module Decimal {

  predicate IsDigit(c: char) {
    '0' <= c <= '9'
  }

  predicate AllDigits(s: string) {
    forall i :: 0 <= i < |s| ==> IsDigit(s[i])
  }

  /** The form JavaScript produces for a non-negative integer: at least one
      digit, and no leading zero unless the number is zero itself. */
  predicate IsCanonical(s: string) {
    |s| >= 1 && AllDigits(s) && (s[0] == '0' ==> |s| == 1)
  }

  function DigitChar(d: nat): (c: char)
    requires d < 10
    ensures IsDigit(c) && DigitValue(c) == d
  {
    ('0' as int + d) as char
  }

  function DigitValue(c: char): (d: nat)
    requires IsDigit(c)
    ensures d < 10
  {
    c as int - '0' as int
  }

  /** Most significant digit first, as `String(n)` gives it. */
  function NatToString(n: nat): (r: string)
    ensures IsCanonical(r)
    ensures r[0] == '0' <==> n == 0
    decreases n
  {
    if n < 10 then [DigitChar(n)]
    else NatToString(n / 10) + [DigitChar(n % 10)]
  }

  /** Reference reading of a digit string back into the number it denotes. */
  function StringToNat(s: string): (r: nat)
    requires AllDigits(s)
  {
    if s == [] then 0
    else 10 * StringToNat(s[..|s| - 1]) + DigitValue(s[|s| - 1])
  }

  /** Reading the rendering of `n` gives `n` back. */
  lemma {:induction false} StringToNatOfNatToString(n: nat)
    ensures StringToNat(NatToString(n)) == n
  {
    if n >= 10 {
      var r := NatToString(n);
      assert r[..|r| - 1] == NatToString(n / 10);
      StringToNatOfNatToString(n / 10);
    }
  }

  /** A digit string that does not start with zero denotes a positive number. */
  lemma {:induction false} StringToNatPositive(s: string)
    requires |s| >= 1 && AllDigits(s) && s[0] != '0'
    ensures StringToNat(s) >= 1
  {
    if |s| > 1 {
      StringToNatPositive(s[..|s| - 1]);
    }
  }

  /** Every canonical digit string is the rendering of the number it denotes,
      so rendering is a bijection between naturals and canonical strings. */
  lemma {:induction false} NatToStringOfStringToNat(s: string)
    requires IsCanonical(s)
    ensures NatToString(StringToNat(s)) == s
  {
    var init := s[..|s| - 1];
    if |s| > 1 {
      assert IsCanonical(init);
      StringToNatPositive(init);
      NatToStringOfStringToNat(init);
      var n := StringToNat(s);
      assert n / 10 == StringToNat(init) && n % 10 == DigitValue(s[|s| - 1]);
      assert s == init + [s[|s| - 1]];
    }
  }

  /** Distinct numbers have distinct renderings. */
  lemma NatToStringInjective(a: nat, b: nat)
    ensures NatToString(a) == NatToString(b) ==> a == b
  {
    StringToNatOfNatToString(a);
    StringToNatOfNatToString(b);
  }
}
