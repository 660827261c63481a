/** Decimal numerals: how numbers are written out and read back. */
module Numerals {

  predicate IsDigit(c: char) { '0' <= c <= '9' }

  predicate AllDigits(s: string) { forall i :: 0 <= i < |s| ==> IsDigit(s[i]) }

  function DigitValue(c: char): (n: nat)
    requires IsDigit(c)
    ensures n < 10
  {
    (c - '0') as nat
  }

  function NatOf(digits: string): nat
    requires AllDigits(digits)
  {
    if digits == "" then 0 else NatOf(digits[..|digits| - 1]) * 10 + DigitValue(digits[|digits| - 1])
  }

  lemma {:induction false} NatOfGrows(digits: string, n: nat)
    requires n <= |digits| && AllDigits(digits)
    ensures NatOf(digits[..n]) <= NatOf(digits)
    decreases |digits| - n
  {
    if n < |digits| {
      assert digits[..n + 1][..n] == digits[..n];
      NatOfGrows(digits, n + 1);
    } else {
      assert digits[..n] == digits;
    }
  }

  function DecimalNat(n: nat): string {
    if n < 10 then [('0' as int + n) as char] else DecimalNat(n / 10) + [('0' as int + n % 10) as char]
  }

  lemma {:induction false} DecimalNatReads(n: nat)
    ensures AllDigits(DecimalNat(n)) && DecimalNat(n) != "" && NatOf(DecimalNat(n)) == n
    ensures DecimalNat(n)[0] == '0' ==> DecimalNat(n) == "0"
  {
    var d := DecimalNat(n);
    if n < 10 {
      assert d[..0] == "";
    } else {
      DecimalNatReads(n / 10);
      assert d[..|d| - 1] == DecimalNat(n / 10);
    }
  }

  function Power10(d: nat): (p: nat)
    ensures p > 0
  {
    if d == 0 then 1 else 10 * Power10(d - 1)
  }

  lemma {:induction false} Power10Mono(a: nat, b: nat)
    requires a <= b
    ensures Power10(a) <= Power10(b)
    decreases b
  {
    if a < b {
      Power10Mono(a, b - 1);
    }
  }

  /** Numbers below a power of ten have no more digits than its exponent. */
  lemma {:induction false} DecimalNatLength(n: nat, d: nat)
    requires d >= 1 && n < Power10(d)
    ensures |DecimalNat(n)| <= d
    decreases d
  {
    if d > 1 {
      if n >= 10 {
        DecimalNatLength(n / 10, d - 1);
      }
    } else {
      assert Power10(1) == 10 * Power10(0);
    }
  }
}
