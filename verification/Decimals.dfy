/** Decimal text: String(n), padStart and the number a digit string writes. */
module Decimals {

  function Digit(d: nat): (c: char)
    requires d < 10
    ensures '0' <= c <= '9' && c as int - '0' as int == d
  {
    (48 + d) as char
  }

  predicate AllDigits(s: string) {
    forall i :: 0 <= i < |s| ==> '0' <= s[i] <= '9'
  }

  /** String(n). */
  function Decimal(n: nat): (s: string)
    ensures |s| > 0 && AllDigits(s)
  {
    (if n < 10 then [] else Decimal(n / 10)) + [Digit(n % 10)]
  }

  function PadStart(s: string, width: nat, fill: char): string {
    if |s| >= width then s else seq(width - |s|, _ => fill) + s
  }

  /** The number a digit string writes. */
  function DecimalValue(s: string): nat
    requires AllDigits(s)
  {
    if s == [] then 0 else 10 * DecimalValue(s[..|s| - 1]) + (s[|s| - 1] as int - '0' as int)
  }

  function Pow10(n: nat): (p: nat)
    ensures p >= 1
  {
    if n == 0 then 1 else 10 * Pow10(n - 1)
  }

  lemma DecimalValueLast(s: string, d: nat)
    requires AllDigits(s) && d < 10
    ensures AllDigits(s + [Digit(d)]) && DecimalValue(s + [Digit(d)]) == 10 * DecimalValue(s) + d
  {
    assert (s + [Digit(d)])[..|s|] == s;
  }

  lemma TenthBelow(n: nat, p: nat)
    requires n < 10 * p
    ensures n / 10 < p && (n >= 10 ==> p > 1)
  {
  }

  lemma OneDigit(n: nat)
    requires n < 10
    ensures |Decimal(n)| == 1 && DecimalValue(Decimal(n)) == n
  {
    assert [] + [Digit(n)] == Decimal(n);
    DecimalValueLast([], n);
    hide Digit;
  }

  lemma MoreDigits(n: nat)
    requires n >= 10
    ensures |Decimal(n)| == |Decimal(n / 10)| + 1
    ensures DecimalValue(Decimal(n)) == 10 * DecimalValue(Decimal(n / 10)) + n % 10
  {
    assert Decimal(n) == Decimal(n / 10) + [Digit(n % 10)];
    hide Digit, Decimal;
    DecimalValueLast(Decimal(n / 10), n % 10);
  }

  lemma {:induction false} DecimalRoundTrip(n: nat, width: nat)
    requires width > 0 && n < Pow10(width)
    ensures |Decimal(n)| <= width && DecimalValue(Decimal(n)) == n
  {
    hide Decimal, DecimalValue;
    if n < 10 {
      OneDigit(n);
    } else {
      MoreDigits(n);
      TenthBelow(n, Pow10(width - 1));
      DecimalRoundTrip(n / 10, width - 1);
    }
  }

  lemma {:induction false} DecimalPadding(k: nat, s: string)
    requires AllDigits(s)
    ensures DecimalValue(seq(k, _ => '0') + s) == DecimalValue(s)
    decreases |s|, k
  {
    var t := seq(k, _ => '0') + s;
    if s != [] {
      assert t[..|t| - 1] == seq(k, _ => '0') + s[..|s| - 1];
      DecimalPadding(k, s[..|s| - 1]);
    } else if k > 0 {
      assert t[..|t| - 1] == seq(k - 1, _ => '0') + s;
      DecimalPadding(k - 1, s);
    }
  }
}
