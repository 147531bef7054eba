/** Rounding half to even, to whole numbers as Python's round and to four decimal places as the ledger stamps costs. */
module Rounding {

  /** round(x): to the nearest integer, a tie to the even one. */
  function Round(x: real): int {
    var below := x.Floor;
    var part := x - below as real;
    if part < 0.5 || (part == 0.5 && below % 2 == 0) then below else below + 1
  }

  /** Round(x) is the only integer within a half of x that is even when it lies exactly a half away. */
  lemma RoundExactly(x: real, n: int)
    ensures n == Round(x) <==>
      -0.5 <= n as real - x <= 0.5 && ((n as real - x == 0.5 || n as real - x == -0.5) ==> n % 2 == 0)
  {
    var below := x.Floor;
    assert -0.5 <= n as real - x <= 0.5 ==> n == below || n == below + 1;
    assert below % 2 == 0 <==> (below + 1) % 2 != 0;
  }

  lemma RoundMonotone(x: real, y: real)
    requires x <= y
    ensures Round(x) <= Round(y)
  {
    assert x.Floor <= y.Floor;
  }

  /** x.quantize(Decimal("0.0001")). */
  function Quantized(x: real): real {
    Round(x * 10000.0) as real / 10000.0
  }

  /** It is the only number of four places within half a place, and at exactly half a place the even one. */
  lemma QuantizedExactly(x: real, n: int)
    ensures n as real / 10000.0 == Quantized(x) <==>
      && -0.00005 <= n as real / 10000.0 - x <= 0.00005
      && (n as real / 10000.0 - x == 0.00005 || n as real / 10000.0 - x == -0.00005 ==> n % 2 == 0)
  {
    RoundExactly(x * 10000.0, n);
  }

  lemma RoundWhole(n: int)
    ensures Round(n as real) == n
  {
  }

  /** A quantized number has four places, so quantizing it again leaves it. */
  lemma QuantizedTwice(x: real)
    ensures Quantized(Quantized(x)) == Quantized(x)
  {
    var n := Round(x * 10000.0);
    hide Round;
    assert Quantized(x) * 10000.0 == n as real;
    RoundWhole(n);
  }
}
