/** Products and quotients that the solver does not find by itself. */
module Arithmetic {

  lemma Product(a: real, b: real)
    requires a > 0.0 && b > 0.0
    ensures a * b > 0.0
  {
  }

  lemma Scale(a: real, b: real, p: real)
    requires a <= b && p >= 0.0
    ensures a * p <= b * p
  {
    assert (b - a) * p >= 0.0;
  }

  lemma Distribute(a: real, b: real, c: real)
    ensures (a + b) * c == a * c + b * c
  {
  }

  lemma QuotientAtMost(x: real, p: real, k: real)
    requires p > 0.0
    ensures x / p <= k <==> x <= k * p
  {
    var q := x / p;
    assert q * p == x;
    if q <= k {
      Scale(q, k, p);
    } else {
      Product(q - k, p);
      assert (q - k) * p == q * p - k * p;
    }
  }

  lemma MulAtLeast(d: int, k: int)
    requires d > 0 && k >= 1
    ensures d * k >= d
  {
    assert d * (k - 1) >= 0;
  }

  lemma DivModUnique(v: int, d: int, q: int, r: int)
    requires d > 0 && 0 <= r < d && v == d * q + r
    ensures v / d == q && v % d == r
  {
    var q0, r0 := v / d, v % d;
    assert d * (q - q0) == r0 - r;
    if q > q0 {
      MulAtLeast(d, q - q0);
      assert false;
    } else if q < q0 {
      assert d * (q0 - q) == r - r0;
      MulAtLeast(d, q0 - q);
      assert false;
    }
  }

  lemma SameResidue(v: nat, w: nat, d: int)
    requires d > 0 && v % d == w % d && -d < v - w < d
    ensures v == w
  {
    var p, q := v / d, w / d;
    assert v - w == d * (p - q);
    assert w - v == d * (q - p);
    if p > q {
      MulAtLeast(d, p - q);
      assert false;
    } else if p < q {
      MulAtLeast(d, q - p);
      assert false;
    }
  }

  /** One of any d consecutive numbers leaves the remainder s. */
  lemma OneInARow(first: nat, d: nat, s: nat) returns (v: nat)
    requires s < d
    ensures first <= v < first + d && v % d == s
  {
    var q, r := first / d, first % d;
    assert first == d * q + r;
    if r <= s {
      v := d * q + s;
      DivModUnique(v, d, q, s);
    } else {
      v := d * q + d + s;
      assert v == d * (q + 1) + s;
      DivModUnique(v, d, q + 1, s);
    }
  }
}
