/** Numbers as bit sequences, most significant bit first, and JavaScript's 32-bit operators on them. */
module Bits {
  import opened Arithmetic

  type bit = b: int | 0 <= b < 2
  type byte = b: int | 0 <= b < 256

  function Pow2(n: nat): (p: nat)
    ensures p >= 1
  {
    if n == 0 then 1 else 2 * Pow2(n - 1)
  }

  /** The low `width` bits of `v`: v.toString(2).padStart(width, "0") whenever v fits. */
  function ToBits(v: nat, width: nat): (s: seq<bit>)
    ensures |s| == width
  {
    if width == 0 then [] else ToBits(v / 2, width - 1) + [v % 2]
  }

  /** parseInt(s, 2). */
  function FromBits(s: seq<bit>): (v: nat)
    ensures v < Pow2(|s|)
  {
    if s == [] then 0 else 2 * FromBits(s[..|s| - 1]) + s[|s| - 1]
  }

  function Zeros(n: nat): (s: seq<bit>)
    ensures |s| == n && forall i :: 0 <= i < n ==> s[i] == 0
  {
    seq(n, _ => 0)
  }

  lemma {:induction false} Pow2Add(a: nat, b: nat)
    ensures Pow2(a + b) == Pow2(a) * Pow2(b)
  {
    if b > 0 {
      Pow2Add(a, b - 1);
    }
  }

  lemma {:induction false} ToFromBits(s: seq<bit>)
    ensures ToBits(FromBits(s), |s|) == s
  {
    if s != [] {
      ToFromBits(s[..|s| - 1]);
    }
  }

  lemma {:induction false} FromToBits(v: nat, width: nat)
    ensures FromBits(ToBits(v, width)) == v % Pow2(width)
  {
    if width > 0 {
      FromToBits(v / 2, width - 1);
      var s := ToBits(v, width);
      assert s[..|s| - 1] == ToBits(v / 2, width - 1);
      ModHalves(v, Pow2(width - 1));
    }
  }

  lemma ModHalves(v: nat, p: nat)
    requires p > 0
    ensures v % (2 * p) == 2 * ((v / 2) % p) + v % 2
  {
    var q, r := (v / 2) / p, (v / 2) % p;
    assert v == 2 * p * q + (2 * r + v % 2);
    DivModUnique(v, 2 * p, q, 2 * r + v % 2);
  }

  lemma FromBitsLast(s: seq<bit>, x: bit)
    ensures FromBits(s + [x]) == 2 * FromBits(s) + x
  {
    assert (s + [x])[..|s|] == s;
  }

  lemma {:induction false} FromBitsConcat(a: seq<bit>, b: seq<bit>)
    ensures FromBits(a + b) == FromBits(a) * Pow2(|b|) + FromBits(b)
  {
    if b == [] {
      assert a + b == a;
    } else {
      var b', x := b[..|b| - 1], b[|b| - 1];
      assert a + b == (a + b') + [x] && b == b' + [x];
      FromBitsConcat(a, b');
      FromBitsLast(a + b', x);
      FromBitsLast(b', x);
      MulDouble(FromBits(a), Pow2(|b'|));
    }
  }

  lemma MulDouble(x: int, p: int)
    ensures 2 * (x * p) == x * (2 * p)
  {
  }

  lemma {:induction false} FromBitsZeros(n: nat)
    ensures FromBits(Zeros(n)) == 0
  {
    if n > 0 {
      assert Zeros(n)[..n - 1] == Zeros(n - 1);
      FromBitsZeros(n - 1);
    }
  }

  /** The low k of w bits are the k-bit form. */
  lemma {:induction false} ToBitsLow(v: nat, w: nat, k: nat)
    requires k <= w
    ensures ToBits(v, w)[w - k..] == ToBits(v, k)
  {
    if k > 0 {
      ToBitsLow(v / 2, w - 1, k - 1);
      assert ToBits(v, w)[w - k..] == ToBits(v / 2, w - 1)[w - k..] + [v % 2];
    }
  }

  lemma {:induction false} FromToBitsSmall(v: nat, width: nat)
    requires v < Pow2(width)
    ensures FromBits(ToBits(v, width)) == v
  {
    if width > 0 {
      FromToBitsSmall(v / 2, width - 1);
      FromBitsLast(ToBits(v / 2, width - 1), v % 2);
    }
  }

  lemma FromBitsPadded(n: nat, s: seq<bit>)
    ensures FromBits(Zeros(n) + s) == FromBits(s)
  {
    FromBitsZeros(n);
    FromBitsConcat(Zeros(n), s);
  }

  /** A number below 2^k has only zeros above its low k bits. */
  lemma ToBitsWiden(v: nat, w: nat, k: nat)
    requires k <= w && v < Pow2(k)
    ensures ToBits(v, w) == Zeros(w - k) + ToBits(v, k)
  {
    var s := Zeros(w - k) + ToBits(v, k);
    FromBitsPadded(w - k, ToBits(v, k));
    FromToBitsSmall(v, k);
    ToFromBits(s);
    assert |s| == w;
  }

  function ByteBits(bs: seq<byte>): (s: seq<bit>)
    ensures |s| == 8 * |bs|
  {
    if bs == [] then [] else ToBits(bs[0], 8) + ByteBits(bs[1..])
  }

  lemma {:induction false} ByteBitsAt(bs: seq<byte>, i: nat)
    requires i < |bs|
    ensures ByteBits(bs)[8 * i..8 * i + 8] == ToBits(bs[i], 8)
  {
    if i > 0 {
      ByteBitsAt(bs[1..], i - 1);
      assert ByteBits(bs)[8 * i..8 * i + 8] == ByteBits(bs[1..])[8 * (i - 1)..8 * (i - 1) + 8];
    }
  }

  lemma {:induction false} ByteBitsConcat(a: seq<byte>, b: seq<byte>)
    ensures ByteBits(a + b) == ByteBits(a) + ByteBits(b)
  {
    if a == [] {
      assert a + b == b;
    } else {
      assert (a + b)[1..] == a[1..] + b;
      ByteBitsConcat(a[1..], b);
    }
  }

  // --- JavaScript's &, | and << : operands become 32-bit two's complement, so does the result ---

  function Word(n: int): (s: seq<bit>)
    ensures |s| == 32
  {
    ToBits(n % 0x1_0000_0000, 32)
  }

  function Signed(s: seq<bit>): int
    requires |s| == 32
  {
    FromBits(s[1..]) - (if s[0] == 1 then 0x8000_0000 else 0)
  }

  function AndBits(x: seq<bit>, y: seq<bit>): (s: seq<bit>)
    requires |x| == |y|
    ensures |s| == |x|
  {
    seq(|x|, i requires 0 <= i < |x| => if x[i] == 1 && y[i] == 1 then 1 else 0)
  }

  function OrBits(x: seq<bit>, y: seq<bit>): (s: seq<bit>)
    requires |x| == |y|
    ensures |s| == |x|
  {
    seq(|x|, i requires 0 <= i < |x| => if x[i] == 1 || y[i] == 1 then 1 else 0)
  }

  function And(a: int, b: int): int {
    Signed(AndBits(Word(a), Word(b)))
  }

  function Or(a: int, b: int): int {
    Signed(OrBits(Word(a), Word(b)))
  }

  function Shl(a: int, k: nat): int
    requires k < 32
  {
    Signed(Word(a)[k..] + Zeros(k))
  }

  lemma Pow2Values()
    ensures Pow2(4) == 16 && Pow2(5) == 32 && Pow2(7) == 128 && Pow2(8) == 256
    ensures Pow2(24) == 0x100_0000 && Pow2(31) == 0x8000_0000 && Pow2(32) == 0x1_0000_0000
  {
    assert Pow2(3) == 8;
    assert Pow2(5) == 32;
    Pow2Add(4, 4);
    Pow2Add(8, 8);
    Pow2Add(16, 8);
    Pow2Add(5, 2);
    Pow2Add(24, 7);
    Pow2Add(31, 1);
  }

  lemma SmallWord(n: int)
    requires 0 <= n < 0x1_0000_0000
    ensures Word(n) == ToBits(n, 32)
  {
    var u: nat := n % 0x1_0000_0000;
    assert u == n;
  }

  /** A word whose sign bit is clear keeps its bits through a result and back into an operand. */
  lemma WordSigned(s: seq<bit>)
    requires |s| == 32 && s[0] == 0
    ensures Signed(s) == FromBits(s) && Word(Signed(s)) == s
  {
    assert s == Zeros(1) + s[1..];
    FromBitsPadded(1, s[1..]);
    assert FromBits(s) < 0x1_0000_0000 by { Pow2Values(); }
    SmallWord(FromBits(s));
    ToFromBits(s);
  }

  lemma {:induction false} OnesBits(k: nat, w: nat)
    requires k <= w
    ensures ToBits(Pow2(k) - 1, w) == Zeros(w - k) + seq(k, _ => 1)
  {
    if k == 0 {
      FromBitsZeros(w);
      ToFromBits(Zeros(w));
    } else {
      assert (Pow2(k) - 1) / 2 == Pow2(k - 1) - 1;
      OnesBits(k - 1, w - 1);
    }
  }

  lemma MaskBits(u: nat, k: nat)
    requires k <= 32
    ensures AndBits(ToBits(u, 32), ToBits(Pow2(k) - 1, 32)) == Zeros(32 - k) + ToBits(u, k)
  {
    OnesBits(k, 32);
    ToBitsLow(u, 32, k);
    var x := ToBits(u, 32);
    assert forall i :: 32 - k <= i < 32 ==> x[i] == x[32 - k..][i - (32 - k)];
  }

  lemma Pow2Split(n: nat, k: nat)
    requires k <= n
    ensures Pow2(n) == Pow2(k) * Pow2(n - k) && Pow2(k) <= Pow2(n)
  {
    Pow2Add(k, n - k);
    if k < n {
      Pow2Split(n - 1, k);
    }
  }

  lemma OnesWord(k: nat)
    requires k < 32
    ensures Word(Pow2(k) - 1) == ToBits(Pow2(k) - 1, 32)
  {
    assert Pow2(k) - 1 < 0x1_0000_0000 by {
      Pow2Values();
      Pow2Split(32, k);
    }
    SmallWord(Pow2(k) - 1);
  }

  lemma MaskWord(a: int, k: nat)
    requires k < 32
    ensures Word(And(a, Pow2(k) - 1)) == Zeros(32 - k) + ToBits(a % 0x1_0000_0000, k)
    ensures And(a, Pow2(k) - 1) == FromBits(ToBits(a % 0x1_0000_0000, k))
  {
    hide ToBits, FromBits, AndBits, Signed, Pow2;
    var u := a % 0x1_0000_0000;
    OnesWord(k);
    MaskBits(u, k);
    var masked := Zeros(32 - k) + ToBits(u, k);
    WordSigned(masked);
    FromBitsPadded(32 - k, ToBits(u, k));
  }

  lemma WordMod(a: int, k: nat)
    requires k <= 32
    ensures (a % 0x1_0000_0000) % Pow2(k) == a % Pow2(k)
  {
    Pow2Values();
    Pow2Split(32, k);
    ModMod(a, Pow2(k), Pow2(32 - k));
  }

  /** `a & (2^k - 1)` keeps the k low bits of any integer, negative ones included. */
  lemma AndMask(a: int, k: nat)
    requires k < 32
    ensures And(a, Pow2(k) - 1) == a % Pow2(k)
    ensures Word(And(a, Pow2(k) - 1)) == Zeros(32 - k) + ToBits(a % Pow2(k), k)
  {
    var u := a % 0x1_0000_0000;
    MaskWord(a, k);
    FromToBits(u, k);
    WordMod(a, k);
    ToFromBits(ToBits(u, k));
  }

  lemma ModMod(a: int, p: int, q: int)
    requires p > 0 && q > 0
    ensures p * q > 0 && (a % (p * q)) % p == a % p
  {
    assert p * q > 0;
    var c, u := a / (p * q), a % (p * q);
    var d, r := u / p, u % p;
    assert a == p * (q * c + d) + r by {
      assert p * (q * c) == (p * q) * c;
    }
    DivModUnique(a, p, q * c + d, r);
  }
}
