/** The two-step code of the month-end driver, against section 5.3 of RFC 4226 and section 4.2 of RFC 6238. */
module Totp {
  import opened Arithmetic
  import opened Wrappers
  import opened Bits
  import opened Decimals
  import Base32

  /** An HMAC-SHA-1 value: twenty bytes. The hash itself is a parameter of this model. */
  type Mac = m: seq<byte> | |m| == 20 witness seq(20, _ => 0)

  /** The number a byte string writes, most significant byte first. */
  function BigEndian(bs: seq<byte>): nat {
    if bs == [] then 0 else 256 * BigEndian(bs[..|bs| - 1]) + bs[|bs| - 1]
  }

  /** The whole 30-second steps of a clock reading, section 4.2 of RFC 6238. */
  function Steps(nowMs: int): (step: int)
    ensures 30000 * step <= nowMs < 30000 * (step + 1)
  {
    nowMs / 30000
  }

  /** The loop that fills the moving factor from its last byte, for any clock reading; below 2^53 ms
      the counter is the number of whole steps. */
  method CounterBytes(nowMs: int) returns (bytes: seq<byte>)
    ensures |bytes| == 8
    ensures BigEndian(bytes) == Steps(nowMs) % 0x1_0000_0000_0000_0000
    ensures 0 <= nowMs < 0x20_0000_0000_0000 ==> BigEndian(bytes) == Steps(nowMs)
  {
    hide *;
    var counter := new byte[8](_ => 0);
    var step := Steps(nowMs);
    var i := 7;
    assert counter[8..] == [];
    NoneWritten(step);
    while i >= 0
      invariant -1 <= i <= 7
      invariant Written(Steps(nowMs), step, counter[i + 1..])
    {
      counter[i] := LowByteOf(step);
      assert counter[i..] == [counter[i]] + counter[i + 1..];
      OneMoreByte(Steps(nowMs), step, counter[i + 1..]);
      step := Shifted(step);
      i := i - 1;
    }
    bytes := counter[..];
    assert counter[0..] == bytes;
    EightWritten(nowMs, step, bytes);
  }

  /** Math.floor(step / 256). */
  function Shifted(step: int): int {
    step / 256
  }

  /** The bytes hold the low end of the total, and the step what is left of it. */
  ghost predicate Written(total: int, step: int, bytes: seq<byte>) {
    total == step * Pow256(|bytes|) + BigEndian(bytes) && BigEndian(bytes) < Pow256(|bytes|)
  }

  lemma NoneWritten(total: int)
    ensures Written(total, total, [])
  {
  }

  /** One turn of the loop: the low byte of what is left goes before the bytes written so far. */
  lemma OneMoreByte(total: int, step: int, rest: seq<byte>)
    requires Written(total, step, rest)
    ensures Written(total, Shifted(step), [LowByteOf(step)] + rest)
  {
    assert Pow256(|rest| + 1) == 256 * Pow256(|rest|);
    LowByte(step);
    hide BigEndian, Pow256, And;
    BigEndianCons(LowByteOf(step), rest);
    PeelByte(step, Pow256(|rest|), BigEndian(rest));
  }

  lemma EightWritten(nowMs: int, step: int, bytes: seq<byte>)
    requires |bytes| == 8 && Written(Steps(nowMs), step, bytes)
    ensures BigEndian(bytes) == Steps(nowMs) % 0x1_0000_0000_0000_0000
    ensures 0 <= nowMs < 0x20_0000_0000_0000 ==> BigEndian(bytes) == Steps(nowMs)
  {
    Pow256At8();
    hide BigEndian, Pow256, Steps;
    DivModUnique(Steps(nowMs), Pow256(8), step, BigEndian(bytes));
  }

  /** step & 0xff. */
  function LowByteOf(step: int): byte {
    LowByte(step);
    And(step, 0xff)
  }

  lemma LowByte(step: int)
    ensures And(step, 0xff) == step % 256
  {
    assert Pow2(8) == 256 by { Pow2Values(); }
    AndMask(step, 8);
  }

  function Pow256(n: nat): (p: nat)
    ensures p >= 1
  {
    if n == 0 then 1 else 256 * Pow256(n - 1)
  }

  lemma Pow256At8()
    ensures Pow256(8) == 0x1_0000_0000_0000_0000
  {
    assert Pow256(4) == 0x1_0000_0000;
    assert Pow256(6) == 0x1_0000_0000_0000;
  }

  lemma PeelParts(q: int, r: nat, p: nat, rest: nat)
    requires r < 256 && rest < p
    ensures (256 * q + r) * p + rest == q * (256 * p) + (r * p + rest)
    ensures r * p + rest < 256 * p
  {
    assert (256 * q + r) * p == q * (256 * p) + r * p;
    assert (255 - r) * p >= 0;
    assert (255 - r) * p == 255 * p - r * p;
  }

  lemma PeelByte(step: int, p: nat, rest: nat)
    requires rest < p
    ensures step * p + rest == (step / 256) * (256 * p) + ((step % 256) * p + rest)
    ensures (step % 256) * p + rest < 256 * p
  {
    var q, r := step / 256, step % 256;
    assert step == 256 * q + r;
    PeelParts(q, r, p, rest);
  }

  lemma {:induction false} BigEndianCons(b: byte, rest: seq<byte>)
    ensures BigEndian([b] + rest) == b * Pow256(|rest|) + BigEndian(rest)
  {
    if rest == [] {
      assert [b] + rest == [] + [b] && BigEndian([]) == 0;
      BigEndianLast([], b);
    } else {
      var rest', x := rest[..|rest| - 1], rest[|rest| - 1];
      assert [b] + rest == ([b] + rest') + [x] && rest == rest' + [x];
      assert Pow256(|rest|) == 256 * Pow256(|rest'|);
      hide *;
      BigEndianCons(b, rest');
      BigEndianLast([b] + rest', x);
      BigEndianLast(rest', x);
      Reassociate(b, Pow256(|rest'|));
    }
  }

  lemma Reassociate(b: int, p: int)
    ensures 256 * (b * p) == b * (256 * p)
  {
  }

  // --- Dynamic truncation ---

  function Offset(mac: Mac): (o: nat)
    ensures o == mac[19] % 16 && o + 3 < |mac|
  {
    assert Pow2(4) == 16 by { Pow2Values(); }
    AndMask(mac[|mac| - 1], 4);
    And(mac[|mac| - 1], 0x0f)
  }

  /** ((mac[o] & 0x7f) << 24) | (mac[o+1] << 16) | (mac[o+2] << 8) | mac[o+3] on signed 32-bit words. */
  function Truncate(mac: Mac): int {
    var o := Offset(mac);
    Or(Or(Or(Shl(And(mac[o], 0x7f), 24), Shl(mac[o + 1], 16)), Shl(mac[o + 2], 8)), mac[o + 3])
  }

  lemma ShiftedByte(n: int, bits: seq<bit>, k: nat)
    requires |bits| == 8 && k <= 24 && Word(n) == Zeros(24) + bits
    requires k == 24 ==> bits[0] == 0
    ensures Word(Shl(n, k)) == Zeros(24 - k) + bits + Zeros(k)
  {
    hide Word, Signed;
    var s := Zeros(24 - k) + bits + Zeros(k);
    assert Word(n)[k..] + Zeros(k) == s;
    WordSigned(s);
  }

  lemma OrWords(a: int, b: int, s: seq<bit>)
    requires |s| == 32 && s[0] == 0 && OrBits(Word(a), Word(b)) == s
    ensures Word(Or(a, b)) == s && Or(a, b) == FromBits(s)
  {
    WordSigned(s);
  }

  lemma ByteWord(b: byte)
    ensures Word(b) == Zeros(24) + ToBits(b, 8)
  {
    assert Pow2(8) == 256 by { Pow2Values(); }
    SmallWord(b);
    ToBitsWiden(b, 32, 8);
  }

  lemma LowSeven(b: byte)
    ensures ToBits(b % Pow2(7), 7) == ToBits(b, 8)[1..]
  {
    FromToBits(b, 7);
    ToFromBits(ToBits(b, 7));
    ToBitsLow(b, 8, 7);
  }

  lemma MaskedByte(b: byte)
    ensures Word(And(b, 0x7f)) == Zeros(24) + ([0] + ToBits(b, 8)[1..])
  {
    hide *;
    assert Pow2(7) == 128 by { Pow2Values(); }
    AndMask(b, 7);
    LowSeven(b);
    assert Zeros(25) == Zeros(24) + [0];
    assert Zeros(25) + ToBits(b, 8)[1..] == Zeros(24) + ([0] + ToBits(b, 8)[1..]);
  }

  lemma JoinBits(x: seq<bit>, y: seq<bit>, z: seq<bit>, w: seq<bit>)
    requires |x| == |y| == |z| == |w| == 8
    ensures OrBits(x + Zeros(24), Zeros(8) + y + Zeros(16)) == x + y + Zeros(16)
    ensures OrBits(x + y + Zeros(16), Zeros(16) + z + Zeros(8)) == x + y + z + Zeros(8)
    ensures OrBits(x + y + z + Zeros(8), Zeros(24) + w) == x + y + z + w
  {
  }

  /** The four bytes at the offset with the top bit cleared, as one bit string. */
  function Code31(mac: Mac): (s: seq<bit>)
    ensures |s| == 31
  {
    var o := Offset(mac);
    ToBits(mac[o], 8)[1..] + ToBits(mac[o + 1], 8) + ToBits(mac[o + 2], 8) + ToBits(mac[o + 3], 8)
  }

  lemma JoinBytes(b: int, x: seq<bit>, b1: byte, b2: byte, b3: byte)
    requires |x| == 8 && x[0] == 0 && Word(b) == Zeros(24) + x
    ensures
      var y, z, w := ToBits(b1, 8), ToBits(b2, 8), ToBits(b3, 8);
      Or(Or(Or(Shl(b, 24), Shl(b1, 16)), Shl(b2, 8)), b3) == FromBits(x + y + z + w)
  {
    ByteWord(b1);
    ByteWord(b2);
    ByteWord(b3);
    hide *;
    var y, z, w := ToBits(b1, 8), ToBits(b2, 8), ToBits(b3, 8);
    ShiftedByte(b, x, 24);
    ShiftedByte(b1, y, 16);
    ShiftedByte(b2, z, 8);
    JoinBits(x, y, z, w);
    assert Zeros(0) + x + Zeros(24) == x + Zeros(24);
    var c := Or(Shl(b, 24), Shl(b1, 16));
    OrWords(Shl(b, 24), Shl(b1, 16), x + y + Zeros(16));
    OrWords(c, Shl(b2, 8), x + y + z + Zeros(8));
    OrWords(Or(c, Shl(b2, 8)), b3, x + y + z + w);
  }

  lemma TruncateBits(mac: Mac)
    ensures Truncate(mac) == FromBits(Code31(mac))
  {
    hide ToBits, FromBits, And, Or, Shl, Word;
    var o := Offset(mac);
    var x := [0] + ToBits(mac[o], 8)[1..];
    MaskedByte(mac[o]);
    JoinBytes(And(mac[o], 0x7f), x, mac[o + 1], mac[o + 2], mac[o + 3]);
    assert x + ToBits(mac[o + 1], 8) + ToBits(mac[o + 2], 8) + ToBits(mac[o + 3], 8) == Zeros(1) + Code31(mac);
    FromBitsPadded(1, Code31(mac));
  }

  lemma BigEndianLast(bs: seq<byte>, b: byte)
    ensures BigEndian(bs + [b]) == 256 * BigEndian(bs) + b
  {
    assert (bs + [b])[..|bs|] == bs;
  }

  lemma OneByte(b: byte)
    ensures ByteBits([b]) == ToBits(b, 8) && FromBits(ToBits(b, 8)) == b
  {
    assert [b][1..] == [];
    assert Pow2(8) == 256 by { Pow2Values(); }
    FromToBitsSmall(b, 8);
  }

  lemma AppendByte(s: seq<bit>, b: byte)
    ensures FromBits(s + ToBits(b, 8)) == 256 * FromBits(s) + b
  {
    OneByte(b);
    assert Pow2(8) == 256 by { Pow2Values(); }
    hide *;
    FromBitsConcat(s, ToBits(b, 8));
    assert FromBits(s) * Pow2(8) == 256 * FromBits(s);
  }

  lemma {:induction false} BigEndianBits(bs: seq<byte>)
    ensures FromBits(ByteBits(bs)) == BigEndian(bs)
  {
    if bs != [] {
      var bs', b := bs[..|bs| - 1], bs[|bs| - 1];
      BigEndianBits(bs');
      hide *;
      OneByte(b);
      ByteBitsConcat(bs', [b]);
      assert bs == bs' + [b];
      AppendByte(ByteBits(bs'), b);
      BigEndianLast(bs', b);
    }
  }

  lemma FourBytes(b0: byte, b1: byte, b2: byte, b3: byte)
    ensures ByteBits([b0, b1, b2, b3]) == ToBits(b0, 8) + ToBits(b1, 8) + ToBits(b2, 8) + ToBits(b3, 8)
  {
    assert [b0, b1, b2, b3][1..] == [b1, b2, b3] && [b1, b2, b3][1..] == [b2, b3];
    assert [b2, b3][1..] == [b3] && [b3][1..] == [];
    assert ByteBits([b3]) == ToBits(b3, 8);
    assert ByteBits([b2, b3]) == ToBits(b2, 8) + ToBits(b3, 8);
  }

  lemma DropTopBit(s: seq<bit>)
    requires |s| == 32
    ensures FromBits(s[1..]) == FromBits(s) % 0x8000_0000
  {
    hide *;
    assert Pow2(31) == 0x8000_0000 by { Pow2Values(); }
    assert s == [s[0]] + s[1..];
    OneBit(s[0]);
    FromBitsConcat([s[0]], s[1..]);
    DivModUnique(FromBits(s), 0x8000_0000, s[0], FromBits(s[1..]));
  }

  lemma OneBit(x: bit)
    ensures FromBits([x]) == x
  {
    assert [x][..0] == [];
  }

  lemma DropTopByteBit(b0: byte, b1: byte, b2: byte, b3: byte)
    ensures FromBits(ToBits(b0, 8)[1..] + ToBits(b1, 8) + ToBits(b2, 8) + ToBits(b3, 8))
      == BigEndian([b0, b1, b2, b3]) % 0x8000_0000
  {
    FourBytes(b0, b1, b2, b3);
    hide *;
    var s := ByteBits([b0, b1, b2, b3]);
    assert s[1..] == ToBits(b0, 8)[1..] + ToBits(b1, 8) + ToBits(b2, 8) + ToBits(b3, 8);
    DropTopBit(s);
    BigEndianBits([b0, b1, b2, b3]);
  }

  /** Section 5.3 of RFC 4226: the four bytes at the offset, big-endian, with the top bit cleared;
      the signed shifts and ors never produce a negative number. */
  lemma TruncateIsRfc(mac: Mac)
    ensures
      var o := mac[19] % 16;
      Truncate(mac) == BigEndian(mac[o..o + 4]) % 0x8000_0000
  {
    hide ToBits, FromBits, Truncate, BigEndian;
    var o := Offset(mac);
    TruncateBits(mac);
    assert mac[o..o + 4] == [mac[o], mac[o + 1], mac[o + 2], mac[o + 3]];
    DropTopByteBit(mac[o], mac[o + 1], mac[o + 2], mac[o + 3]);
  }

  predicate SixDigits(code: string) {
    |code| == 6 && AllDigits(code)
  }

  lemma Pow10At6()
    ensures Pow10(6) == 1000000
  {
    assert Pow10(3) == 1000;
  }

  lemma SixDigitCode(n: nat)
    requires n < 1000000
    ensures SixDigits(PadStart(Decimal(n), 6, '0'))
    ensures DecimalValue(PadStart(Decimal(n), 6, '0')) == n
  {
    hide Decimal, DecimalValue;
    var s := Decimal(n);
    Pow10At6();
    hide Pow10;
    DecimalRoundTrip(n, 6);
    DecimalPadding(6 - |s|, s);
    assert seq(0, _ => '0') + s == s;
  }

  /** totp(secret, nowMs): six digits that write, modulo a million, the truncated HMAC of the time step
      under the decoded key; a secret that is not base32 is refused. */
  method Totp(secret: string, nowMs: int, hmac: (seq<byte>, seq<byte>) -> Mac) returns (r: Result<string, string>)
    ensures r.Failure? <==> Base32.Decode(secret).Failure?
    ensures r.Success? ==> SixDigits(r.value) && exists counter: seq<byte> ::
      |counter| == 8 && BigEndian(counter) == Steps(nowMs) % 0x1_0000_0000_0000_0000
      && var mac := hmac(Base32.Decode(secret).value, counter);
         var o := mac[19] % 16;
         DecimalValue(r.value) == BigEndian(mac[o..o + 4]) % 0x8000_0000 % 1000000
  {
    hide *;
    var counter := CounterBytes(nowMs);
    var key := Base32.Base32Bytes(secret);
    if key.Failure? {
      return Failure(key.error);
    }
    var mac := hmac(key.value, counter);
    TruncateIsRfc(mac);
    var n: nat := Truncate(mac);
    SixDigitCode(n % 1000000);
    r := Success(PadStart(Decimal(n % 1000000), 6, '0'));
  }
}
