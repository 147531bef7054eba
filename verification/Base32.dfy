/** The base32 secret decoder of the month-end driver, against the encoder of section 6 of RFC 4648. */
module Base32 {
  import opened Wrappers
  import opened Bits

  const ALPHABET: string := "ABCDEFGHIJKLMNOPQRSTUVWXYZ234567"

  /** JavaScript's \s, and the padding sign: what replace(/[\s=]/g, "") removes. */
  predicate Ignored(c: char) {
    c == '=' || c == ' ' || '\U{9}' <= c <= '\U{D}' || c == '\U{A0}' || c == '\U{1680}'
    || '\U{2000}' <= c <= '\U{200A}' || c == '\U{2028}' || c == '\U{2029}' || c == '\U{202F}'
    || c == '\U{205F}' || c == '\U{3000}' || c == '\U{FEFF}'
  }

  /** What toUpperCase makes of one character. Beside a to z these are all the characters whose upper case lies
      in the alphabet: dotless i, long s, sharp s and the Latin ligatures. Any other character is left as it is
      here; its upper case holds a character outside the alphabet as well. */
  function Upper(c: char): string {
    if 'a' <= c <= 'z' then [c - 'a' + 'A']
    else if c == '\U{131}' then "I"
    else if c == '\U{17F}' then "S"
    else if c == '\U{DF}' then "SS"
    else if c == '\U{FB00}' then "FF"
    else if c == '\U{FB01}' then "FI"
    else if c == '\U{FB02}' then "FL"
    else if c == '\U{FB03}' then "FFI"
    else if c == '\U{FB04}' then "FFL"
    else if c == '\U{FB05}' || c == '\U{FB06}' then "ST"
    else [c]
  }

  /** alphabet.indexOf(c), -1 when absent. */
  function IndexOf(c: char): (v: int)
    ensures -1 <= v < 32
    ensures 0 <= v ==> ALPHABET[v] == c
  {
    if 'A' <= c <= 'Z' then (c - 'A') as int
    else if '2' <= c <= '7' then (c - '2') as int + 26
    else -1
  }

  /** IndexOf is alphabet.indexOf: it inverts the alphabet and misses nothing in it. */
  lemma IndexOfInverts(v: nat)
    requires v < 32
    ensures IndexOf(ALPHABET[v]) == v
  {
    if v < 26 {
      assert ALPHABET[v] == 'A' + v as char;
    } else {
      assert ALPHABET[v] == '2' + (v - 26) as char;
    }
  }

  function Clean(secret: string): string {
    if secret == [] then []
    else if Ignored(secret[0]) then Clean(secret[1..])
    else Upper(secret[0]) + Clean(secret[1..])
  }

  predicate InAlphabet(symbols: string) {
    forall i :: 0 <= i < |symbols| ==> IndexOf(symbols[i]) >= 0
  }

  function SymbolBits(symbols: string): (s: seq<bit>)
    requires InAlphabet(symbols)
    ensures |s| == 5 * |symbols|
  {
    if symbols == [] then [] else SymbolBits(symbols[..|symbols| - 1]) + ToBits(IndexOf(symbols[|symbols| - 1]), 5)
  }

  /** The whole bytes in a bit string; a partial last byte is dropped. */
  function WholeBytes(bits: seq<bit>): (bs: seq<byte>)
    ensures |bs| == |bits| / 8
    ensures forall i :: 0 <= i < |bs| ==> bs[i] == FromBits(bits[8 * i..8 * i + 8])
  {
    seq(|bits| / 8, i requires 0 <= i < |bits| / 8 => ByteAt(bits, i))
  }

  function ByteAt(bits: seq<bit>, i: nat): byte
    requires 8 * i + 8 <= |bits|
  {
    assert Pow2(8) == 256 by { Pow2Values(); }
    FromBits(bits[8 * i..8 * i + 8])
  }

  /** What base32Bytes answers for a secret. */
  function Decode(secret: string): Result<seq<byte>, string> {
    if InAlphabet(Clean(secret)) then Success(WholeBytes(SymbolBits(Clean(secret))))
    else Failure("TOTP secret is not base32")
  }

  method Base32Bytes(secret: string) returns (r: Result<seq<byte>, string>)
    ensures r == Decode(secret)
  {
    hide ToBits, IndexOf, Clean, SymbolBits, WholeBytes, FromBits, Pow2;
    var bits: seq<bit> := [];
    NoSymbols();
    var symbols := Clean(secret);
    for i := 0 to |symbols|
      invariant InAlphabet(symbols[..i])
      invariant bits == SymbolBits(symbols[..i])
    {
      var v := IndexOf(symbols[i]);
      if v < 0 {
        return Failure("TOTP secret is not base32");
      }
      assert symbols[..i + 1] == symbols[..i] + [symbols[i]];
      SymbolBitsLast(symbols[..i], symbols[i]);
      bits := bits + ToBits(v, 5);
    }
    assert symbols[..|symbols|] == symbols;
    var out := new byte[|bits| / 8](_ => 0);
    for i := 0 to out.Length
      invariant forall j :: 0 <= j < i ==> out[j] == ByteAt(bits, j)
    {
      out[i] := ByteAt(bits, i);
    }
    BytesOf(bits, out[..]);
    r := Success(out[..]);
  }

  lemma BytesOf(bits: seq<bit>, bs: seq<byte>)
    requires |bs| == |bits| / 8 && forall j :: 0 <= j < |bs| ==> bs[j] == ByteAt(bits, j)
    ensures bs == WholeBytes(bits)
  {
    hide ByteAt;
  }

  // --- The encoder of section 6 of RFC 4648 ---

  /** Zero bits that complete n bits to whole 5-bit groups. */
  function Fill(n: nat): (k: nat)
    ensures k < 5 && (n + k) % 5 == 0
  {
    var over := n % 5;
    if over == 0 then 0
    else
      assert n + (5 - over) == 5 * (n / 5 + 1);
      5 - over
  }

  function Symbols(bits: seq<bit>, n: nat): (s: string)
    requires |bits| == 5 * n
    ensures |s| == n
    decreases n
  {
    if n == 0 then []
    else Symbols(bits[..5 * (n - 1)], n - 1) + [ALPHABET[FiveBits(bits[5 * (n - 1)..])]]
  }

  function FiveBits(s: seq<bit>): (v: nat)
    requires |s| == 5
    ensures v < 32 && v == FromBits(s)
  {
    assert Pow2(5) == 32 by { Pow2Values(); }
    FromBits(s)
  }

  /** One quantum's bits, filled with zeros to whole symbols. */
  function QuantumBits(q: seq<byte>): (bits: seq<bit>)
    ensures |bits| % 5 == 0
  {
    ByteBits(q) + Zeros(Fill(8 * |q|))
  }

  /** One quantum: one to five bytes become eight characters, '=' filling the missing ones. */
  function EncodeQuantum(q: seq<byte>): string
    requires 1 <= |q| <= 5
  {
    var s := Symbols(QuantumBits(q), |QuantumBits(q)| / 5);
    s + seq(8 - |s|, _ => '=')
  }

  function Encode(bs: seq<byte>): string {
    if bs == [] then []
    else if |bs| <= 5 then EncodeQuantum(bs)
    else EncodeQuantum(bs[..5]) + Encode(bs[5..])
  }

  // --- Lemmas ---

  lemma {:induction false} CleanConcat(a: string, b: string)
    ensures Clean(a + b) == Clean(a) + Clean(b)
  {
    if a == [] {
      assert a + b == b;
    } else {
      assert (a + b)[1..] == a[1..] + b;
      CleanConcat(a[1..], b);
    }
  }

  lemma SymbolBitsLast(s: string, c: char)
    requires InAlphabet(s) && IndexOf(c) >= 0
    ensures InAlphabet(s + [c]) && SymbolBits(s + [c]) == SymbolBits(s) + ToBits(IndexOf(c), 5)
  {
    assert (s + [c])[..|s|] == s;
  }

  lemma {:induction false} SymbolBitsConcat(a: string, b: string)
    requires InAlphabet(a) && InAlphabet(b)
    ensures InAlphabet(a + b) && SymbolBits(a + b) == SymbolBits(a) + SymbolBits(b)
  {
    hide *;
    if b == [] {
      assert a + b == a;
      NoSymbols();
    } else {
      var b', c := b[..|b| - 1], b[|b| - 1];
      assert a + b == (a + b') + [c] && b == b' + [c];
      InAlphabetLast(b', c);
      SymbolBitsConcat(a, b');
      SymbolBitsLast(a + b', c);
      SymbolBitsLast(b', c);
    }
  }

  lemma InAlphabetLast(s: string, c: char)
    requires InAlphabet(s + [c])
    ensures InAlphabet(s) && IndexOf(c) >= 0
  {
    hide IndexOf;
    var t := s + [c];
    assert t[|s|] == c;
    assert forall i :: 0 <= i < |s| ==> t[i] == s[i];
  }

  lemma SymbolOf(five: seq<bit>)
    requires |five| == 5
    ensures
      var c := ALPHABET[FiveBits(five)];
      IndexOf(c) >= 0 && ToBits(IndexOf(c), 5) == five && Clean([c]) == [c]
  {
    IndexOfInverts(FiveBits(five));
    ToFromBits(five);
    var c := ALPHABET[FiveBits(five)];
    assert [c][1..] == [];
  }

  /** One more symbol after symbols that already carry their bits. */
  lemma SymbolsStep(rest: seq<bit>, five: seq<bit>, s: string)
    requires |five| == 5 && InAlphabet(s) && SymbolBits(s) == rest && Clean(s) == s
    ensures
      var t := s + [ALPHABET[FiveBits(five)]];
      InAlphabet(t) && SymbolBits(t) == rest + five && Clean(t) == t
  {
    hide ToBits, IndexOf, FiveBits, SymbolBits, Clean;
    var c := ALPHABET[FiveBits(five)];
    SymbolOf(five);
    SymbolBitsLast(s, c);
    CleanConcat(s, [c]);
  }

  lemma SymbolsUnfold(rest: seq<bit>, five: seq<bit>, n: nat)
    requires |rest| == 5 * n && |five| == 5
    ensures Symbols(rest + five, n + 1) == Symbols(rest, n) + [ALPHABET[FiveBits(five)]]
  {
    assert (rest + five)[..5 * n] == rest && (rest + five)[5 * n..] == five;
  }

  lemma NoSymbols()
    ensures Symbols([], 0) == [] && InAlphabet([]) && SymbolBits([]) == [] && Clean([]) == []
  {
  }

  lemma {:induction false} SymbolsInvert(bits: seq<bit>, n: nat)
    requires |bits| == 5 * n
    ensures InAlphabet(Symbols(bits, n)) && SymbolBits(Symbols(bits, n)) == bits
    ensures Clean(Symbols(bits, n)) == Symbols(bits, n)
  {
    hide *;
    if n == 0 {
      NoSymbols();
    } else {
      var rest, five := bits[..5 * (n - 1)], bits[5 * (n - 1)..];
      SymbolsInvert(rest, n - 1);
      SymbolsStep(rest, five, Symbols(rest, n - 1));
      SymbolsUnfold(rest, five, n - 1);
      assert bits == rest + five;
    }
  }

  lemma {:induction false} CleanPadding(n: nat)
    ensures Clean(seq(n, _ => '=')) == []
  {
    if n > 0 {
      assert seq(n, _ => '=')[1..] == seq(n - 1, _ => '=');
      CleanPadding(n - 1);
    }
  }

  lemma QuantumSymbols(q: seq<byte>)
    requires 1 <= |q| <= 5
    ensures InAlphabet(Clean(EncodeQuantum(q)))
    ensures SymbolBits(Clean(EncodeQuantum(q))) == QuantumBits(q)
  {
    hide InAlphabet, SymbolBits, Clean, Symbols, ByteBits, ToBits;
    var n := |QuantumBits(q)| / 5;
    var s := Symbols(QuantumBits(q), n);
    SymbolsInvert(QuantumBits(q), n);
    CleanConcat(s, seq(8 - |s|, _ => '='));
    CleanPadding(8 - |s|);
    assert Clean(s) + [] == s;
  }

  lemma FullQuantum(q: seq<byte>)
    requires |q| == 5
    ensures QuantumBits(q) == ByteBits(q)
  {
    assert Fill(8 * |q|) == 0;
  }

  lemma FillShift(n: nat)
    ensures Fill(n + 40) == Fill(n)
  {
  }

  /** The symbols of an encoding carry the bytes' bits, then fewer than five zero bits. */
  lemma {:induction false} EncodingBits(bs: seq<byte>)
    ensures InAlphabet(Clean(Encode(bs)))
    ensures SymbolBits(Clean(Encode(bs))) == QuantumBits(bs)
  {
    hide *;
    if bs == [] {
      NothingEncoded();
    } else if |bs| <= 5 {
      OneQuantum(bs);
      QuantumSymbols(bs);
    } else {
      var q, rest := bs[..5], bs[5..];
      EncodeFirst(bs);
      QuantumSymbols(q);
      EncodingBits(rest);
      CleanConcat(EncodeQuantum(q), Encode(rest));
      SymbolBitsConcat(Clean(EncodeQuantum(q)), Clean(Encode(rest)));
      assert q + rest == bs;
      QuantumFirst(q, rest);
    }
  }

  lemma OneQuantum(bs: seq<byte>)
    requires 1 <= |bs| <= 5
    ensures Encode(bs) == EncodeQuantum(bs)
  {
    hide EncodeQuantum;
  }

  lemma EncodeFirst(bs: seq<byte>)
    requires |bs| > 5
    ensures Encode(bs) == EncodeQuantum(bs[..5]) + Encode(bs[5..])
  {
    hide EncodeQuantum;
  }

  lemma NothingEncoded()
    ensures InAlphabet(Clean(Encode([]))) && SymbolBits(Clean(Encode([]))) == QuantumBits([])
  {
  }

  lemma QuantumFirst(q: seq<byte>, rest: seq<byte>)
    requires |q| == 5
    ensures QuantumBits(q + rest) == QuantumBits(q) + QuantumBits(rest)
  {
    hide ByteBits;
    FullQuantum(q);
    ByteBitsConcat(q, rest);
    FillShift(8 * |rest|);
  }

  lemma WholeBytesOfBits(bs: seq<byte>, tail: seq<bit>)
    requires |tail| < 8
    ensures WholeBytes(ByteBits(bs) + tail) == bs
  {
    hide *;
    var bits := ByteBits(bs) + tail;
    forall i | 0 <= i < |bs|
      ensures WholeBytes(bits)[i] == bs[i]
    {
      ByteBitsAt(bs, i);
      assert bits[8 * i..8 * i + 8] == ByteBits(bs)[8 * i..8 * i + 8];
      assert Pow2(8) == 256 by { Pow2Values(); }
      FromToBitsSmall(bs[i], 8);
    }
  }

  /** Decoding the RFC 4648 encoding of any bytes gives those bytes. */
  lemma RoundTrip(bs: seq<byte>)
    ensures Decode(Encode(bs)) == Success(bs)
  {
    EncodingBits(bs);
    WholeBytesOfBits(bs, Zeros(Fill(8 * |bs|)));
  }

  /** The character stands in the alphabet once in upper case. */
  predicate Spells(c: char) {
    forall u :: u in Upper(c) ==> u in ALPHABET
  }

  /** Decoding fails exactly on a character that is not ignored and does not upper-case into the alphabet;
      otherwise n symbols give floor(5n/8) bytes. */
  lemma DecodeOutcome(secret: string)
    ensures Decode(secret).Failure? <==> exists i :: 0 <= i < |secret| && !Ignored(secret[i]) && !Spells(secret[i])
    ensures Decode(secret).Success? ==> |Decode(secret).value| == 5 * |Clean(secret)| / 8
  {
    CleanInAlphabet(secret);
  }

  lemma IndexInAlphabet(c: char)
    ensures IndexOf(c) >= 0 <==> c in ALPHABET
  {
    if c in ALPHABET {
      var v :| 0 <= v < |ALPHABET| && ALPHABET[v] == c;
      IndexOfInverts(v);
    }
  }

  lemma InAlphabetConcat(a: string, b: string)
    ensures InAlphabet(a + b) <==> InAlphabet(a) && InAlphabet(b)
  {
    assert forall i :: 0 <= i < |a| ==> (a + b)[i] == a[i];
    assert forall i :: 0 <= i < |b| ==> (a + b)[|a| + i] == b[i];
  }

  lemma SpellsInAlphabet(c: char)
    ensures InAlphabet(Upper(c)) <==> Spells(c)
  {
    var u := Upper(c);
    hide Upper;
    forall i | 0 <= i < |u|
      ensures IndexOf(u[i]) >= 0 <==> u[i] in ALPHABET
    {
      IndexInAlphabet(u[i]);
    }
  }

  lemma {:induction false} CleanInAlphabet(secret: string)
    ensures InAlphabet(Clean(secret)) <==> forall i :: 0 <= i < |secret| && !Ignored(secret[i]) ==> Spells(secret[i])
  {
    if secret != [] {
      CleanInAlphabet(secret[1..]);
      SpellsInAlphabet(secret[0]);
      InAlphabetConcat(Upper(secret[0]), Clean(secret[1..]));
      assert forall i :: 0 < i < |secret| ==> secret[i] == secret[1..][i - 1];
      hide InAlphabet, Ignored, Spells, Upper;
    }
  }

  /** Writing upper case instead, or inserting ignored characters, changes nothing. */
  lemma DecodeIgnoresLayout(before: string, c: char, after: string)
    ensures Decode(before + [c] + after) == Decode(before + (if Ignored(c) then [] else Upper(c)) + after)
  {
    var kept := if Ignored(c) then [] else Upper(c);
    CleanConcat(before + [c], after);
    CleanConcat(before, [c]);
    CleanConcat(before + kept, after);
    CleanConcat(before, kept);
    assert Clean([c]) == kept;
    if !Ignored(c) {
      UpperTwice(c);
    }
  }

  /** Upper case is its own upper case, and is never ignored. */
  lemma UpperTwice(c: char)
    requires !Ignored(c)
    ensures Clean(Upper(c)) == Upper(c)
  {
    forall u | u in Upper(c)
      ensures !Ignored(u) && Upper(u) == [u]
    {
      hide ALPHABET;
    }
    CleanStays(Upper(c));
  }

  lemma {:induction false} CleanStays(s: string)
    requires forall u :: u in s ==> !Ignored(u) && Upper(u) == [u]
    ensures Clean(s) == s
  {
    hide Ignored, Upper;
    if s != [] {
      CleanStays(s[1..]);
      assert s == [s[0]] + s[1..];
    }
  }

  lemma SymbolFromBits(c: char, d: char)
    requires IndexOf(c) >= 0 && IndexOf(d) >= 0 && ToBits(IndexOf(c), 5) == ToBits(IndexOf(d), 5)
    ensures c == d
  {
    assert Pow2(5) == 32 by { Pow2Values(); }
    FromToBitsSmall(IndexOf(c), 5);
    FromToBitsSmall(IndexOf(d), 5);
  }

  lemma SplitEqual<T>(a: seq<T>, b: seq<T>, c: seq<T>, d: seq<T>)
    requires |b| == |d| && a + b == c + d
    ensures a == c && b == d
  {
    assert |a| == |c|;
    assert a == (a + b)[..|a|] && c == (c + d)[..|c|];
    assert b == (a + b)[|a|..] && d == (c + d)[|c|..];
  }

  lemma {:induction false} SymbolBitsInjective(a: string, b: string)
    requires InAlphabet(a) && InAlphabet(b) && SymbolBits(a) == SymbolBits(b)
    ensures a == b
  {
    hide ToBits, IndexOf;
    assert 5 * |a| == 5 * |b|;
    if a != [] {
      var a', b' := a[..|a| - 1], b[..|b| - 1];
      var c, d := a[|a| - 1], b[|b| - 1];
      SplitEqual(SymbolBits(a'), ToBits(IndexOf(c), 5), SymbolBits(b'), ToBits(IndexOf(d), 5));
      SymbolBitsInjective(a', b');
      SymbolFromBits(c, d);
      assert a == a' + [c] && b == b' + [d];
    }
  }

  lemma {:induction false} BitsOfWholeBytes(bits: seq<bit>)
    ensures ByteBits(WholeBytes(bits)) == bits[..|bits| - |bits| % 8]
    decreases |bits|
  {
    if |bits| < 8 {
      assert WholeBytes(bits) == [];
      assert ByteBits([]) == [];
    } else {
      var first, rest := bits[..8], bits[8..];
      BitsOfWholeBytes(rest);
      FirstByte(first, rest);
      assert bits == first + rest;
      hide *;
      var whole := |rest| - |rest| % 8;
      ShiftMod(|bits|);
      assert first + rest[..whole] == bits[..8 + whole];
    }
  }

  lemma ShiftMod(n: nat)
    requires n >= 8
    ensures n % 8 == (n - 8) % 8
  {
  }

  /** The bytes of a bit string begin with that of its first eight bits. */
  lemma FirstByte(first: seq<bit>, rest: seq<bit>)
    requires |first| == 8
    ensures ByteBits(WholeBytes(first + rest)) == first + ByteBits(WholeBytes(rest))
  {
    hide FromBits, ToBits, ByteAt;
    var bits := first + rest;
    var bs := WholeBytes(bits);
    assert bits[8 * 0..8 * 0 + 8] == first;
    forall i | 0 <= i < |rest| / 8
      ensures bs[i + 1] == WholeBytes(rest)[i]
    {
      assert rest[8 * i..8 * i + 8] == bits[8 * (i + 1)..8 * (i + 1) + 8];
    }
    hide WholeBytes;
    assert bs[1..] == WholeBytes(rest);
    ToFromBits(first);
  }

  /** The bits of a decoded secret that do not make a whole byte. */
  function Leftover(secret: string): seq<bit>
    requires Decode(secret).Success?
  {
    var bits := SymbolBits(Clean(secret));
    bits[|bits| - |bits| % 8..]
  }

  /** The other direction: re-encoding a decoded secret gives its symbols back exactly when the
      bits left over after the last whole byte are fewer than five and all zero. */
  lemma ReencodeExact(secret: string)
    requires Decode(secret).Success?
    ensures Clean(Encode(Decode(secret).value)) == Clean(secret)
      <==> |Leftover(secret)| < 5 && Leftover(secret) == Zeros(|Leftover(secret)|)
  {
    hide SymbolBits, IndexOf, ByteBits, Symbols, Encode, Clean;
    var symbols := Clean(secret);
    var bits := SymbolBits(symbols);
    var left := Leftover(secret);
    var bs := WholeBytes(bits);
    var k := Fill(8 * |bs|);
    BitsOfWholeBytes(bits);
    EncodingBits(bs);
    assert bits == ByteBits(bs) + left;
    if |left| < 5 {
      FillUnique(8 * |bs|, |left|, |symbols|);
    }
    if left == Zeros(k) {
      SymbolBitsInjective(Clean(Encode(bs)), symbols);
    }
    if Clean(Encode(bs)) == symbols {
      assert ByteBits(bs) + Zeros(k) == ByteBits(bs) + left;
      assert k == |left|;
      SplitEqual(ByteBits(bs), Zeros(k), ByteBits(bs), left);
    }
  }

  lemma FillUnique(n: nat, k: nat, m: nat)
    requires k < 5 && n + k == 5 * m
    ensures k == Fill(n)
  {
  }
}
