/** What the bytes of a decoded secret are as a number, by the symbol values of section 6 of RFC 4648. */
module Base32Value {
  import opened Arithmetic
  import opened Base32
  import opened Bits
  import opened Totp

  /** Tab, line feed, vertical tab, form feed, carriage return, space and the padding sign. */
  predicate Layout(c: char) {
    c as int in {9, 10, 11, 12, 13, 32, 61}
  }

  /** A and a stand for 0, Z and z for 25, 2 for 26 and 7 for 31; any other character for nothing. */
  function SymbolValue(c: char): int {
    var code := c as int;
    if 65 <= code <= 90 then code - 65
    else if 97 <= code <= 122 then code - 97
    else if 50 <= code <= 55 then code - 24
    else -1
  }

  /** The symbols of a text as one number, most significant first, and how many they are. */
  function Number(text: string): int {
    if text == [] then 0
    else
      var before, last := Number(text[..|text| - 1]), text[|text| - 1];
      if Layout(last) then before else 32 * before + SymbolValue(last)
  }

  function Length(text: string): nat {
    if text == [] then 0
    else Length(text[..|text| - 1]) + if Layout(text[|text| - 1]) then 0 else 1
  }

  predicate Ascii(text: string) {
    forall i :: 0 <= i < |text| ==> text[i] as int < 128
  }

  predicate Readable(text: string) {
    forall i :: 0 <= i < |text| ==> Layout(text[i]) || SymbolValue(text[i]) >= 0
  }

  lemma OneCharacter(c: char)
    requires c as int < 128
    ensures Layout(c) ==> Clean([c]) == []
    ensures !Layout(c) ==> |Clean([c])| == 1
    ensures !Layout(c) && SymbolValue(c) >= 0 ==> IndexOf(Clean([c])[0]) == SymbolValue(c)
    ensures !Layout(c) && SymbolValue(c) < 0 ==> IndexOf(Clean([c])[0]) < 0
  {
    assert [c][1..] == [];
    assert Layout(c) <==> Ignored(c);
  }

  lemma AddSymbol(symbols: string, c: char)
    requires InAlphabet(symbols) && IndexOf(c) >= 0
    ensures InAlphabet(symbols + [c])
    ensures FromBits(SymbolBits(symbols + [c])) == 32 * FromBits(SymbolBits(symbols)) + IndexOf(c)
  {
    SymbolBitsLast(symbols, c);
    assert Pow2(5) == 32 by { Pow2Values(); }
    FromToBitsSmall(IndexOf(c), 5);
    hide *;
    FromBitsConcat(SymbolBits(symbols), ToBits(IndexOf(c), 5));
    assert FromBits(SymbolBits(symbols)) * Pow2(5) == 32 * FromBits(SymbolBits(symbols));
  }

  lemma {:induction false} CleanNumber(text: string)
    requires Ascii(text)
    ensures |Clean(text)| == Length(text) && (InAlphabet(Clean(text)) <==> Readable(text))
    ensures Readable(text) ==> FromBits(SymbolBits(Clean(text))) == Number(text)
  {
    hide Clean, IndexOf, SymbolBits, FromBits, Layout, SymbolValue, InAlphabet;
    if text == [] {
      NoSymbols();
      NoBits();
    } else {
      var init, c := text[..|text| - 1], text[|text| - 1];
      assert text == init + [c];
      CleanNumber(init);
      CleanConcat(init, [c]);
      OneCharacter(c);
      InAlphabetConcat(Clean(init), Clean([c]));
      OneInAlphabet(Clean([c]));
      ReadableLast(init, c);
      if Layout(c) {
        assert Clean(init) + [] == Clean(init);
      } else if Readable(text) {
        assert Clean([c]) == [Clean([c])[0]];
        AddSymbol(Clean(init), Clean([c])[0]);
      }
    }
  }

  lemma NoBits()
    ensures FromBits([]) == 0
  {
  }

  lemma OneInAlphabet(s: string)
    requires |s| <= 1
    ensures InAlphabet(s) <==> s == [] || IndexOf(s[0]) >= 0
  {
    hide IndexOf;
  }

  lemma ReadableLast(init: string, c: char)
    ensures Readable(init + [c]) <==> Readable(init) && (Layout(c) || SymbolValue(c) >= 0)
  {
    hide Layout, SymbolValue;
    var text := init + [c];
    assert text[|init|] == c;
    assert forall i :: 0 <= i < |init| ==> text[i] == init[i];
  }

  /** A secret of ASCII characters is decoded exactly when each is layout, a letter of either case or a digit from 2 to
      7; the n symbols then give floor(5n / 8) bytes, which write the number of the symbols without its last bits. */
  lemma DecodedNumber(secret: string)
    requires Ascii(secret)
    ensures Decode(secret).Success? <==> Readable(secret)
    ensures Readable(secret) ==>
      var n := Length(secret);
      var bytes := Decode(secret).value;
      |bytes| == 5 * n / 8 && BigEndian(bytes) == Number(secret) / Pow2(5 * n % 8)
  {
    CleanNumber(secret);
    hide Clean, IndexOf, SymbolBits, FromBits, Layout, SymbolValue, InAlphabet, Readable, Number, Length, WholeBytes,
         BigEndian, Pow2, Ascii;
    if Readable(secret) {
      BytesNumber(SymbolBits(Clean(secret)));
    }
  }

  lemma BytesNumber(bits: seq<bit>)
    ensures BigEndian(WholeBytes(bits)) == FromBits(bits) / Pow2(|bits| % 8)
  {
    hide *;
    var bytes, left := WholeBytes(bits), bits[|bits| - |bits| % 8..];
    BitsOfWholeBytes(bits);
    BigEndianBits(bytes);
    FromBitsConcat(ByteBits(bytes), left);
    assert bits == ByteBits(bytes) + left;
    WholePart(FromBits(bits), BigEndian(bytes), Pow2(|left|), FromBits(left));
  }

  lemma WholePart(v: int, q: int, p: int, r: int)
    requires p > 0 && 0 <= r < p && v == q * p + r
    ensures v / p == q
  {
    DivModUnique(v, p, q, r);
  }

  /** Characters beyond ASCII: white space is left out, ten characters spell symbols, and any other is refused. */
  lemma BeyondAscii(before: string, c: char, after: string)
    requires c as int >= 128
    ensures
      var given, code := Decode(before + [c] + after), c as int;
      if code in {0xA0, 0x1680, 0x2028, 0x2029, 0x202F, 0x205F, 0x3000, 0xFEFF} || 0x2000 <= code <= 0x200A then
        given == Decode(before + "" + after)
      else if code == 0x131 then given == Decode(before + "I" + after)
      else if code == 0x17F then given == Decode(before + "S" + after)
      else if code == 0xDF then given == Decode(before + "SS" + after)
      else if code == 0xFB00 then given == Decode(before + "FF" + after)
      else if code == 0xFB01 then given == Decode(before + "FI" + after)
      else if code == 0xFB02 then given == Decode(before + "FL" + after)
      else if code == 0xFB03 then given == Decode(before + "FFI" + after)
      else if code == 0xFB04 then given == Decode(before + "FFL" + after)
      else if code == 0xFB05 || code == 0xFB06 then given == Decode(before + "ST" + after)
      else given.Failure?
  {
    hide Decode, ALPHABET, Spells;
    DecodeIgnoresLayout(before, c, after);
    DecodeOutcome(before + [c] + after);
    assert (before + [c] + after)[|before|] == c;
    if !Ignored(c) && Upper(c) == [c] {
      NotSpelled(c);
    }
  }

  lemma NotSpelled(c: char)
    requires c as int >= 128 && Upper(c) == [c]
    ensures !Spells(c)
  {
    hide ALPHABET;
    IndexInAlphabet(c);
    assert c in Upper(c);
    hide Upper;
  }
}
