/** Go's unicode/utf8 on byte strings, which shell quoting is written against. */
module Utf8 {

  /** A byte, written as the character with its value. */
  type Byte = c: char | c < 256 as char

  type Bytes = seq<Byte>

  const RUNE_ERROR := 0xFFFD

  datatype Decoded = Decoded(rune: nat, size: nat)

  function Val(c: Byte): (n: nat)
    ensures n < 256
  {
    c as nat
  }

  predicate Continues(c: Byte) { 0x80 <= Val(c) <= 0xBF }

  /** The range of the second byte after the lead byte b, for three- and four-byte sequences. */
  predicate SecondFits(b: Byte, c: Byte) {
    && Continues(c)
    && (Val(b) == 0xE0 ==> Val(c) >= 0xA0)
    && (Val(b) == 0xED ==> Val(c) <= 0x9F)
    && (Val(b) == 0xF0 ==> Val(c) >= 0x90)
    && (Val(b) == 0xF4 ==> Val(c) <= 0x8F)
  }

  /** utf8.DecodeRuneInString: the first rune and its width, or (RUNE_ERROR, 1). */
  function DecodeRune(s: Bytes): (d: Decoded)
    requires |s| > 0
    ensures 1 <= d.size <= |s| && d.size <= 4
    ensures d.rune < 0x80 <==> Val(s[0]) < 0x80
    ensures d.rune < 0x80 ==> d.size == 1 && d.rune == Val(s[0])
  {
    var b := Val(s[0]);
    if b < 0x80 then Decoded(b, 1)
    else if 0xC2 <= b <= 0xDF && |s| >= 2 && Continues(s[1]) then
      Decoded((b - 0xC0) * 64 + (Val(s[1]) - 0x80), 2)
    else if 0xE0 <= b <= 0xEF && |s| >= 3 && SecondFits(s[0], s[1]) && Continues(s[2]) then
      Decoded((b - 0xE0) * 4096 + (Val(s[1]) - 0x80) * 64 + (Val(s[2]) - 0x80), 3)
    else if 0xF0 <= b <= 0xF4 && |s| >= 4 && SecondFits(s[0], s[1]) && Continues(s[2]) && Continues(s[3]) then
      Decoded((b - 0xF0) * 262144 + (Val(s[1]) - 0x80) * 4096 + (Val(s[2]) - 0x80) * 64 + (Val(s[3]) - 0x80), 4)
    else Decoded(RUNE_ERROR, 1)
  }

  function Chr(n: nat): Byte
    requires n < 256
  {
    n as char
  }

  /** utf8.AppendRune for the runes DecodeRune yields. */
  function EncodeRune(r: nat): Bytes
    requires r < 0x110000
  {
    if r < 0x80 then [Chr(r)]
    else if r < 0x800 then [Chr(0xC0 + r / 64), Chr(0x80 + r % 64)]
    else if r < 0x10000 then [Chr(0xE0 + r / 4096), Chr(0x80 + r / 64 % 64), Chr(0x80 + r % 64)]
    else [Chr(0xF0 + r / 262144), Chr(0x80 + r / 4096 % 64), Chr(0x80 + r / 64 % 64), Chr(0x80 + r % 64)]
  }

  predicate Invalid(d: Decoded) {
    d.rune == RUNE_ERROR && d.size == 1
  }

  lemma Base64(h: nat, l: nat)
    requires l < 64
    ensures (h * 64 + l) / 64 == h && (h * 64 + l) % 64 == l
  {
  }

  lemma ThreeDigits(x: nat, y: nat, z: nat)
    requires y < 64 && z < 64
    ensures var r := x * 4096 + y * 64 + z;
            r / 4096 == x && r / 64 == x * 64 + y && r / 64 % 64 == y && r % 64 == z
  {
    Base64(x * 64 + y, z);
    Base64(x, y);
  }

  lemma FourDigits(w: nat, x: nat, y: nat, z: nat)
    requires x < 64 && y < 64 && z < 64
    ensures var r := w * 262144 + x * 4096 + y * 64 + z;
            r / 262144 == w && r / 4096 % 64 == x && r / 64 % 64 == y && r % 64 == z
  {
    ThreeDigits(w * 64 + x, y, z);
    Base64(w, x);
    var r := w * 262144 + x * 4096 + y * 64 + z;
    assert r == (w * 64 + x) * 4096 + y * 64 + z;
    assert r / 262144 == r / 4096 / 64;
  }

  lemma EncodeThree(s: Bytes)
    requires |s| > 0 && DecodeRune(s).size == 3
    ensures 0x800 <= DecodeRune(s).rune < 0x10000
    ensures EncodeRune(DecodeRune(s).rune) == [s[0], s[1], s[2]]
  {
    ThreeDigits(Val(s[0]) - 0xE0, Val(s[1]) - 0x80, Val(s[2]) - 0x80);
  }

  lemma EncodeFour(s: Bytes)
    requires |s| > 0 && DecodeRune(s).size == 4
    ensures 0x10000 <= DecodeRune(s).rune < 0x110000
    ensures EncodeRune(DecodeRune(s).rune) == [s[0], s[1], s[2], s[3]]
  {
    FourDigits(Val(s[0]) - 0xF0, Val(s[1]) - 0x80, Val(s[2]) - 0x80, Val(s[3]) - 0x80);
  }

  lemma EncodeTwo(s: Bytes)
    requires |s| > 0 && DecodeRune(s).size == 2
    ensures 0x80 <= DecodeRune(s).rune < 0x800
    ensures EncodeRune(DecodeRune(s).rune) == [s[0], s[1]]
  {
    Base64(Val(s[0]) - 0xC0, Val(s[1]) - 0x80);
  }

  /** A rune that decodes validly is written back as the bytes it came from. */
  lemma EncodeDecode(s: Bytes)
    requires |s| > 0 && !Invalid(DecodeRune(s))
    ensures DecodeRune(s).rune < 0x110000
    ensures EncodeRune(DecodeRune(s).rune) == s[..DecodeRune(s).size]
  {
    var d := DecodeRune(s);
    if d.size == 2 {
      EncodeTwo(s);
    } else if d.size == 3 {
      EncodeThree(s);
    } else if d.size == 4 {
      EncodeFour(s);
    }
  }

  lemma HighBytes(s: Bytes)
    requires |s| > 0
    ensures DecodeRune(s).rune >= 0x80 ==> forall i :: 0 <= i < DecodeRune(s).size ==> Val(s[i]) >= 0x80
  {
  }

  // --- strings of runes ---

  /** A Unicode scalar value. */
  predicate Scalar(r: nat) {
    r < 0x110000 && !(0xD800 <= r <= 0xDFFF)
  }

  type Rune = r: nat | Scalar(r)

  lemma DecodeTwo(r: nat, tail: Bytes)
    requires 0x80 <= r < 0x800
    ensures DecodeRune(EncodeRune(r) + tail) == Decoded(r, 2)
  {
    DivMod64(r);
  }

  lemma DecodeThree(r: nat, tail: Bytes)
    requires 0x800 <= r < 0x10000 && Scalar(r)
    ensures DecodeRune(EncodeRune(r) + tail) == Decoded(r, 3)
  {
    DivMod64(r);
    DivMod64(r / 64);
    assert r / 4096 == r / 64 / 64;
    var s := EncodeRune(r) + tail;
    assert Val(s[0]) == 0xE0 + r / 4096 && Val(s[1]) == 0x80 + r / 64 % 64 && Val(s[2]) == 0x80 + r % 64;
  }

  lemma DecodeFour(r: nat, tail: Bytes)
    requires 0x10000 <= r < 0x110000
    ensures DecodeRune(EncodeRune(r) + tail) == Decoded(r, 4)
  {
    DivMod64(r);
    DivMod64(r / 64);
    DivMod64(r / 64 / 64);
    assert r / 4096 == r / 64 / 64 && r / 262144 == r / 64 / 64 / 64;
    var s := EncodeRune(r) + tail;
    assert Val(s[0]) == 0xF0 + r / 262144 && Val(s[1]) == 0x80 + r / 4096 % 64;
    assert Val(s[2]) == 0x80 + r / 64 % 64 && Val(s[3]) == 0x80 + r % 64;
  }

  lemma DivMod64(r: nat)
    ensures r == r / 64 * 64 + r % 64 && r % 64 < 64
  {
  }

  /** An encoded scalar value decodes to itself, whatever follows it. */
  lemma DecodeEncode(r: nat, tail: Bytes)
    requires Scalar(r)
    ensures DecodeRune(EncodeRune(r) + tail) == Decoded(r, |EncodeRune(r)|)
    ensures !Invalid(DecodeRune(EncodeRune(r) + tail))
  {
    if r < 0x80 {
      assert (EncodeRune(r) + tail)[0] == Chr(r);
    } else if r < 0x800 {
      DecodeTwo(r, tail);
    } else if r < 0x10000 {
      DecodeThree(r, tail);
    } else {
      DecodeFour(r, tail);
    }
  }

  lemma DecodedIsScalar(s: Bytes)
    requires |s| > 0
    ensures Scalar(DecodeRune(s).rune)
  {
    var d := DecodeRune(s);
    if d.size == 4 {
      EncodeFour(s);
    } else if d.size == 3 {
      EncodeThree(s);
    }
  }
}
