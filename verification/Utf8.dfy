/** UTF-8 as Go's unicode/utf8 decodes and encodes it. */
module Utf8 {
  type Byte = n: int | 0 <= n < 256
  type Bytes = seq<Byte>

  const RUNE_ERROR := 0xFFFD
  const MAX_RUNE := 0x10FFFF
  const RUNE_SELF := 0x80

  datatype Rune = Rune(r: int, size: nat)

  predicate Cont(b: Byte) {
    0x80 <= b < 0xC0
  }

  /** What the second byte of a three-byte sequence may be: no overlong forms, no surrogates. */
  predicate Second3(a: Byte, b: Byte) {
    if a == 0xE0 then 0xA0 <= b < 0xC0 else if a == 0xED then 0x80 <= b < 0xA0 else Cont(b)
  }

  predicate Second4(a: Byte, b: Byte) {
    if a == 0xF0 then 0x90 <= b < 0xC0 else if a == 0xF4 then 0x80 <= b < 0x90 else Cont(b)
  }

  const INVALID := Rune(RUNE_ERROR, 1)

  function Code(a: int, b: int, c: int, d: int): int {
    a * 262144 + b * 4096 + c * 64 + d
  }

  /** DecodeRune: the first rune and its size, or RuneError and 1. */
  function Decode(s: Bytes): (d: Rune)
    requires s != []
    ensures 1 <= d.size <= |s| && 0 <= d.r <= MAX_RUNE && !(0xD800 <= d.r < 0xE000)
    ensures d.r < RUNE_SELF ==> d.size == 1 && d.r == s[0]
  {
    var a := s[0];
    if a < 0x80 then Rune(a, 1)
    else if 0xC2 <= a < 0xE0 && |s| >= 2 && Cont(s[1]) then Rune(Code(0, 0, a - 0xC0, s[1] - 0x80), 2)
    else if 0xE0 <= a < 0xF0 && |s| >= 3 && Second3(a, s[1]) && Cont(s[2]) then
      Rune(Code(0, a - 0xE0, s[1] - 0x80, s[2] - 0x80), 3)
    else if 0xF0 <= a < 0xF5 && |s| >= 4 && Second4(a, s[1]) && Cont(s[2]) && Cont(s[3]) then
      Rune(Code(a - 0xF0, s[1] - 0x80, s[2] - 0x80, s[3] - 0x80), 4)
    else INVALID
  }

  /** EncodeRune; what is no code point is written as RuneError. */
  function Encode(r: int): (s: Bytes)
    ensures 1 <= |s| <= 4
  {
    if 0 <= r < 0x80 then [r]
    else if 0x80 <= r < 0x800 then [0xC0 + r / 64, 0x80 + r % 64]
    else if r < 0 || r > MAX_RUNE || 0xD800 <= r < 0xE000 then [0xEF, 0xBF, 0xBD]
    else if r < 0x10000 then [0xE0 + r / 4096, 0x80 + r / 64 % 64, 0x80 + r % 64]
    else [0xF0 + r / 262144, 0x80 + r / 4096 % 64, 0x80 + r / 64 % 64, 0x80 + r % 64]
  }

  predicate Bad(d: Rune) {
    d == INVALID
  }

  lemma Split(a: int, b: int, c: int, d: int)
    requires 0 <= a && 0 <= b < 64 && 0 <= c < 64 && 0 <= d < 64
    ensures var r := Code(a, b, c, d);
            r / 262144 == a && r / 4096 % 64 == b && r / 64 % 64 == c && r % 64 == d
  {
    var r := Code(a, b, c, d);
    assert r / 64 == (a * 64 + b) * 64 + c;
    assert r / 4096 == a * 64 + b;
  }

  lemma Encode2(a: int, b: int)
    requires 2 <= a < 32 && 0 <= b < 64
    ensures Encode(Code(0, 0, a, b)) == [0xC0 + a, 0x80 + b]
  {
    Split(0, 0, a, b);
  }

  lemma Encode3(a: int, b: int, c: int)
    requires 0 <= a < 16 && 0 <= b < 64 && 0 <= c < 64 && (a == 0 ==> b >= 32) && (a == 13 ==> b < 32)
    ensures Encode(Code(0, a, b, c)) == [0xE0 + a, 0x80 + b, 0x80 + c]
  {
    Split(0, a, b, c);
    assert Code(0, a, b, c) / 4096 == a;
  }

  lemma Encode4(a: int, b: int, c: int, d: int)
    requires 0 <= a < 5 && 0 <= b < 64 && 0 <= c < 64 && 0 <= d < 64 && (a == 0 ==> b >= 16) && (a == 4 ==> b < 16)
    ensures Encode(Code(a, b, c, d)) == [0xF0 + a, 0x80 + b, 0x80 + c, 0x80 + d]
  {
    Split(a, b, c, d);
  }

  /** A rune that decodes encodes back to the bytes it came from. */
  lemma DecodeEncode(s: Bytes)
    requires s != [] && !Bad(Decode(s))
    ensures Encode(Decode(s).r) == s[..Decode(s).size]
  {
    hide Encode, Code;
    var a, d := s[0], Decode(s);
    if d.size == 1 {
      Encode1(a);
      assert s[..1] == [a];
    } else if d.size == 2 {
      Encode2(a - 0xC0, s[1] - 0x80);
      assert s[..2] == [a, s[1]];
    } else if d.size == 3 {
      Encode3(a - 0xE0, s[1] - 0x80, s[2] - 0x80);
      assert s[..3] == [a, s[1], s[2]];
    } else {
      Encode4(a - 0xF0, s[1] - 0x80, s[2] - 0x80, s[3] - 0x80);
      assert s[..4] == [a, s[1], s[2], s[3]];
    }
  }

  lemma Encode1(a: int)
    requires 0 <= a < RUNE_SELF
    ensures Encode(a) == [a]
  { }

  /** What can be encoded as it is. */
  predicate Scalar(r: int) {
    0 <= r <= MAX_RUNE && !(0xD800 <= r < 0xE000)
  }

  /** A code point is encoded in as few bytes as hold it, the first marked with their number, each other with 10. */
  lemma EncodeIs(r: int)
    requires Scalar(r)
    ensures var s: seq<int> := Encode(r);
            && |s| == (if r < 0x80 then 1 else if r < 0x800 then 2 else if r < 0x10000 then 3 else 4)
            && (forall i :: 0 < i < |s| ==> 0x80 <= s[i] < 0xC0)
            && match |s|
               case 1 => r == s[0]
               case 2 => 0xC0 <= s[0] < 0xE0 && r == (s[0] - 0xC0) * 64 + (s[1] - 0x80)
               case 3 => 0xE0 <= s[0] < 0xF0 && r == ((s[0] - 0xE0) * 64 + (s[1] - 0x80)) * 64 + (s[2] - 0x80)
               case _ =>
                 && 0xF0 <= s[0] < 0xF5
                 && r == (((s[0] - 0xF0) * 64 + (s[1] - 0x80)) * 64 + (s[2] - 0x80)) * 64 + (s[3] - 0x80)
  {
    Join(r);
  }

  lemma Join(r: int)
    requires 0 <= r
    ensures (r / 64) * 64 + r % 64 == r
    ensures ((r / 4096) * 64 + r / 64 % 64) * 64 + r % 64 == r
    ensures (((r / 262144) * 64 + r / 4096 % 64) * 64 + r / 64 % 64) * 64 + r % 64 == r
  {
    assert r / 64 / 64 == r / 4096 && r / 4096 / 64 == r / 262144;
  }

  /** The encoding of a code point decodes to it and takes no more. */
  lemma EncodeDecode(r: int, t: Bytes)
    requires Scalar(r)
    ensures Decode(Encode(r) + t) == Rune(r, |Encode(r)|)
  {
    Join(r);
    var e, s := Encode(r), Encode(r) + t;
    assert forall i :: 0 <= i < |e| ==> s[i] == e[i];
  }

  /** Decoding finds the code point whose encoding the bytes start with, and without one an invalid byte. */
  lemma DecodeIff(s: Bytes, r: int)
    requires s != []
    ensures Scalar(r) && Encode(r) <= s ==> Decode(s) == Rune(r, |Encode(r)|)
    ensures (forall c :: Scalar(c) ==> !(Encode(c) <= s)) ==> Decode(s) == INVALID
  {
    hide Encode, Decode;
    if Scalar(r) && Encode(r) <= s {
      EncodeDecode(r, s[|Encode(r)|..]);
      assert Encode(r) + s[|Encode(r)|..] == s;
    }
    if !Bad(Decode(s)) {
      DecodeEncode(s);
      assert Encode(Decode(s).r) <= s && Scalar(Decode(s).r);
    }
  }

  /** Decoding looks only at the bytes of the rune. */
  lemma DecodePrefix(s: Bytes, t: Bytes)
    requires s != [] && !Bad(Decode(s)) && |t| >= Decode(s).size && t[..Decode(s).size] == s[..Decode(s).size]
    ensures Decode(t) == Decode(s)
  {
    var n := Decode(s).size;
    forall i | 0 <= i < n ensures t[i] == s[i] {
      assert t[..n][i] == s[..n][i];
    }
  }

  predicate Valid(s: Bytes) {
    s == [] || (!Bad(Decode(s)) && Valid(s[Decode(s).size..]))
  }

  lemma {:induction false} ValidConcat(s: Bytes, t: Bytes)
    requires Valid(s) && Valid(t)
    ensures Valid(s + t)
    decreases |s|
  {
    if s == [] {
      assert s + t == t;
    } else {
      var n := Decode(s).size;
      assert (s + t)[..n] == s[..n];
      DecodePrefix(s, s + t);
      assert (s + t)[n..] == s[n..] + t;
      ValidConcat(s[n..], t);
    }
  }

  predicate Ascii(s: Bytes) {
    forall i :: 0 <= i < |s| ==> s[i] < RUNE_SELF
  }

  lemma {:induction false} AsciiValid(s: Bytes)
    requires Ascii(s)
    ensures Valid(s)
  {
    if s != [] { AsciiValid(s[1..]); }
  }

  lemma RuneValid(s: Bytes)
    requires s != [] && !Bad(Decode(s))
    ensures Valid(s[..Decode(s).size])
  {
    var n := Decode(s).size;
    var t := s[..n];
    DecodePrefix(s, t);
    assert t[n..] == [];
  }

  /** Past ASCII every byte of a rune is past ASCII. */
  lemma HighBytes(s: Bytes)
    requires s != [] && !Bad(Decode(s)) && Decode(s).r >= RUNE_SELF
    ensures forall i :: 0 <= i < Decode(s).size ==> s[i] >= RUNE_SELF
  { }
}
