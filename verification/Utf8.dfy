/** Which byte strings are text, and how long characters are in it, said of one encoder of Unicode scalar values. */
module Utf8 {
  import opened Wrappers
  import opened SearchAst
  import Codec
  import NfkcStream

  type Bytes = seq<byte>

  /** A code point that is not a surrogate. */
  predicate IsScalar(n: nat) { n < 0xD800 || 0xE000 <= n < 0x11_0000 }

  /** The UTF-8 form of a scalar value (section 3.9 of the Unicode Standard, table 3-6). */
  function EncodeScalar(n: nat): (r: Bytes)
    requires IsScalar(n)
    ensures |r| == if n < 0x80 then 1 else if n < 0x800 then 2 else if n < 0x1_0000 then 3 else 4
  {
    if n < 0x80 then [n]
    else if n < 0x800 then [0xC0 + n / 64, 0x80 + n % 64]
    else if n < 0x1_0000 then [0xE0 + n / 64 / 64, 0x80 + n / 64 % 64, 0x80 + n % 64]
    else [0xF0 + n / 64 / 64 / 64, 0x80 + n / 64 / 64 % 64, 0x80 + n / 64 % 64, 0x80 + n % 64]
  }

  predicate AllScalars(ns: seq<nat>) { forall i :: 0 <= i < |ns| ==> IsScalar(ns[i]) }

  function EncodeScalars(ns: seq<nat>): Bytes
    requires AllScalars(ns)
  {
    if ns == [] then [] else EncodeScalar(ns[0]) + EncodeScalars(ns[1..])
  }

  predicate Encodes(ns: seq<nat>, s: Bytes) { AllScalars(ns) && EncodeScalars(ns) == s }

  /** A character's form is recognized as one character, whatever follows. */
  lemma ScalarIsText(n: nat, rest: Bytes)
    requires IsScalar(n)
    ensures Codec.IsUtf8(EncodeScalar(n) + rest) <==> Codec.IsUtf8(rest)
  {
    var s := EncodeScalar(n) + rest;
    assert s[|EncodeScalar(n)|..] == rest;
  }

  lemma {:induction false} ScalarsAreText(ns: seq<nat>)
    requires AllScalars(ns)
    ensures Codec.IsUtf8(EncodeScalars(ns))
  {
    if ns != [] {
      ScalarsAreText(ns[1..]);
      ScalarIsText(ns[0], EncodeScalars(ns[1..]));
    }
  }

  lemma Sextets(high: nat, low: nat)
    requires low < 64
    ensures (high * 64 + low) / 64 == high && (high * 64 + low) % 64 == low
  {
  }

  ghost function TwoBytes(b0: int, b1: int): (n: nat)
    requires 0xC2 <= b0 <= 0xDF && 0x80 <= b1 <= 0xBF
    ensures IsScalar(n) && EncodeScalar(n) == [b0, b1]
  {
    Sextets(b0 - 0xC0, b1 - 0x80);
    (b0 - 0xC0) * 64 + (b1 - 0x80)
  }

  ghost function ThreeBytes(b0: int, b1: int, b2: int): (n: nat)
    requires 0xE0 <= b0 <= 0xEF && 0x80 <= b1 <= 0xBF && 0x80 <= b2 <= 0xBF
    requires (b0 == 0xE0 ==> b1 >= 0xA0) && (b0 == 0xED ==> b1 <= 0x9F)
    ensures IsScalar(n) && EncodeScalar(n) == [b0, b1, b2]
  {
    var high := (b0 - 0xE0) * 64 + (b1 - 0x80);
    Sextets(b0 - 0xE0, b1 - 0x80);
    Sextets(high, b2 - 0x80);
    high * 64 + (b2 - 0x80)
  }

  ghost function FourBytes(b0: int, b1: int, b2: int, b3: int): (n: nat)
    requires 0xF0 <= b0 <= 0xF4 && 0x80 <= b1 <= 0xBF && 0x80 <= b2 <= 0xBF && 0x80 <= b3 <= 0xBF
    requires (b0 == 0xF0 ==> b1 >= 0x90) && (b0 == 0xF4 ==> b1 <= 0x8F)
    ensures IsScalar(n) && EncodeScalar(n) == [b0, b1, b2, b3]
  {
    var high := (b0 - 0xF0) * 64 + (b1 - 0x80);
    var middle := high * 64 + (b2 - 0x80);
    Sextets(b0 - 0xF0, b1 - 0x80);
    Sextets(high, b2 - 0x80);
    Sextets(middle, b3 - 0x80);
    middle * 64 + (b3 - 0x80)
  }

  /** What the first byte says of a text. */
  lemma FirstByte(s: Bytes)
    requires s != [] && Codec.IsUtf8(s)
    ensures s[0] < 0x80 ==> Codec.IsUtf8(s[1..])
    ensures 0x80 <= s[0] <= 0xDF ==> |s| >= 2 && 0xC2 <= s[0] && Codec.Continuation(s[1]) && Codec.IsUtf8(s[2..])
    ensures 0xE0 <= s[0] <= 0xEF ==> |s| >= 3 && Codec.Continuation(s[1]) && Codec.Continuation(s[2]) && Codec.IsUtf8(s[3..])
    ensures 0xF0 <= s[0] ==> |s| >= 4 && s[0] <= 0xF4 && Codec.Continuation(s[1]) && Codec.Continuation(s[2])
                             && Codec.Continuation(s[3]) && Codec.IsUtf8(s[4..])
    ensures (s[0] == 0xE0 ==> s[1] >= 0xA0) && (s[0] == 0xED ==> s[1] <= 0x9F)
    ensures (s[0] == 0xF0 ==> s[1] >= 0x90) && (s[0] == 0xF4 ==> s[1] <= 0x8F)
  {
  }

  /** The first character of a text. */
  lemma FirstScalar(s: Bytes) returns (n: nat, rest: Bytes)
    requires s != [] && Codec.IsUtf8(s)
    ensures IsScalar(n) && s == EncodeScalar(n) + rest && Codec.IsUtf8(rest)
  {
    FirstByte(s);
    if s[0] < 0x80 {
      n, rest := s[0], s[1..];
    } else if s[0] <= 0xDF {
      n, rest := TwoBytes(s[0], s[1]), s[2..];
    } else if s[0] <= 0xEF {
      n, rest := ThreeBytes(s[0], s[1], s[2]), s[3..];
    } else {
      n, rest := FourBytes(s[0], s[1], s[2], s[3]), s[4..];
    }
    hide Codec.IsUtf8, EncodeScalar, IsScalar;
  }

  lemma {:induction false} TextIsScalars(s: Bytes) returns (ns: seq<nat>)
    requires Codec.IsUtf8(s)
    ensures Encodes(ns, s)
  {
    if s == [] {
      ns := [];
    } else {
      var n, rest := FirstScalar(s);
      var others := TextIsScalars(rest);
      ns := [n] + others;
      assert ns[1..] == others;
    }
  }

  /** A byte string is accepted as text iff it is the UTF-8 form of some scalar values. */
  lemma IsUtf8Exactly(s: Bytes)
    ensures Codec.IsUtf8(s) <==> exists ns: seq<nat> :: Encodes(ns, s)
  {
    if Codec.IsUtf8(s) { var ns := TextIsScalars(s); assert Encodes(ns, s); }
    if ns: seq<nat> :| Encodes(ns, s) { ScalarsAreText(ns); }
  }

  // ---- characters and their spans ----

  function Scalars(text: seq<char>): (ns: seq<nat>)
    ensures AllScalars(ns) && |ns| == |text| && forall i :: 0 <= i < |text| ==> ns[i] == text[i] as int
  {
    seq(|text|, i requires 0 <= i < |text| => text[i] as int)
  }

  lemma LengthHead(text: seq<char>)
    requires text != []
    ensures |EncodeScalars(Scalars(text))| == NfkcStream.Utf8Length(text[0]) + |EncodeScalars(Scalars(text[1..]))|
  {
    assert Scalars(text)[1..] == Scalars(text[1..]);
  }

  /** The k-th character of a text carries the bytes of the encoded text that are its own: it starts where the characters
      before it end, and is as long as its UTF-8 form. */
  lemma {:induction false} SpansAreBytes(text: seq<char>, offset: nat, k: nat)
    requires k < |text|
    ensures NfkcStream.CharIndices(text, offset)[k].tag
      == NfkcStream.Span(offset + |EncodeScalars(Scalars(text[..k]))|, offset + |EncodeScalars(Scalars(text[..k + 1]))|)
  {
    hide EncodeScalars, Scalars;
    LengthHead(text[..k + 1]);
    if k == 0 {
      assert text[..1][1..] == text[..0] == [];
    } else {
      LengthHead(text[..k]);
      SpansAreBytes(text[1..], offset + NfkcStream.Utf8Length(text[0]), k - 1);
      assert text[1..][..k - 1] == text[..k][1..] && text[1..][..k] == text[..k + 1][1..];
    }
    EmptyText();
  }

  lemma EmptyText()
    ensures EncodeScalars(Scalars([])) == []
  {
  }
}
