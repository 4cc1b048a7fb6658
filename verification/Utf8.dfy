/** UTF-8 (section 3 of RFC 3629) as Python's strict codec implements it. */
module Utf8 {
  import opened Basics

  function EncodeChar(c: CodePoint): (b: Bytes)
    ensures 1 <= |b| <= 4
  {
    if c < 0x80 then [c]
    else if c < 0x800 then [0xC0 + c / 64, 0x80 + c % 64]
    else if c < 0x1_0000 then [0xE0 + c / 4096, 0x80 + c / 64 % 64, 0x80 + c % 64]
    else [0xF0 + c / 262144, 0x80 + c / 4096 % 64, 0x80 + c / 64 % 64, 0x80 + c % 64]
  }

  /** The bytes of scalar text. Python raises on a surrogate: see `EncodeStrict`. */
  function Encode(t: Text): Bytes {
    if t == [] then [] else EncodeChar(t[0]) + Encode(t[1..])
  }

  function EncodeStrict(t: Text): Option<Bytes> {
    if ScalarText(t) then Some(Encode(t)) else None
  }

  predicate Continuation(b: Byte) {
    0x80 <= b < 0xC0
  }

  datatype Decoded = Decoded(code: CodePoint, width: nat)

  /** The six payload bits of a continuation byte. */
  function Payload(b: Byte): int {
    b as int - 0x80
  }

  /** The first character of `b`, unless the prefix is truncated, overlong, a surrogate or too large. */
  function DecodeChar(b: Bytes): (r: Option<Decoded>)
    requires b != []
    ensures r.Some? ==> 1 <= r.value.width <= |b|
  {
    var lead: int := b[0];
    if lead < 0x80 then
      Some(Decoded(lead, 1))
    else if 0xC2 <= lead < 0xE0 && |b| >= 2 && Continuation(b[1]) then
      Some(Decoded((lead - 0xC0) * 64 + Payload(b[1]), 2))
    else if 0xE0 <= lead < 0xF0 && |b| >= 3 && Continuation(b[1]) && Continuation(b[2]) then
      var c := (lead - 0xE0) * 4096 + Payload(b[1]) * 64 + Payload(b[2]);
      if 0x800 <= c && !Surrogate(c) then Some(Decoded(c, 3)) else None
    else if 0xF0 <= lead < 0xF5 && |b| >= 4 && Continuation(b[1]) && Continuation(b[2]) && Continuation(b[3]) then
      var c := (lead - 0xF0) * 262144 + Payload(b[1]) * 4096 + Payload(b[2]) * 64 + Payload(b[3]);
      if 0x1_0000 <= c < 0x11_0000 then Some(Decoded(c, 4)) else None
    else
      None
  }

  function Decode(b: Bytes): Option<Text> {
    if b == [] then Some([])
    else
      var d :- DecodeChar(b);
      var rest :- Decode(b[d.width..]);
      Some([d.code] + rest)
  }

  lemma SixBitGroups(x: int, y: int, z: int)
    requires 0 <= x && 0 <= y < 64 && 0 <= z < 64
    ensures var c := x * 4096 + y * 64 + z;
            c / 4096 == x && c / 64 % 64 == y && c % 64 == z && c / 64 == x * 64 + y
  {
    var c := x * 4096 + y * 64 + z;
    assert c == 64 * (x * 64 + y) + z;
    assert c / 64 == x * 64 + y;
  }

  lemma Regroup(c: nat)
    ensures c == c / 4096 * 4096 + c / 64 % 64 * 64 + c % 64
  {
    var q := c / 64;
    assert c == 64 * q + c % 64;
    assert q == 64 * (q / 64) + q % 64;
    SixBitGroups(q / 64, q % 64, c % 64);
  }

  lemma FourGroups(c: nat)
    ensures c == c / 262144 * 262144 + c / 4096 % 64 * 4096 + c / 64 % 64 * 64 + c % 64
  {
    Regroup(c);
    Regroup(c / 64);
    assert c / 64 / 4096 == c / 262144 && c / 64 / 64 == c / 4096;
  }

  lemma FourBytesDecode(c: CodePoint, rest: Bytes)
    requires 0x1_0000 <= c
    ensures DecodeChar(EncodeChar(c) + rest) == Some(Decoded(c, 4)) && |EncodeChar(c)| == 4
  {
    var b := EncodeChar(c) + rest;
    FourGroups(c);
    assert b[0] == 0xF0 + c / 262144 && b[1] == 0x80 + c / 4096 % 64;
    assert b[2] == 0x80 + c / 64 % 64 && b[3] == 0x80 + c % 64;
  }

  lemma DecodeCharInvertsEncode(c: CodePoint, rest: Bytes)
    requires !Surrogate(c)
    ensures DecodeChar(EncodeChar(c) + rest) == Some(Decoded(c, |EncodeChar(c)|))
  {
    var b := EncodeChar(c) + rest;
    Regroup(c);
    if c < 0x80 {
      assert b[0] == c;
    } else if c < 0x800 {
      assert b[0] == 0xC0 + c / 64 && b[1] == 0x80 + c % 64;
    } else if c < 0x1_0000 {
      assert b[0] == 0xE0 + c / 4096 && b[1] == 0x80 + c / 64 % 64 && b[2] == 0x80 + c % 64;
    } else {
      FourBytesDecode(c, rest);
    }
  }

  lemma ThreeBytesReencode(b0: Byte, b1: Byte, b2: Byte, c: CodePoint)
    requires 0xE0 <= b0 < 0xF0 && Continuation(b1) && Continuation(b2)
    requires c == (b0 - 0xE0) as int * 4096 + Payload(b1) * 64 + Payload(b2) && 0x800 <= c
    ensures EncodeChar(c) == [b0, b1, b2]
  {
    SixBitGroups(b0 - 0xE0, Payload(b1), Payload(b2));
  }

  lemma FourBytesReencode(b0: Byte, b1: Byte, b2: Byte, b3: Byte, c: CodePoint)
    requires 0xF0 <= b0 < 0xF5 && Continuation(b1) && Continuation(b2) && Continuation(b3)
    requires 0x1_0000 <= c
    requires c == (b0 - 0xF0) as int * 262144 + Payload(b1) * 4096 + Payload(b2) * 64 + Payload(b3)
    ensures EncodeChar(c) == [b0, b1, b2, b3]
  {
    var x: int := (b0 - 0xF0) as int * 64 + Payload(b1);
    SixBitGroups(x, Payload(b2), Payload(b3));
    assert c / 4096 == x;
    assert x % 64 == Payload(b1);
    assert c / 262144 == (b0 - 0xF0) as int;
  }

  lemma DecodedCharIsEncoded(b: Bytes)
    requires b != [] && DecodeChar(b).Some?
    ensures var d := DecodeChar(b).value;
            !Surrogate(d.code) && EncodeChar(d.code) == b[..d.width]
  {
    var d := DecodeChar(b).value;
    if d.width == 2 {
      assert b[..2] == [b[0], b[1]];
      SixBitGroups(0, b[0] - 0xC0, Payload(b[1]));
    } else if d.width == 3 {
      assert b[..3] == [b[0], b[1], b[2]];
      ThreeBytesReencode(b[0], b[1], b[2], d.code);
    } else if d.width == 4 {
      assert b[..4] == [b[0], b[1], b[2], b[3]];
      FourBytesReencode(b[0], b[1], b[2], b[3], d.code);
    }
  }

  /** Decoding an encoding returns the text. */
  lemma {:induction false} DecodeInvertsEncode(t: Text)
    requires ScalarText(t)
    ensures Decode(Encode(t)) == Some(t)
  {
    hide DecodeChar, EncodeChar;
    if t != [] {
      DecodeCharInvertsEncode(t[0], Encode(t[1..]));
      assert Encode(t)[|EncodeChar(t[0])|..] == Encode(t[1..]);
      DecodeInvertsEncode(t[1..]);
      assert t == [t[0]] + t[1..];
    }
  }

  /** Only encodings decode, so the codec accepts exactly its own image. */
  lemma {:induction false} EncodeInvertsDecode(b: Bytes)
    requires Decode(b).Some?
    ensures ScalarText(Decode(b).value) && Encode(Decode(b).value) == b
  {
    hide DecodeChar, EncodeChar;
    if b != [] {
      DecodedCharIsEncoded(b);
      var d := DecodeChar(b).value;
      EncodeInvertsDecode(b[d.width..]);
      var t := Decode(b).value;
      assert t[1..] == Decode(b[d.width..]).value;
      assert b == b[..d.width] + b[d.width..];
    }
  }

  lemma EncodeInjective(t: Text, u: Text)
    requires ScalarText(t) && ScalarText(u)
    requires Encode(t) == Encode(u)
    ensures t == u
  {
    DecodeInvertsEncode(t);
    DecodeInvertsEncode(u);
  }

  lemma {:induction false} EncodeConcat(t: Text, u: Text)
    ensures Encode(t + u) == Encode(t) + Encode(u)
  {
    if t == [] {
      assert t + u == u;
    } else {
      assert (t + u)[1..] == t[1..] + u;
      EncodeConcat(t[1..], u);
    }
  }

  /** The encoded size adds up over concatenation. */
  lemma SizeOfConcat(t: Text, u: Text)
    ensures |Encode(t + u)| == |Encode(t)| + |Encode(u)|
  {
    EncodeConcat(t, u);
  }

  predicate AsciiText(t: Text) {
    forall i | 0 <= i < |t| :: t[i] < 0x80
  }

  lemma {:induction false} EncodeAscii(t: Text)
    requires AsciiText(t)
    ensures |Encode(t)| == |t|
  {
    if t != [] {
      EncodeAscii(t[1..]);
    }
  }

  /** The characters of the examples in section 7 of RFC 3629. */
  lemma EncodeExamples()
    ensures EncodeChar(0x41) == [0x41] && EncodeChar(0x391) == [0xCE, 0x91]
    ensures EncodeChar(0x2262) == [0xE2, 0x89, 0xA2] && EncodeChar(0xD55C) == [0xED, 0x95, 0x9C]
    ensures EncodeChar(0x233B4) == [0xF0, 0xA3, 0x8E, 0xB4]
  {
  }
}
