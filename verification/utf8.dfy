/** UTF-8, as `Encoding.UTF8.GetBytes` produces it for the upload body.
    Dafny characters are Unicode scalar values, so every character has an
    encoding; the decoder is strict (no overlong forms, no surrogates) and
    serves as the encoder's inverse. */
module Utf8 {
  import opened Wrappers

  newtype byte = b: int | 0 <= b < 256

  predicate IsScalar(cp: int) {
    0 <= cp < 0xD800 || 0xE000 <= cp < 0x11_0000
  }

  predicate IsContinuation(b: byte) {
    0x80 <= b < 0xC0
  }

  /** The one- to four-byte encoding of a scalar value. */
  function EncodeScalar(cp: int): (bs: seq<byte>)
    requires IsScalar(cp)
    ensures 1 <= |bs| <= 4
  {
    if cp < 0x80 then
      [cp as byte]
    else if cp < 0x800 then
      [(0xC0 + cp / 0x40) as byte, (0x80 + cp % 0x40) as byte]
    else if cp < 0x1_0000 then
      [(0xE0 + cp / 0x1000) as byte, (0x80 + cp / 0x40 % 0x40) as byte,
       (0x80 + cp % 0x40) as byte]
    else
      [(0xF0 + cp / 0x4_0000) as byte, (0x80 + cp / 0x1000 % 0x40) as byte,
       (0x80 + cp / 0x40 % 0x40) as byte, (0x80 + cp % 0x40) as byte]
  }

  function Encode(s: string): (bs: seq<byte>)
    ensures |s| <= |bs| <= 4 * |s|
  {
    if |s| == 0 then [] else EncodeScalar(s[0] as int) + Encode(s[1..])
  }

  /** Decodes the scalar value at the front of `bs`, with the number of
      bytes it occupies. */
  function DecodeFirst(bs: seq<byte>): (r: Option<(int, nat)>)
    requires |bs| > 0
    ensures r.Some? ==> IsScalar(r.value.0) && 1 <= r.value.1 <= |bs|
  {
    var b0 := bs[0] as int;
    if b0 < 0x80 then
      Some((b0, 1))
    else if 0xC0 <= b0 < 0xE0 && |bs| >= 2 && IsContinuation(bs[1]) then
      var cp := (b0 - 0xC0) * 0x40 + (bs[1] as int - 0x80);
      if 0x80 <= cp then Some((cp, 2)) else None
    else if 0xE0 <= b0 < 0xF0 && |bs| >= 3 && IsContinuation(bs[1]) && IsContinuation(bs[2]) then
      var cp := (b0 - 0xE0) * 0x1000 + (bs[1] as int - 0x80) * 0x40 + (bs[2] as int - 0x80);
      if 0x800 <= cp && IsScalar(cp) then Some((cp, 3)) else None
    else if 0xF0 <= b0 < 0xF8 && |bs| >= 4 && IsContinuation(bs[1]) && IsContinuation(bs[2])
            && IsContinuation(bs[3]) then
      var cp := (b0 - 0xF0) * 0x4_0000 + (bs[1] as int - 0x80) * 0x1000
                + (bs[2] as int - 0x80) * 0x40 + (bs[3] as int - 0x80);
      if 0x1_0000 <= cp < 0x11_0000 then Some((cp, 4)) else None
    else
      None
  }

  function Decode(bs: seq<byte>): Option<string>
    decreases |bs|
  {
    if |bs| == 0 then Some("")
    else
      match DecodeFirst(bs)
      case None => None
      case Some((cp, n)) =>
        match Decode(bs[n..])
        case None => None
        case Some(rest) => Some([cp as char] + rest)
  }

  lemma DecodeFirstTwoBytes(cp: int, rest: seq<byte>)
    requires 0x80 <= cp < 0x800
    ensures DecodeFirst(EncodeScalar(cp) + rest) == Some((cp, 2))
  {
    assert (cp / 0x40) * 0x40 + cp % 0x40 == cp;
  }

  lemma DecodeFirstThreeBytes(cp: int, rest: seq<byte>)
    requires IsScalar(cp) && 0x800 <= cp < 0x1_0000
    ensures DecodeFirst(EncodeScalar(cp) + rest) == Some((cp, 3))
  {
    var bs := EncodeScalar(cp) + rest;
    var hi, mid, lo := cp / 0x1000, cp / 0x40 % 0x40, cp % 0x40;
    assert cp / 0x40 == hi * 0x40 + mid;
    assert cp == (cp / 0x40) * 0x40 + lo;
    assert bs[0] as int == 0xE0 + hi && bs[1] as int == 0x80 + mid && bs[2] as int == 0x80 + lo;
  }

  lemma DecodeFirstFourBytes(cp: int, rest: seq<byte>)
    requires 0x1_0000 <= cp < 0x11_0000
    ensures DecodeFirst(EncodeScalar(cp) + rest) == Some((cp, 4))
  {
    var bs := EncodeScalar(cp) + rest;
    var top, hi, mid, lo := cp / 0x4_0000, cp / 0x1000 % 0x40, cp / 0x40 % 0x40, cp % 0x40;
    assert cp / 0x1000 == top * 0x40 + hi;
    assert cp / 0x40 == (cp / 0x1000) * 0x40 + mid;
    assert cp == (cp / 0x40) * 0x40 + lo;
    assert bs[0] as int == 0xF0 + top && bs[1] as int == 0x80 + hi;
    assert bs[2] as int == 0x80 + mid && bs[3] as int == 0x80 + lo;
  }

  /** The decoder reads back exactly the scalar the encoder wrote, and
      exactly its bytes, whatever follows. */
  lemma DecodeFirstEncodeScalar(cp: int, rest: seq<byte>)
    requires IsScalar(cp)
    ensures DecodeFirst(EncodeScalar(cp) + rest) == Some((cp, |EncodeScalar(cp)|))
  {
    if cp < 0x80 {
    } else if cp < 0x800 {
      DecodeFirstTwoBytes(cp, rest);
    } else if cp < 0x1_0000 {
      DecodeFirstThreeBytes(cp, rest);
    } else {
      DecodeFirstFourBytes(cp, rest);
    }
  }

  /** Decoding the encoding gives back the original text, so the bytes
      carry the text exactly. */
  lemma {:induction false} DecodeEncode(s: string)
    ensures Decode(Encode(s)) == Some(s)
  {
    if |s| > 0 {
      var head := EncodeScalar(s[0] as int);
      var tail := Encode(s[1..]);
      DecodeFirstEncodeScalar(s[0] as int, tail);
      assert (head + tail)[|head|..] == tail;
      DecodeEncode(s[1..]);
      assert [s[0]] + s[1..] == s;
    }
  }

  /** Distinct texts have distinct encodings. */
  lemma EncodeInjective(s: string, t: string)
    ensures Encode(s) == Encode(t) <==> s == t
  {
    if Encode(s) == Encode(t) {
      DecodeEncode(s);
      DecodeEncode(t);
    }
  }
}
