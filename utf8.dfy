/**
 * UTF-8, as `String.getBytes("UTF-8")` produces it. A Dafny `char` is a
 * Unicode scalar value, so every string has an encoding; the decoder is the
 * partner that shows the encoding loses nothing.
 */
module Utf8 {
  import opened Wrappers

  type Byte = b: int | 0 <= b < 256

  predicate IsContinuation(b: Byte) {
    0x80 <= b < 0xC0
  }

  /** The one to four bytes that encode one scalar value. */
  function EncodeScalar(c: char): (bs: seq<Byte>)
    ensures 1 <= |bs| <= 4
    ensures |bs| == 1 <==> c as int < 0x80
    ensures forall i :: 1 <= i < |bs| ==> IsContinuation(bs[i])
  {
    var v := c as int;
    if v < 0x80 then [v]
    else if v < 0x800 then [0xC0 + v / 64, 0x80 + v % 64]
    else if v < 0x1_0000 then [0xE0 + v / 4096, 0x80 + (v / 64) % 64, 0x80 + v % 64]
    else [0xF0 + v / 262144, 0x80 + (v / 4096) % 64, 0x80 + (v / 64) % 64, 0x80 + v % 64]
  }

  /** The encoding of a whole string: the encodings of its scalars, in order. */
  function Encode(s: string): (bs: seq<Byte>)
    ensures |s| <= |bs| <= 4 * |s|
  {
    if s == [] then [] else EncodeScalar(s[0]) + Encode(s[1..])
  }

  /** A value that may be converted to `char`. */
  predicate IsScalar(v: int) {
    0 <= v < 0xD800 || 0xE000 <= v < 0x11_0000
  }

  /**
   * Reads one scalar value from the front of `bs`, with the number of bytes it
   * took; refuses truncated, overlong and surrogate sequences.
   */
  function DecodeScalar(bs: seq<Byte>): (r: Option<(char, nat)>)
    ensures r.Some? ==> 1 <= r.value.1 <= |bs|
  {
    if bs == [] then None
    else
      var b0: int := bs[0];
      if b0 < 0x80 then Some((b0 as char, 1))
      else if 0xC0 <= b0 < 0xE0 && 2 <= |bs| && IsContinuation(bs[1]) then
        var v: int := (b0 - 0xC0) * 64 + (bs[1] as int - 0x80);
        if 0x80 <= v then Some((v as char, 2)) else None
      else if 0xE0 <= b0 < 0xF0 && 3 <= |bs| && IsContinuation(bs[1]) && IsContinuation(bs[2]) then
        var v: int := (b0 - 0xE0) * 4096 + (bs[1] as int - 0x80) * 64 + (bs[2] as int - 0x80);
        if 0x800 <= v && IsScalar(v) then Some((v as char, 3)) else None
      else if 0xF0 <= b0 < 0xF8 && 4 <= |bs|
              && IsContinuation(bs[1]) && IsContinuation(bs[2]) && IsContinuation(bs[3]) then
        var v: int := (b0 - 0xF0) * 262144 + (bs[1] as int - 0x80) * 4096 + (bs[2] as int - 0x80) * 64 + (bs[3] as int - 0x80);
        if 0x1_0000 <= v < 0x11_0000 then Some((v as char, 4)) else None
      else None
  }

  /** Decodes a whole byte sequence, or refuses it. */
  function Decode(bs: seq<Byte>): (r: Option<string>)
    decreases |bs|
  {
    if bs == [] then Some([])
    else
      match DecodeScalar(bs)
      case None => None
      case Some((c, n)) =>
        match Decode(bs[n..])
        case None => None
        case Some(rest) => Some([c] + rest)
  }

  lemma DecodeEncodeScalar(c: char, rest: seq<Byte>)
    ensures DecodeScalar(EncodeScalar(c) + rest) == Some((c, |EncodeScalar(c)|))
  {
    var v := c as int;
    var bs := EncodeScalar(c) + rest;
    if v < 0x80 {
    } else if v < 0x800 {
      assert (v / 64) * 64 + v % 64 == v;
    } else if v < 0x1_0000 {
      assert v / 4096 * 64 + (v / 64) % 64 == v / 64;
      assert (v / 64) * 64 + v % 64 == v;
      assert bs[0] - 0xE0 == v / 4096;
    } else {
      assert v / 262144 * 64 + (v / 4096) % 64 == v / 4096;
      assert v / 4096 * 64 + (v / 64) % 64 == v / 64;
      assert (v / 64) * 64 + v % 64 == v;
      assert bs[0] - 0xF0 == v / 262144;
    }
  }

  /** Decoding undoes the encoding: `getBlob` loses nothing of `getString`. */
  lemma {:induction false} DecodeEncode(s: string)
    ensures Decode(Encode(s)) == Some(s)
  {
    if s != [] {
      var head := EncodeScalar(s[0]);
      var bs := Encode(s);
      DecodeEncodeScalar(s[0], Encode(s[1..]));
      assert bs[|head|..] == Encode(s[1..]);
      DecodeEncode(s[1..]);
      assert [s[0]] + s[1..] == s;
    }
  }

  /** Distinct strings have distinct encodings. */
  lemma EncodeInjective(s: string, t: string)
    requires Encode(s) == Encode(t)
    ensures s == t
  {
    DecodeEncode(s);
    DecodeEncode(t);
  }

  /** A string of ASCII characters encodes to one byte per character, each its code. */
  lemma {:induction false} EncodeAscii(s: string)
    requires forall i :: 0 <= i < |s| ==> s[i] as int < 0x80
    ensures |Encode(s)| == |s|
    ensures forall i :: 0 <= i < |s| ==> Encode(s)[i] == s[i] as int
  {
    if s != [] {
      EncodeAscii(s[1..]);
    }
  }
}
