/**
 * UTF-8 as Rust's `String::from_utf8` / `str::from_utf8` accept it: the
 * shortest encoding of a Unicode scalar value, no surrogates, nothing above
 * U+10FFFF. A Dafny `char` is a Unicode scalar value, so a decoded string is
 * a `seq<char>`.
 */
module Utf8 {
  import opened Wrappers

  newtype byte = x: int | 0 <= x < 256
  type bytes = seq<byte>

  /** The bytes that encode one scalar value, shortest form. */
  function EncodeChar(c: char): (bs: bytes)
    ensures 1 <= |bs| <= 4
  {
    var v := c as int;
    if v < 0x80 then
      [v as byte]
    else if v < 0x800 then
      [(0xC0 + v / 64) as byte, (0x80 + v % 64) as byte]
    else if v < 0x1_0000 then
      [(0xE0 + v / 4096) as byte, (0x80 + v / 64 % 64) as byte, (0x80 + v % 64) as byte]
    else
      [(0xF0 + v / 262144) as byte, (0x80 + v / 4096 % 64) as byte,
       (0x80 + v / 64 % 64) as byte, (0x80 + v % 64) as byte]
  }

  /** The encoding of a whole string. */
  function Encode(s: string): bytes
  {
    if |s| == 0 then [] else EncodeChar(s[0]) + Encode(s[1..])
  }

  predicate IsContinuation(b: byte) { 0x80 <= b < 0xC0 }

  /** Decodes the scalar value at the front of `bs` and says how many bytes it took. */
  function DecodeFirst(bs: bytes): (r: Option<(char, nat)>)
    requires |bs| > 0
    ensures r.Some? ==> 1 <= r.value.1 <= |bs|
  {
    var b0 := bs[0] as int;
    if b0 < 0x80 then
      Some((b0 as char, 1))
    else if 0xC0 <= b0 < 0xE0 then
      if |bs| < 2 || !IsContinuation(bs[1]) then None
      else
        var v := (b0 - 0xC0) * 64 + (bs[1] as int - 0x80);
        if v < 0x80 then None else Some((v as char, 2))
    else if 0xE0 <= b0 < 0xF0 then
      if |bs| < 3 || !IsContinuation(bs[1]) || !IsContinuation(bs[2]) then None
      else
        var v := (b0 - 0xE0) * 4096 + (bs[1] as int - 0x80) * 64 + (bs[2] as int - 0x80);
        if v < 0x800 || (0xD800 <= v < 0xE000) then None else Some((v as char, 3))
    else if 0xF0 <= b0 < 0xF8 then
      if |bs| < 4 || !IsContinuation(bs[1]) || !IsContinuation(bs[2]) || !IsContinuation(bs[3]) then None
      else
        var v := (b0 - 0xF0) * 262144 + (bs[1] as int - 0x80) * 4096
                 + (bs[2] as int - 0x80) * 64 + (bs[3] as int - 0x80);
        if v < 0x1_0000 || v >= 0x11_0000 then None else Some((v as char, 4))
    else
      None
  }

  /** `String::from_utf8`: the decoded string, or `None` for ill-formed input. */
  function Decode(bs: bytes): (r: Option<string>)
    // every scalar value takes at least one byte
    ensures r.Some? ==> |r.value| <= |bs|
    decreases |bs|
  {
    if |bs| == 0 then Some([])
    else
      match DecodeFirst(bs)
      case None => None
      case Some((c, n)) =>
        match Decode(bs[n..])
        case None => None
        case Some(rest) => Some([c] + rest)
  }

  lemma Split3(a: int, b: int, c: int)
    requires 0 <= a && 0 <= b < 64 && 0 <= c < 64
    ensures (a * 4096 + b * 64 + c) / 4096 == a
    ensures (a * 4096 + b * 64 + c) / 64 % 64 == b
    ensures (a * 4096 + b * 64 + c) % 64 == c
  {
    var v := a * 4096 + b * 64 + c;
    assert v == (a * 64 + b) * 64 + c;
    assert v / 64 == a * 64 + b;
    assert v == a * 4096 + (b * 64 + c) && b * 64 + c < 4096;
  }

  lemma Split4(a: int, b: int, c: int, d: int)
    requires 0 <= a && 0 <= b < 64 && 0 <= c < 64 && 0 <= d < 64
    ensures (a * 262144 + b * 4096 + c * 64 + d) / 262144 == a
    ensures (a * 262144 + b * 4096 + c * 64 + d) / 4096 % 64 == b
    ensures (a * 262144 + b * 4096 + c * 64 + d) / 64 % 64 == c
    ensures (a * 262144 + b * 4096 + c * 64 + d) % 64 == d
  {
    var v := a * 262144 + b * 4096 + c * 64 + d;
    assert v == ((a * 64 + b) * 64 + c) * 64 + d;
    assert v / 64 == (a * 64 + b) * 64 + c;
    assert v == (a * 64 + b) * 4096 + (c * 64 + d) && c * 64 + d < 4096;
    assert v / 4096 == a * 64 + b;
    assert v == a * 262144 + (b * 4096 + c * 64 + d) && b * 4096 + c * 64 + d < 262144;
  }

  lemma DecodeFirstOfTwo(c: char, rest: bytes)
    requires 0x80 <= c as int < 0x800
    ensures DecodeFirst(EncodeChar(c) + rest) == Some((c, 2))
  {
    var v := c as int;
    var bs := EncodeChar(c) + rest;
    Split3(0, v / 64, v % 64);
    assert bs[0] as int - 0xC0 == v / 64 && bs[1] as int - 0x80 == v % 64;
    assert IsContinuation(bs[1]);
  }

  lemma DecodeFirstOfThree(c: char, rest: bytes)
    requires 0x800 <= c as int < 0x1_0000
    ensures DecodeFirst(EncodeChar(c) + rest) == Some((c, 3))
  {
    var v := c as int;
    var bs := EncodeChar(c) + rest;
    Split3(v / 4096, v / 64 % 64, v % 64);
    assert bs[0] as int - 0xE0 == v / 4096;
    assert bs[1] as int - 0x80 == v / 64 % 64 && bs[2] as int - 0x80 == v % 64;
    assert IsContinuation(bs[1]) && IsContinuation(bs[2]);
  }

  lemma Reassemble4(v: int)
    requires 0 <= v
    ensures v == v / 262144 * 262144 + v / 4096 % 64 * 4096 + v / 64 % 64 * 64 + v % 64
  {
    var q1 := v / 64;
    var q2 := q1 / 64;
    var q3 := q2 / 64;
    assert v == q1 * 64 + v % 64;
    assert q1 == q2 * 64 + q1 % 64;
    assert q2 == q3 * 64 + q2 % 64;
    assert q2 == v / 4096 by {
      assert v == q2 * 4096 + (q1 % 64 * 64 + v % 64);
      assert 0 <= q1 % 64 * 64 + v % 64 < 4096;
    }
    assert q3 == v / 262144 by {
      assert v == q3 * 262144 + (q2 % 64 * 4096 + q1 % 64 * 64 + v % 64);
      assert 0 <= q2 % 64 * 4096 + q1 % 64 * 64 + v % 64 < 262144;
    }
  }

  lemma DecodeFirstOfFour(c: char, rest: bytes)
    requires 0x1_0000 <= c as int
    ensures DecodeFirst(EncodeChar(c) + rest) == Some((c, 4))
  {
    var v := c as int;
    var bs := EncodeChar(c) + rest;
    var a, b, c1, d := v / 262144, v / 4096 % 64, v / 64 % 64, v % 64;
    Reassemble4(v);
    assert bs[0] as int - 0xF0 == a && bs[1] as int - 0x80 == b;
    assert bs[2] as int - 0x80 == c1 && bs[3] as int - 0x80 == d;
    assert IsContinuation(bs[1]) && IsContinuation(bs[2]) && IsContinuation(bs[3]);
    assert (bs[0] as int - 0xF0) * 262144 + (bs[1] as int - 0x80) * 4096
           + (bs[2] as int - 0x80) * 64 + (bs[3] as int - 0x80) == v;
  }

  /** Decoding the front of an encoded character gives that character back. */
  lemma DecodeFirstOfEncodeChar(c: char, rest: bytes)
    ensures DecodeFirst(EncodeChar(c) + rest) == Some((c, |EncodeChar(c)|))
  {
    var v := c as int;
    if v < 0x80 {
    } else if v < 0x800 {
      DecodeFirstOfTwo(c, rest);
    } else if v < 0x1_0000 {
      DecodeFirstOfThree(c, rest);
    } else {
      DecodeFirstOfFour(c, rest);
    }
  }

  lemma CanonicalTwo(bs: bytes)
    requires |bs| > 0 && 0xC0 <= bs[0] < 0xE0 && DecodeFirst(bs).Some?
    ensures bs[..2] == EncodeChar(DecodeFirst(bs).value.0)
  {
    var c := DecodeFirst(bs).value.0;
    Split3(0, bs[0] as int - 0xC0, bs[1] as int - 0x80);
    assert c as int == (bs[0] as int - 0xC0) * 64 + (bs[1] as int - 0x80);
    assert EncodeChar(c) == [bs[0], bs[1]];
  }

  lemma CanonicalThree(bs: bytes)
    requires |bs| > 0 && 0xE0 <= bs[0] < 0xF0 && DecodeFirst(bs).Some?
    ensures bs[..3] == EncodeChar(DecodeFirst(bs).value.0)
  {
    var c := DecodeFirst(bs).value.0;
    Split3(bs[0] as int - 0xE0, bs[1] as int - 0x80, bs[2] as int - 0x80);
    assert c as int == (bs[0] as int - 0xE0) * 4096 + (bs[1] as int - 0x80) * 64 + (bs[2] as int - 0x80);
    assert EncodeChar(c) == [bs[0], bs[1], bs[2]];
  }

  lemma CanonicalFour(bs: bytes)
    requires |bs| > 0 && 0xF0 <= bs[0] && DecodeFirst(bs).Some?
    ensures bs[..4] == EncodeChar(DecodeFirst(bs).value.0)
  {
    var c := DecodeFirst(bs).value.0;
    Split4(bs[0] as int - 0xF0, bs[1] as int - 0x80, bs[2] as int - 0x80, bs[3] as int - 0x80);
    assert c as int == (bs[0] as int - 0xF0) * 262144 + (bs[1] as int - 0x80) * 4096
                       + (bs[2] as int - 0x80) * 64 + (bs[3] as int - 0x80);
    assert EncodeChar(c) == [bs[0], bs[1], bs[2], bs[3]];
  }

  /** What `DecodeFirst` accepts is exactly the shortest encoding of the character it returns. */
  lemma DecodeFirstIsCanonical(bs: bytes)
    requires |bs| > 0 && DecodeFirst(bs).Some?
    ensures bs[..DecodeFirst(bs).value.1] == EncodeChar(DecodeFirst(bs).value.0)
  {
    if bs[0] < 0x80 {
    } else if bs[0] < 0xE0 {
      CanonicalTwo(bs);
    } else if bs[0] < 0xF0 {
      CanonicalThree(bs);
    } else {
      CanonicalFour(bs);
    }
  }

  /** Every string survives an encode/decode round trip. */
  lemma {:induction false} DecodeEncode(s: string)
    ensures Decode(Encode(s)) == Some(s)
  {
    if |s| > 0 {
      var e := EncodeChar(s[0]);
      DecodeFirstOfEncodeChar(s[0], Encode(s[1..]));
      assert (e + Encode(s[1..]))[|e|..] == Encode(s[1..]);
      DecodeEncode(s[1..]);
      assert [s[0]] + s[1..] == s;
    }
  }

  /** A successful decode is its first character followed by the decode of the rest. */
  lemma DecodeUnfold(bs: bytes)
    requires |bs| > 0 && Decode(bs).Some?
    ensures DecodeFirst(bs).Some?
    ensures var (c, n) := DecodeFirst(bs).value;
      Decode(bs[n..]).Some? && Decode(bs).value == [c] + Decode(bs[n..]).value
  {
  }

  /** Whatever decodes re-encodes to exactly the input bytes. */
  lemma {:induction false} EncodeDecode(bs: bytes)
    requires Decode(bs).Some?
    ensures Encode(Decode(bs).value) == bs
    decreases |bs|
  {
    if |bs| > 0 {
      DecodeUnfold(bs);
      var (c, n) := DecodeFirst(bs).value;
      var rest := Decode(bs[n..]).value;
      DecodeFirstIsCanonical(bs);
      EncodeDecode(bs[n..]);
      var s := [c] + rest;
      assert s[0] == c && s[1..] == rest;
      assert Encode(s) == EncodeChar(c) + Encode(rest);
      assert bs == bs[..n] + bs[n..];
    }
  }

  /** Decoding and encoding are inverse: `bs` decodes to `s` exactly when `s` encodes to `bs`. */
  lemma {:induction false} DecodeIffEncode(bs: bytes, s: string)
    ensures Decode(bs) == Some(s) <==> Encode(s) == bs
  {
    if Decode(bs) == Some(s) {
      EncodeDecode(bs);
    }
    if Encode(s) == bs {
      DecodeEncode(s);
    }
  }

  /** A payload decodes exactly when it is the encoding of some string, and then to that string. */
  lemma {:induction false} DecodeSomeIffEncoding(payload: bytes)
    ensures Decode(payload).Some? <==> exists s :: Encode(s) == payload
    ensures forall s :: Encode(s) == payload ==> Decode(payload) == Some(s)
  {
    forall s | Encode(s) == payload
      ensures Decode(payload) == Some(s)
    {
      DecodeIffEncode(payload, s);
    }
    if Decode(payload).Some? {
      DecodeIffEncode(payload, Decode(payload).value);
    }
  }
}
