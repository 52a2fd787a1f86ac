/**
 UTF-8 as defined by RFC 3629: Python's `str.encode('utf-8')` and the strict
 `bytes.decode('utf-8')`, which rejects overlong forms, surrogates and code
 points above U+10FFFF.
 */
module Utf8 {
  import opened Wrappers

  newtype byte = x: int | 0 <= x < 256

  function EncodeChar(c: char): (r: seq<byte>)
    ensures 1 <= |r| <= 4
    ensures |r| == 1 <==> (c as int) < 0x80
  {
    var cp := c as int;
    if cp < 0x80 then [cp as byte]
    else if cp < 0x800 then [(0xC0 + cp / 64) as byte, (0x80 + cp % 64) as byte]
    else if cp < 0x10000 then
      [(0xE0 + cp / 4096) as byte, (0x80 + (cp / 64) % 64) as byte, (0x80 + cp % 64) as byte]
    else
      [(0xF0 + cp / 262144) as byte, (0x80 + (cp / 4096) % 64) as byte,
       (0x80 + (cp / 64) % 64) as byte, (0x80 + cp % 64) as byte]
  }

  /** `s.encode('utf-8')`. */
  function Encode(s: string): (r: seq<byte>)
    ensures |r| >= |s|
  {
    if |s| == 0 then [] else EncodeChar(s[0]) + Encode(s[1..])
  }

  /** `len(s.encode('utf-8'))`, the byte size the filesystems report for text. */
  function Len(s: string): nat
  {
    |Encode(s)|
  }

  predicate IsAscii(s: string)
  {
    forall i :: 0 <= i < |s| ==> (s[i] as int) < 0x80
  }

  predicate IsContinuation(b: byte) { 0x80 <= b < 0xC0 }

  predicate IsScalar(cp: int)
  {
    0 <= cp < 0xD800 || 0xE000 <= cp < 0x110000
  }

  /** Decodes the first character of `b`, returning it with the number of bytes used. */
  function DecodeFirst(b: seq<byte>): (r: Option<(char, nat)>)
    ensures r.Some? ==> 1 <= r.value.1 <= |b| && r.value.1 <= 4
  {
    if |b| == 0 then None
    else
      var b0 := b[0] as int;
      if b0 < 0x80 then Some((b0 as char, 1))
      else if 0xC2 <= b0 <= 0xDF then
        if |b| >= 2 && IsContinuation(b[1]) then
          Some((((b0 - 0xC0) * 64 + (b[1] as int - 0x80)) as char, 2))
        else None
      else if 0xE0 <= b0 <= 0xEF then
        if |b| >= 3 && IsContinuation(b[1]) && IsContinuation(b[2]) then
          var cp := (b0 - 0xE0) * 4096 + (b[1] as int - 0x80) * 64 + (b[2] as int - 0x80);
          if cp >= 0x800 && IsScalar(cp) then Some((cp as char, 3)) else None
        else None
      else if 0xF0 <= b0 <= 0xF4 then
        if |b| >= 4 && IsContinuation(b[1]) && IsContinuation(b[2]) && IsContinuation(b[3]) then
          var cp := (b0 - 0xF0) * 262144 + (b[1] as int - 0x80) * 4096
                    + (b[2] as int - 0x80) * 64 + (b[3] as int - 0x80);
          if 0x10000 <= cp < 0x110000 then Some((cp as char, 4)) else None
        else None
      else None
  }

  /** `b.decode('utf-8')`; `None` stands for `UnicodeDecodeError`. */
  function Decode(b: seq<byte>): (r: Option<string>)
    decreases |b|
  {
    if |b| == 0 then Some([])
    else match DecodeFirst(b)
      case None => None
      case Some((c, n)) =>
        match Decode(b[n..])
        case None => None
        case Some(rest) => Some([c] + rest)
  }

  lemma {:induction false} EncodeAppend(a: string, b: string)
    ensures Encode(a + b) == Encode(a) + Encode(b)
    decreases |a|
  {
    if |a| == 0 {
      assert a + b == b;
    } else {
      assert (a + b)[0] == a[0] && (a + b)[1..] == a[1..] + b;
      EncodeAppend(a[1..], b);
    }
  }

  /** ASCII text has one byte per character. */
  lemma {:induction false} AsciiLen(s: string)
    requires IsAscii(s)
    ensures Len(s) == |s|
    decreases |s|
  {
    if |s| > 0 {
      AsciiLen(s[1..]);
    }
  }

  lemma DecodeTwo(cp: int, b: seq<byte>)
    requires 0x80 <= cp < 0x800 && |b| >= 2
    requires b[0] as int == 0xC0 + cp / 64 && b[1] as int == 0x80 + cp % 64
    ensures DecodeFirst(b) == Some((cp as char, 2))
  {
    assert (cp / 64) * 64 + cp % 64 == cp;
    assert 0xC2 <= b[0] as int <= 0xDF;
  }

  lemma DecodeThree(cp: int, b: seq<byte>)
    requires 0x800 <= cp < 0x10000 && IsScalar(cp) && |b| >= 3
    requires b[0] as int == 0xE0 + cp / 4096
    requires b[1] as int == 0x80 + (cp / 64) % 64
    requires b[2] as int == 0x80 + cp % 64
    ensures DecodeFirst(b) == Some((cp as char, 3))
  {
    var hi := cp / 4096;
    var mid := (cp / 64) % 64;
    var lo := cp % 64;
    assert cp / 64 == hi * 64 + mid;
    assert hi * 4096 + mid * 64 + lo == cp;
  }

  lemma DecodeFour(cp: int, b: seq<byte>)
    requires 0x10000 <= cp < 0x110000 && |b| >= 4
    requires b[0] as int == 0xF0 + cp / 262144
    requires b[1] as int == 0x80 + (cp / 4096) % 64
    requires b[2] as int == 0x80 + (cp / 64) % 64
    requires b[3] as int == 0x80 + cp % 64
    ensures DecodeFirst(b) == Some((cp as char, 4))
  {
    var top := cp / 262144;
    var hi := (cp / 4096) % 64;
    var mid := (cp / 64) % 64;
    var lo := cp % 64;
    assert cp / 4096 == top * 64 + hi;
    assert cp / 64 == (cp / 4096) * 64 + mid;
    assert top * 262144 + hi * 4096 + mid * 64 + lo == cp;
  }

  lemma DecodeFirstOfEncoded(c: char, rest: seq<byte>)
    ensures DecodeFirst(EncodeChar(c) + rest) == Some((c, |EncodeChar(c)|))
  {
    var cp := c as int;
    var b := EncodeChar(c) + rest;
    if cp < 0x80 {
    } else if cp < 0x800 {
      DecodeTwo(cp, b);
    } else if cp < 0x10000 {
      DecodeThree(cp, b);
    } else {
      DecodeFour(cp, b);
    }
  }

  /** Decoding what was encoded gives back the text: the text branch of a
      write stores exactly the characters whose encoding it received. */
  lemma {:induction false} DecodeEncode(s: string)
    ensures Decode(Encode(s)) == Some(s)
    decreases |s|
  {
    if |s| > 0 {
      var e := EncodeChar(s[0]);
      DecodeFirstOfEncoded(s[0], Encode(s[1..]));
      assert (e + Encode(s[1..]))[|e|..] == Encode(s[1..]);
      DecodeEncode(s[1..]);
      assert s == [s[0]] + s[1..];
    }
  }
}
