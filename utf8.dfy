/**
 * UTF-8 (RFC 3629) as System.Text.Encoding.UTF8 applies it: GetBytes encodes
 * each Unicode scalar value in one to four bytes; GetString decodes and
 * replaces every maximal ill-formed subsequence by one U+FFFD.
 */
module Utf8 {
  import opened Bytes

  const REPLACEMENT: char := '�'

  function EncodeChar(c: char): (r: seq<byte>)
    ensures 1 <= |r| <= 4
  {
    var v := c as int;
    if v < 0x80 then [v]
    else if v < 0x800 then [0xC0 + v / 64, 0x80 + v % 64]
    else if v < 0x1_0000 then [0xE0 + v / 4096, 0x80 + (v / 64) % 64, 0x80 + v % 64]
    else [0xF0 + v / 262144, 0x80 + (v / 4096) % 64, 0x80 + (v / 64) % 64, 0x80 + v % 64]
  }

  /** Encoding.UTF8.GetBytes. */
  function Encode(s: string): (r: seq<byte>)
    ensures |s| <= |r| <= 4 * |s|
    ensures s == [] <==> r == []
  {
    if s == [] then [] else EncodeChar(s[0]) + Encode(s[1..])
  }

  predicate IsContinuation(b: byte) {
    0x80 <= b <= 0xBF
  }

  /** Number of bytes a lead byte announces; 0 for a byte that cannot start a sequence. */
  function SequenceLength(b0: byte): nat {
    if b0 < 0x80 then 1
    else if b0 < 0xC2 then 0
    else if b0 < 0xE0 then 2
    else if b0 < 0xF0 then 3
    else if b0 < 0xF5 then 4
    else 0
  }

  /** The second byte's range, which excludes overlong forms, surrogates and values above U+10FFFF. */
  predicate SecondInRange(b0: byte, b1: byte) {
    if b0 == 0xE0 then 0xA0 <= b1 <= 0xBF
    else if b0 == 0xED then 0x80 <= b1 <= 0x9F
    else if b0 == 0xF0 then 0x90 <= b1 <= 0xBF
    else if b0 == 0xF4 then 0x80 <= b1 <= 0x8F
    else IsContinuation(b1)
  }

  /** Length of the longest prefix of `bs` that can begin a well-formed sequence of `n` bytes (at least 1). */
  function WellFormedPrefix(bs: seq<byte>, n: nat): (k: nat)
    requires |bs| >= 1
    ensures 1 <= k <= |bs| && (n >= 1 ==> k <= n)
  {
    if n >= 2 && |bs| >= 2 && SecondInRange(bs[0], bs[1]) then
      if n >= 3 && |bs| >= 3 && IsContinuation(bs[2]) then
        if n >= 4 && |bs| >= 4 && IsContinuation(bs[3]) then 4 else 3
      else 2
    else 1
  }

  /** The first character of a non-empty byte sequence and the number of bytes it takes. */
  function DecodeFirst(bs: seq<byte>): (r: (char, nat))
    requires |bs| >= 1
    ensures 1 <= r.1 <= |bs|
  {
    var n := SequenceLength(bs[0]);
    if n == 1 then (bs[0] as char, 1)
    else if n == 0 then (REPLACEMENT, 1)
    else
      var k := WellFormedPrefix(bs, n);
      if k < n then (REPLACEMENT, k)
      else if n == 2 then
        var v := (bs[0] as int - 0xC0) * 64 + (bs[1] as int - 0x80);
        (v as char, 2)
      else if n == 3 then
        var v := (bs[0] as int - 0xE0) * 4096 + (bs[1] as int - 0x80) * 64 + (bs[2] as int - 0x80);
        (v as char, 3)
      else
        var v := (bs[0] as int - 0xF0) * 262144 + (bs[1] as int - 0x80) * 4096
                 + (bs[2] as int - 0x80) * 64 + (bs[3] as int - 0x80);
        (v as char, 4)
  }

  /** Encoding.UTF8.GetString. */
  function Decode(bs: seq<byte>): (s: string)
    ensures |s| <= |bs|
    decreases |bs|
  {
    if bs == [] then [] else
    var (c, k) := DecodeFirst(bs);
    [c] + Decode(bs[k..])
  }

  lemma DecodeFirstOfTwo(c: char, rest: seq<byte>)
    requires 0x80 <= c as int < 0x800
    ensures DecodeFirst(EncodeChar(c) + rest) == (c, 2)
  {
    var v := c as int;
    var bs := EncodeChar(c) + rest;
    assert bs[0] == 0xC0 + v / 64 && bs[1] == 0x80 + v % 64;
  }

  lemma DecodeFirstOfThree(c: char, rest: seq<byte>)
    requires 0x800 <= c as int < 0x1_0000
    ensures DecodeFirst(EncodeChar(c) + rest) == (c, 3)
  {
    var v := c as int;
    var bs := EncodeChar(c) + rest;
    assert bs[0] == 0xE0 + v / 4096 && bs[1] == 0x80 + (v / 64) % 64 && bs[2] == 0x80 + v % 64;
    assert v / 4096 * 64 + (v / 64) % 64 == v / 64;
  }

  lemma DecodeFirstOfFour(c: char, rest: seq<byte>)
    requires 0x1_0000 <= c as int
    ensures DecodeFirst(EncodeChar(c) + rest) == (c, 4)
  {
    var v := c as int;
    var bs := EncodeChar(c) + rest;
    assert bs[0] == 0xF0 + v / 262144 && bs[1] == 0x80 + (v / 4096) % 64;
    assert bs[2] == 0x80 + (v / 64) % 64 && bs[3] == 0x80 + v % 64;
    assert v / 262144 * 64 + (v / 4096) % 64 == v / 4096;
    assert v / 4096 * 64 + (v / 64) % 64 == v / 64;
  }

  /** The first character decoded from an encoded character is that character. */
  lemma DecodeFirstOfEncoded(c: char, rest: seq<byte>)
    ensures DecodeFirst(EncodeChar(c) + rest) == (c, |EncodeChar(c)|)
  {
    var v := c as int;
    if v < 0x80 {
    } else if v < 0x800 {
      DecodeFirstOfTwo(c, rest);
    } else if v < 0x1_0000 {
      DecodeFirstOfThree(c, rest);
    } else {
      DecodeFirstOfFour(c, rest);
    }
  }

  /** Decoding what was encoded gives the string back. */
  lemma {:induction false} DecodeEncode(s: string)
    ensures Decode(Encode(s)) == s
  {
    if s != [] {
      var e := EncodeChar(s[0]);
      DecodeFirstOfEncoded(s[0], Encode(s[1..]));
      assert (e + Encode(s[1..]))[|e|..] == Encode(s[1..]);
      DecodeEncode(s[1..]);
    }
  }
}
