/**
 * The value codec of the legacy database files: the primitive reads of a
 * BinaryReader at a byte position, unsigned LEB128 (section 7.6 of the DWARF 4
 * standard) and the marker-prefixed UTF-8 string. Writer-side byte layouts
 * (`Uleb`, `StringBytes`) and reader-side decoders (`UlebAt`, `StringAt`)
 * are defined independently and proved inverse.
 */
module ValueCodec {
  import opened Wrappers
  import opened Bytes
  import Utf8

  const STRING_ABSENT: byte := 0x00
  const STRING_PRESENT: byte := 0x0B

  // ---------------------------------------------------------------- reads

  /** BinaryReader.ReadByte at position `p`. */
  function ByteAt(s: seq<byte>, p: nat): (r: Result<(byte, nat)>)
    requires p <= |s|
    ensures r.Ok? <==> p < |s|
    ensures r.Ok? ==> r.value == (s[p], p + 1)
    ensures r.Err? ==> r.error == EndOfStream
  {
    if p < |s| then Ok((s[p], p + 1)) else Err(EndOfStream)
  }

  /** A fixed-width read whose value is discarded (ReadInt16, ReadInt64, ReadSingle, ReadDouble, ReadBoolean). */
  function SkipAt(s: seq<byte>, p: nat, width: nat): (r: Result<nat>)
    requires p <= |s|
    ensures r.Ok? <==> p + width <= |s|
    ensures r.Ok? ==> r.value == p + width
    ensures r.Err? ==> r.error == EndOfStream
  {
    if p + width <= |s| then Ok(p + width) else Err(EndOfStream)
  }

  /** BinaryReader.ReadInt32: four little-endian bytes as a C# `int`. */
  function Int32At(s: seq<byte>, p: nat): (r: Result<(int, nat)>)
    requires p <= |s|
    ensures r.Ok? <==> p + 4 <= |s|
    ensures r.Ok? ==> IsInt32(r.value.0) && r.value.1 == p + 4
    ensures r.Err? ==> r.error == EndOfStream
  {
    if p + 4 <= |s| then Ok((Int32Of(s[p], s[p + 1], s[p + 2], s[p + 3]), p + 4)) else Err(EndOfStream)
  }

  /** A fixed-width read whose raw bytes are kept: ReadDouble (8) or ReadSingle (4) as an opaque value. */
  function FixedAt(s: seq<byte>, p: nat, width: nat): (r: Result<(seq<byte>, nat)>)
    requires p <= |s|
    ensures r.Ok? <==> p + width <= |s|
    ensures r.Ok? ==> r.value == (s[p..p + width], p + width)
    ensures r.Err? ==> r.error == EndOfStream
  {
    if p + width <= |s| then Ok((s[p..p + width], p + width)) else Err(EndOfStream)
  }

  /** BinaryReader.ReadBytes: a negative count throws; near the end of the stream it returns what is left. */
  function BytesAt(s: seq<byte>, p: nat, count: int): (r: Result<(seq<byte>, nat)>)
    requires p <= |s|
    ensures r.Ok? <==> count >= 0
    ensures r.Ok? ==> p <= r.value.1 <= |s| && r.value.0 == s[p..r.value.1]
    ensures r.Ok? ==> |r.value.0| == if p + count <= |s| then count else |s| - p
    ensures r.Err? ==> r.error == ArgumentOutOfRange
  {
    if count < 0 then Err(ArgumentOutOfRange)
    else
      var end := if p + count <= |s| then p + count else |s|;
      Ok((s[p..end], end))
  }

  // ---------------------------------------------------------------- ULEB128

  /** The bytes WriteULEB128 emits for a non-negative value: 7-bit groups, least significant first,
      the high bit set on every byte but the last. */
  function Uleb(n: nat): (r: seq<byte>)
    ensures |r| >= 1
    decreases n
  {
    if n < 128 then [n] else [n % 128 + 128] + Uleb(n / 128)
  }

  /** One step of ReadULEB128's loop: `result |= (b & 0x7F) << shift` on a C# `int`, whose 32 bits
      the result keeps (the OR of two 32-bit values has no higher bit, see AccumulateIsOr). */
  function Accumulate(acc: nat, b: byte, shift: nat): (r: nat)
    ensures r < TWO_TO_THE_32
  {
    BitOr(acc, ShiftLeft32(b % 128, shift)) % TWO_TO_THE_32
  }

  /** On a 32-bit accumulator, Accumulate is the plain OR: keeping 32 bits drops nothing. */
  lemma AccumulateIsOr(acc: nat, b: byte, shift: nat)
    requires acc < TWO_TO_THE_32
    ensures Accumulate(acc, b, shift) == BitOr(acc, ShiftLeft32(b % 128, shift))
  {
    Pow2Values();
    BitOrBelow(acc, ShiftLeft32(b % 128, shift), 32);
  }

  /** ReadULEB128 from position `p`, with the current shift and the 32-bit accumulator. */
  function UlebFrom(s: seq<byte>, p: nat, shift: nat, acc: nat): (r: Result<(int, nat)>)
    requires p <= |s| && acc < TWO_TO_THE_32
    ensures r.Ok? ==> p < r.value.1 <= |s| && IsInt32(r.value.0)
    ensures r.Err? ==> r.error == EndOfStream
    decreases |s| - p
  {
    if p == |s| then Err(EndOfStream)
    else
      var b := s[p];
      var acc' := Accumulate(acc, b, shift);
      if b < 128 then Ok((ToInt32(acc'), p + 1))
      else UlebFrom(s, p + 1, shift + 7, acc')
  }

  /** ReadULEB128 at position `p`. */
  function UlebAt(s: seq<byte>, p: nat): (r: Result<(int, nat)>)
    requires p <= |s|
    ensures r.Ok? ==> p < r.value.1 <= |s| && IsInt32(r.value.0)
    ensures r.Err? ==> r.error == EndOfStream
  {
    UlebFrom(s, p, 0, 0)
  }

  /** Base-128 digit `i` of `n`, least significant first. */
  function Digit(n: nat, i: nat): (d: nat)
    ensures d < 128
  {
    if i == 0 then n % 128 else Digit(n / 128, i - 1)
  }

  /** The shape of `Uleb(n)`: byte i carries digit i of n, every byte but the last has the
      continuation bit, and the last byte is non-zero unless n is 0 (so there are no extra groups). */
  lemma {:induction false} UlebGroups(n: nat)
    ensures forall i :: 0 <= i < |Uleb(n)| ==>
      Uleb(n)[i] % 128 == Digit(n, i) && (Uleb(n)[i] >= 128 <==> i < |Uleb(n)| - 1)
    ensures Uleb(n)[|Uleb(n)| - 1] == 0 <==> n == 0
    ensures n == 0 ==> Uleb(n) == [0]
    decreases n
  {
    if n >= 128 {
      UlebGroups(n / 128);
      var r := Uleb(n);
      assert forall i :: 1 <= i < |r| ==> r[i] == Uleb(n / 128)[i - 1];
    }
  }

  /** A value below 2^(7k) takes at most k groups; below 2^31 that is at most five. */
  lemma {:induction false} UlebLength(n: nat, k: nat)
    requires k >= 1 && n < Pow2(7 * k)
    ensures |Uleb(n)| <= k
    decreases k
  {
    if n >= 128 {
      if k == 1 {
        Pow2Values();
        assert false;
      }
      var m := Pow2(7 * (k - 1));
      Pow2Add(7, 7 * (k - 1));
      Pow2Values();
      QuotientBelow(n, m);
      UlebLength(n / 128, k - 1);
    }
  }

  /** A value below 128 * m has a quotient by 128 below m. */
  lemma QuotientBelow(n: nat, m: nat)
    requires n < 128 * m
    ensures n / 128 < m
  {
    assert 128 * (n / 128) <= n;
  }

  lemma UlebFitsFive(n: nat)
    requires n < TWO_TO_THE_31
    ensures |Uleb(n)| <= 5
  {
    Pow2Values();
    Pow2Add(31, 4);
    assert Pow2(35) == 16 * TWO_TO_THE_31 by {
      assert Pow2(4) == 16;
    }
    UlebLength(n, 5);
  }

  /** A non-zero chunk of a value below 2^31 sits below bit 31. */
  lemma ShiftBelow31(g: nat, shift: nat, m: nat)
    requires 0 < g <= m && m * Pow2(shift) < TWO_TO_THE_31
    ensures shift < 31
  {
    if shift >= 31 {
      Pow2Monotone(31, shift);
      Pow2Values();
      MulMonotone(1, m, Pow2(shift));
      assert false;
    }
  }

  /** A chunk that is part of a value below 2^31 is shifted without wrap-around or masking. */
  lemma ChunkInRange(g: nat, shift: nat, m: nat)
    requires g <= m && m * Pow2(shift) < TWO_TO_THE_31
    ensures ShiftLeft32(g, shift) == g * Pow2(shift)
  {
    if g == 0 {
      assert g * Pow2(shift % 32) == 0;
    } else {
      ShiftBelow31(g, shift, m);
      MulMonotone(g, m, Pow2(shift));
      assert shift % 32 == shift;
      var x := g * Pow2(shift);
      assert x % TWO_TO_THE_32 == x;
    }
  }

  /** The reader's loop on the bytes of `Uleb(m)`, entered with `acc` already holding the bits below `shift`. */
  lemma {:induction false} UlebFromUleb(s: seq<byte>, p: nat, m: nat, shift: nat, acc: nat)
    requires At(s, p, Uleb(m))
    requires acc < Pow2(shift) && acc + m * Pow2(shift) < TWO_TO_THE_31
    ensures acc < TWO_TO_THE_32
    ensures UlebFrom(s, p, shift, acc) == Ok((acc + m * Pow2(shift), p + |Uleb(m)|))
    decreases m
  {
    var P := Pow2(shift);
    var b := s[p];
    assert b == Uleb(m)[0];
    var g := m % 128;
    assert b % 128 == g;
    assert m * P >= 0;
    ChunkInRange(g, shift, m);
    BitOrDisjoint(acc, g, shift);
    AccumulateIsOr(acc, b, shift);
    var acc' := Accumulate(acc, b, shift);
    assert acc' == acc + g * P;
    if m < 128 {
      assert b < 128 && g == m;
      assert UlebFrom(s, p, shift, acc) == Ok((ToInt32(acc'), p + 1));
    } else {
      var m' := m / 128;
      assert b >= 128;
      assert UlebFrom(s, p, shift, acc) == UlebFrom(s, p + 1, shift + 7, acc');
      NextShift(shift);
      MulSplit(m, P);
      DigitBelow(acc, g, P);
      assert At(s, p + 1, Uleb(m')) by {
        assert Uleb(m) == [b] + Uleb(m');
        AtSplit(s, p, [b], Uleb(m'));
      }
      UlebFromUleb(s, p + 1, m', shift + 7, acc');
    }
  }

  lemma NextShift(shift: nat)
    ensures Pow2(shift + 7) == 128 * Pow2(shift)
  {
    Pow2Add(shift, 7);
    Pow2Values();
  }

  /** ReadULEB128 inverts WriteULEB128 for every non-negative C# `int`. */
  lemma UlebRoundTrip(s: seq<byte>, p: nat, n: nat)
    requires n < TWO_TO_THE_31 && At(s, p, Uleb(n))
    ensures UlebAt(s, p) == Ok((n, p + |Uleb(n)|))
  {
    UlebFromUleb(s, p, n, 0, 0);
  }

  // ---------------------------------------------------------------- strings

  /** A string whose UTF-8 form fits a C# `int` length. */
  predicate Writable(x: string) {
    |Utf8.Encode(x)| < TWO_TO_THE_31
  }

  /** The bytes WriteString emits: 0x00 for the empty string, else 0x0B, the ULEB128 byte length
      and the UTF-8 bytes. */
  function StringBytes(x: string): (r: seq<byte>)
    requires Writable(x)
    ensures |r| >= 1
  {
    if |x| == 0 then [STRING_ABSENT] else PresentBytes(Utf8.Encode(x))
  }

  /** The bytes WriteString emits for a non-empty string whose UTF-8 bytes are `data`. */
  function PresentBytes(data: seq<byte>): (r: seq<byte>)
    ensures |r| == 1 + |Uleb(|data|)| + |data|
  {
    [STRING_PRESENT] + Uleb(|data|) + data
  }

  /** ReadString at position `p`. */
  function StringAt(s: seq<byte>, p: nat): (r: Result<(string, nat)>)
    requires p <= |s|
    ensures r.Ok? ==> p < r.value.1 <= |s|
  {
    var (marker, p1) :- ByteAt(s, p);
    if marker == STRING_ABSENT then Ok(([], p1))
    else if marker != STRING_PRESENT then Err(InvalidStringFormat)
    else
      var (length, p2) :- UlebAt(s, p1);
      var (data, p3) :- BytesAt(s, p2, length);
      Ok((Utf8.Decode(data), p3))
  }

  /** ReadString's three outcomes by marker byte. */
  lemma StringMarkers(s: seq<byte>, p: nat)
    requires p < |s|
    ensures s[p] == STRING_ABSENT ==> StringAt(s, p) == Ok(([], p + 1))
    ensures s[p] != STRING_ABSENT && s[p] != STRING_PRESENT ==> StringAt(s, p) == Err(InvalidStringFormat)
    ensures s[p] == STRING_PRESENT ==>
      match UlebAt(s, p + 1)
      case Err(e) => StringAt(s, p) == Err(e)
      case Ok((n, q)) =>
        if n < 0 then StringAt(s, p) == Err(ArgumentOutOfRange)
        else
          var end := if q + n <= |s| then q + n else |s|;
          StringAt(s, p) == Ok((Utf8.Decode(s[q..end]), end))
  {
  }

  /** A marker, then `u`, then `data`, laid out at `p`: each at its place. */
  lemma FieldsLaid(s: seq<byte>, p: nat, marker: byte, u: seq<byte>, data: seq<byte>)
    requires At(s, p, [marker] + u + data)
    ensures p < |s| && s[p] == marker && At(s, p + 1, u) && At(s, p + 1 + |u|, data)
  {
    AtSplitAt(s, p, [marker] + u, data, p + 1 + |u|);
    AtSplitAt(s, p, [marker], u, p + 1);
  }

  /** Bytes laid out at `q` are what BinaryReader.ReadBytes returns there. */
  lemma BytesLaid(s: seq<byte>, q: nat, data: seq<byte>)
    requires At(s, q, data)
    ensures q + |data| <= |s| && BytesAt(s, q, |data|) == Ok((data, q + |data|))
  {
    AtSlice(s, q, data);
  }

  /** ReadString reads a present-marked string back from its length and data bytes. */
  lemma PresentRoundTrip(s: seq<byte>, p: nat, q: nat, data: seq<byte>, end: nat)
    requires p < |s| && s[p] == STRING_PRESENT && UlebAt(s, p + 1) == Ok((|data|, q))
    requires q <= |s| && BytesAt(s, q, |data|) == Ok((data, end))
    ensures StringAt(s, p) == Ok((Utf8.Decode(data), end))
  {
  }

  /** A ULEB128 length and the bytes it counts, laid out at `p`: both are read back. */
  lemma LengthAndBytesLaid(s: seq<byte>, p: nat, data: seq<byte>)
    requires |data| < TWO_TO_THE_31 && At(s, p, Uleb(|data|)) && At(s, p + |Uleb(|data|)|, data)
    ensures UlebAt(s, p) == Ok((|data|, p + |Uleb(|data|)|))
    ensures p + |Uleb(|data|)| <= |s|
    ensures BytesAt(s, p + |Uleb(|data|)|, |data|) == Ok((data, p + |Uleb(|data|)| + |data|))
  {
    UlebRoundTrip(s, p, |data|);
    BytesLaid(s, p + |Uleb(|data|)|, data);
  }

  /** The same layout read back by ReadString as the decoding of `data`. */
  lemma PresentLaidRoundTrip(s: seq<byte>, p: nat, data: seq<byte>)
    requires |data| < TWO_TO_THE_31 && At(s, p, PresentBytes(data))
    ensures StringAt(s, p) == Ok((Utf8.Decode(data), p + |PresentBytes(data)|))
  {
    FieldsLaid(s, p, STRING_PRESENT, Uleb(|data|), data);
    LengthAndBytesLaid(s, p + 1, data);
    PresentRoundTrip(s, p, p + 1 + |Uleb(|data|)|, data, p + 1 + |Uleb(|data|)| + |data|);
  }

  /** ReadString reads the empty string back from its absent marker. */
  lemma AbsentRoundTrip(s: seq<byte>, p: nat)
    requires At(s, p, [STRING_ABSENT])
    ensures StringAt(s, p) == Ok(([], p + 1))
  {
    AtSlice(s, p, [STRING_ABSENT]);
    assert s[p] == s[p..p + 1][0];
  }

  /** ReadString inverts WriteString. */
  lemma StringRoundTrip(s: seq<byte>, p: nat, x: string)
    requires Writable(x) && At(s, p, StringBytes(x))
    ensures StringAt(s, p) == Ok((x, p + |StringBytes(x)|))
  {
    if x != [] {
      NonEmptyRoundTrip(s, p, x);
    } else {
      AbsentRoundTrip(s, p);
    }
  }

  /** ReadString inverts WriteString on a non-empty string. */
  lemma NonEmptyRoundTrip(s: seq<byte>, p: nat, x: string)
    requires Writable(x) && x != [] && At(s, p, StringBytes(x))
    ensures StringAt(s, p) == Ok((x, p + |StringBytes(x)|))
  {
    var data := Utf8.Encode(x);
    assert StringBytes(x) == PresentBytes(data);
    PresentLaidRoundTrip(s, p, data);
    Utf8.DecodeEncode(x);
    assert Utf8.Decode(data) == x;
  }

  /** ReadInt32 inverts BinaryWriter.Write(int). */
  lemma Int32AtRoundTrip(s: seq<byte>, p: nat, n: int)
    requires IsInt32(n) && At(s, p, Int32Bytes(n))
    ensures Int32At(s, p) == Ok((n, p + 4))
  {
    Int32RoundTrip(n);
    var b := Int32Bytes(n);
    AtSlice(s, p, b);
    assert s[p] == b[0] && s[p + 1] == b[1] && s[p + 2] == b[2] && s[p + 3] == b[3];
  }
}
