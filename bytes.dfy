/**
 * Bytes, 32-bit integer arithmetic as the .NET runtime does it, and the
 * little-endian int32 layout of BinaryReader/BinaryWriter.
 */
module Bytes {

  type byte = x: int | 0 <= x < 256

  const TWO_TO_THE_31: int := 0x8000_0000
  const TWO_TO_THE_32: int := 0x1_0000_0000

  /** The values of a C# `int`. */
  predicate IsInt32(n: int) {
    -TWO_TO_THE_31 <= n < TWO_TO_THE_31
  }

  function Pow2(k: nat): (r: nat)
    ensures r >= 1
  {
    if k == 0 then 1 else 2 * Pow2(k - 1)
  }

  lemma {:induction false} Pow2Add(a: nat, b: nat)
    ensures Pow2(a + b) == Pow2(a) * Pow2(b)
  {
    if b > 0 {
      Pow2Add(a, b - 1);
      assert Pow2(a + b) == 2 * Pow2(a + b - 1);
    }
  }

  lemma {:induction false} Pow2Monotone(a: nat, b: nat)
    requires a <= b
    ensures Pow2(a) <= Pow2(b)
  {
    if a < b {
      Pow2Monotone(a, b - 1);
    }
  }

  lemma Pow2Values()
    ensures Pow2(7) == 0x80 && Pow2(14) == 0x4000 && Pow2(21) == 0x20_0000 && Pow2(28) == 0x1000_0000
    ensures Pow2(31) == TWO_TO_THE_31 && Pow2(32) == TWO_TO_THE_32
  {
    assert Pow2(1) == 0x2;
    assert Pow2(2) == 0x4;
    assert Pow2(3) == 0x8;
    assert Pow2(4) == 0x10;
    assert Pow2(5) == 0x20;
    assert Pow2(6) == 0x40;
    assert Pow2(7) == 0x80;
    assert Pow2(8) == 0x100;
    assert Pow2(9) == 0x200;
    assert Pow2(10) == 0x400;
    assert Pow2(11) == 0x800;
    assert Pow2(12) == 0x1000;
    assert Pow2(13) == 0x2000;
    assert Pow2(14) == 0x4000;
    assert Pow2(15) == 0x8000;
    assert Pow2(16) == 0x10000;
    assert Pow2(17) == 0x20000;
    assert Pow2(18) == 0x40000;
    assert Pow2(19) == 0x80000;
    assert Pow2(20) == 0x100000;
    assert Pow2(21) == 0x200000;
    assert Pow2(22) == 0x400000;
    assert Pow2(23) == 0x800000;
    assert Pow2(24) == 0x1000000;
    assert Pow2(25) == 0x2000000;
    assert Pow2(26) == 0x4000000;
    assert Pow2(27) == 0x8000000;
    assert Pow2(28) == 0x10000000;
    assert Pow2(29) == 0x20000000;
    assert Pow2(30) == 0x40000000;
    assert Pow2(31) == 0x80000000;
    assert Pow2(32) == 0x100000000;
  }

  /** Bitwise OR of two non-negative integers, bit by bit from the least significant. */
  function BitOr(a: nat, b: nat): nat
    decreases a + b
  {
    if a == 0 then b
    else if b == 0 then a
    else 2 * BitOr(a / 2, b / 2) + (if a % 2 == 1 || b % 2 == 1 then 1 else 0)
  }

  /** OR never sets a bit above the width of its operands. */
  lemma {:induction false} BitOrBelow(a: nat, b: nat, k: nat)
    requires a < Pow2(k) && b < Pow2(k)
    ensures BitOr(a, b) < Pow2(k)
    decreases a + b
  {
    if a != 0 && b != 0 {
      assert k > 0;
      BitOrBelow(a / 2, b / 2, k - 1);
    }
  }

  /** OR of operands whose set bits do not overlap is their sum. */
  lemma {:induction false} BitOrDisjoint(a: nat, q: nat, k: nat)
    requires a < Pow2(k)
    ensures BitOr(a, q * Pow2(k)) == a + q * Pow2(k)
    decreases a
  {
    var b := q * Pow2(k);
    if a != 0 && b != 0 {
      assert k > 0;
      var h := Pow2(k - 1);
      var x := q * h;
      assert b == 2 * x;
      assert b / 2 == x && b % 2 == 0;
      BitOrDisjoint(a / 2, q, k - 1);
      assert BitOr(a, b) == 2 * BitOr(a / 2, x) + a % 2;
    }
  }

  /** C# `int << shift` on a value below 2^31: the shift count is masked to five bits and bits above 31 are lost. */
  function ShiftLeft32(x: nat, shift: nat): (r: nat)
    ensures r < TWO_TO_THE_32
  {
    (x * Pow2(shift % 32)) % TWO_TO_THE_32
  }

  /** Reading 32 bits as a C# `int` (two's complement). */
  function ToInt32(u: nat): (n: int)
    requires u < TWO_TO_THE_32
    ensures IsInt32(n)
    ensures n >= 0 <==> u < TWO_TO_THE_31
  {
    if u < TWO_TO_THE_31 then u else u - TWO_TO_THE_32
  }

  /** Little-endian two's-complement bytes of a C# `int`, as BinaryWriter.Write(int) emits them. */
  function Int32Bytes(n: int): (r: seq<byte>)
    requires IsInt32(n)
    ensures |r| == 4
  {
    var u := n % TWO_TO_THE_32;
    [u % 256, (u / 256) % 256, (u / 256 / 256) % 256, u / 256 / 256 / 256]
  }

  /** The C# `int` that four little-endian bytes hold, as BinaryReader.ReadInt32 returns it. */
  function Int32Of(b0: byte, b1: byte, b2: byte, b3: byte): (n: int)
    ensures IsInt32(n)
  {
    ToInt32(b0 + 256 * (b1 + 256 * (b2 + 256 * b3)))
  }

  lemma Int32RoundTrip(n: int)
    requires IsInt32(n)
    ensures var b := Int32Bytes(n); Int32Of(b[0], b[1], b[2], b[3]) == n
  {
    var u := n % TWO_TO_THE_32;
    var u1 := u / 256;
    var u2 := u1 / 256;
    assert u2 == u2 % 256 + 256 * (u2 / 256);
    assert u1 == u1 % 256 + 256 * u2;
    assert u == u % 256 + 256 * u1;
  }

  lemma MulSplit(m: nat, P: nat)
    ensures m * P == (m / 128) * (128 * P) + (m % 128) * P
  {
    var q := m / 128;
    var r := m % 128;
    assert m == q * 128 + r;
    calc {
      m * P;
      (q * 128 + r) * P;
      q * 128 * P + r * P;
    }
  }

  lemma MulMonotone(g: nat, m: nat, P: nat)
    requires g <= m
    ensures g * P <= m * P
  {
  }

  lemma DigitBelow(acc: nat, g: nat, P: nat)
    requires acc < P && g <= 127
    ensures acc + g * P < 128 * P
  {
    assert g * P <= 127 * P;
  }

  /** `x` occurs in `s` starting at position `p`, stated byte by byte. */
  predicate At(s: seq<byte>, p: nat, x: seq<byte>)
    decreases |x|
  {
    if |x| == 0 then p <= |s| else p < |s| && s[p] == x[0] && At(s, p + 1, x[1..])
  }

  /** At as a slice of `s`. */
  lemma {:induction false} AtSlice(s: seq<byte>, p: nat, x: seq<byte>)
    ensures At(s, p, x) <==> p + |x| <= |s| && s[p..p + |x|] == x
    decreases |x|
  {
    if x != [] {
      AtSlice(s, p + 1, x[1..]);
      if p + |x| <= |s| {
        assert s[p..p + |x|] == [s[p]] + s[p + 1..p + 1 + |x[1..]|];
        assert x == [x[0]] + x[1..];
      }
    }
  }

  lemma {:induction false} AtSplit(s: seq<byte>, p: nat, a: seq<byte>, b: seq<byte>)
    requires At(s, p, a + b)
    ensures At(s, p, a) && At(s, p + |a|, b)
    decreases |a|
  {
    if a == [] {
      assert a + b == b;
      AtSlice(s, p, b);
    } else {
      assert (a + b)[0] == a[0];
      assert (a + b)[1..] == a[1..] + b;
      AtSplit(s, p + 1, a[1..], b);
    }
  }

  /** AtSplit with the second half's position given: `b` starts at `q`. */
  lemma AtSplitAt(s: seq<byte>, p: nat, a: seq<byte>, b: seq<byte>, q: nat)
    requires At(s, p, a + b) && q == p + |a|
    ensures At(s, p, a) && At(s, q, b)
  {
    AtSplit(s, p, a, b);
  }

  // Layout: a concatenation of parts, and where each part starts.

  function Cat(parts: seq<seq<byte>>): (r: seq<byte>)
    decreases |parts|
  {
    if parts == [] then [] else parts[0] + Cat(parts[1..])
  }

  /** Where each part starts when the parts are laid out from `p`; the last entry is where they end. */
  function Offsets(p: nat, parts: seq<seq<byte>>): (ps: seq<nat>)
    ensures |ps| == |parts| + 1 && ps[0] == p
    decreases |parts|
  {
    if parts == [] then [p] else [p] + Offsets(p + |parts[0]|, parts[1..])
  }

  /** Laying out the concatenation lays out every part at its offset, one after the other. */
  lemma {:induction false} AtEach(s: seq<byte>, p: nat, parts: seq<seq<byte>>)
    requires At(s, p, Cat(parts))
    ensures var ps := Offsets(p, parts);
      ps[|parts|] == p + |Cat(parts)| &&
      forall i | 0 <= i < |parts| :: ps[i + 1] == ps[i] + |parts[i]| && At(s, ps[i], parts[i])
    decreases |parts|
  {
    if parts != [] {
      var q := p + |parts[0]|;
      AtSplit(s, p, parts[0], Cat(parts[1..]));
      AtEach(s, q, parts[1..]);
      var ps := Offsets(p, parts);
      assert forall i | 1 <= i <= |parts| :: ps[i] == Offsets(q, parts[1..])[i - 1];
    }
  }

  /** One part of a laid-out concatenation, without the quantifier over all of them. */
  lemma AtPart(s: seq<byte>, p: nat, parts: seq<seq<byte>>, i: nat)
    requires At(s, p, Cat(parts)) && i < |parts|
    ensures var ps := Offsets(p, parts);
      ps[i + 1] == ps[i] + |parts[i]| && At(s, ps[i], parts[i]) && ps[|parts|] == p + |Cat(parts)| &&
      ps[i] < ps[i + 1] + 1 <= |s| + 1
  {
    AtEach(s, p, parts);
    AtSlice(s, Offsets(p, parts)[i], parts[i]);
  }
}
