/**
 * The System.String operations the conversion rules rely on, over strings
 * as sequences of characters: Trim (with char.IsWhiteSpace's set), ordinal
 * prefix and suffix tests, OrdinalIgnoreCase prefix tests, Split('=') taken
 * at its last part, Replace of one character, and int formatting.
 */
module Text {

  /** char.IsWhiteSpace: U+0009 to U+000D, the Unicode space separators, U+0085 and the
      line and paragraph separators. */
  const WHITESPACE: set<char> := {
    '\t', '\n', '\U{B}', '\U{C}', '\r', ' ', '\U{85}', '\U{A0}', '\U{1680}',
    '\U{2000}', '\U{2001}', '\U{2002}', '\U{2003}', '\U{2004}', '\U{2005}', '\U{2006}',
    '\U{2007}', '\U{2008}', '\U{2009}', '\U{200A}', '\U{2028}', '\U{2029}', '\U{202F}',
    '\U{205F}', '\U{3000}'}

  predicate IsWhiteSpace(c: char) {
    c in WHITESPACE
  }

  function TrimStart(s: string): (r: string)
    ensures |r| <= |s| && r == s[|s| - |r|..]
    ensures r == [] || !IsWhiteSpace(r[0])
  {
    if s != [] && IsWhiteSpace(s[0]) then TrimStart(s[1..]) else s
  }

  lemma {:induction false} TrimStartDrops(s: string)
    ensures forall i | 0 <= i < |s| - |TrimStart(s)| :: IsWhiteSpace(s[i])
    decreases |s|
  {
    if s != [] && IsWhiteSpace(s[0]) {
      TrimStartDrops(s[1..]);
      forall i | 1 <= i < |s| - |TrimStart(s)|
        ensures IsWhiteSpace(s[i])
      {
        assert s[i] == s[1..][i - 1];
      }
    }
  }

  function TrimEnd(s: string): (r: string)
    ensures |r| <= |s| && r == s[..|r|]
    ensures r == [] || !IsWhiteSpace(r[|r| - 1])
  {
    if s != [] && IsWhiteSpace(s[|s| - 1]) then TrimEnd(s[..|s| - 1]) else s
  }

  lemma {:induction false} TrimEndDrops(s: string)
    ensures forall i | |TrimEnd(s)| <= i < |s| :: IsWhiteSpace(s[i])
    decreases |s|
  {
    if s != [] && IsWhiteSpace(s[|s| - 1]) {
      TrimEndDrops(s[..|s| - 1]);
      forall i | |TrimEnd(s)| <= i < |s| - 1
        ensures IsWhiteSpace(s[i])
      {
        assert s[i] == s[..|s| - 1][i];
      }
    }
  }

  /** String.Trim(): whitespace removed from both ends, the middle kept. */
  function Trim(s: string): (r: string)
  {
    TrimEnd(TrimStart(s))
  }

  /** Trim keeps a contiguous part of its input, drops only whitespace, and leaves none at either end. */
  lemma TrimSpec(s: string)
    ensures var r, i := Trim(s), |s| - |TrimStart(s)|;
      i + |r| <= |s| && s[i..i + |r|] == r &&
      (forall j | 0 <= j < i :: IsWhiteSpace(s[j])) &&
      (forall j | i + |r| <= j < |s| :: IsWhiteSpace(s[j]))
    ensures var r := Trim(s); r == [] || (!IsWhiteSpace(r[0]) && !IsWhiteSpace(r[|r| - 1]))
  {
    var t := TrimStart(s);
    var r := TrimEnd(t);
    var i := |s| - |t|;
    TrimStartDrops(s);
    TrimEndDrops(t);
    InnerSlice(s, i, r);
    forall j | i + |r| <= j < |s|
      ensures IsWhiteSpace(s[j])
    {
      assert IsWhiteSpace(t[j - i]);
    }
    TrimStartOf(t);
  }

  /** A prefix of a suffix is a slice, and what follows it is what follows it in the suffix. */
  lemma InnerSlice<T>(s: seq<T>, i: nat, r: seq<T>)
    requires i <= |s| && |r| <= |s| - i && r == s[i..][..|r|]
    ensures s[i..i + |r|] == r
    ensures forall j | i + |r| <= j < |s| :: s[j] == s[i..][j - i]
  {
  }

  lemma TrimStartOf(t: string)
    requires t == [] || !IsWhiteSpace(t[0])
    ensures TrimEnd(t) == [] || !IsWhiteSpace(TrimEnd(t)[0])
  {
    if TrimEnd(t) != [] {
      assert TrimEnd(t)[0] == t[0];
    }
  }

  /** Trimming twice is trimming once. */
  lemma TrimIdempotent(s: string)
    ensures Trim(Trim(s)) == Trim(s)
  {
    var r := Trim(s);
    TrimSpec(s);
    assert TrimStart(r) == r;
    assert TrimEnd(r) == r;
  }

  /** Ordinal String.StartsWith / StartsWith(char). */
  predicate StartsWith(s: string, prefix: string) {
    |prefix| <= |s| && s[..|prefix|] == prefix
  }

  /** Ordinal String.EndsWith(char). */
  predicate EndsWith(s: string, c: char) {
    |s| > 0 && s[|s| - 1] == c
  }

  /** The ordinal upper-casing OrdinalIgnoreCase applies, restricted to what can meet an ASCII
      letter: a-z become A-Z and every other character is kept (ordinal casing leaves the dotless i
      and the long s as they are). */
  function UpperAscii(c: char): (u: char)
    ensures 'A' <= u <= 'Z' <==> 'A' <= c <= 'Z' || 'a' <= c <= 'z'
    ensures !('a' <= c <= 'z') ==> u == c
  {
    if 'a' <= c <= 'z' then (c as int - 32) as char
    else c
  }

  /** StartsWith(prefix, StringComparison.OrdinalIgnoreCase), for a prefix of ASCII characters. */
  predicate StartsWithIgnoreCase(s: string, prefix: string) {
    |prefix| <= |s| && forall i | 0 <= i < |prefix| :: UpperAscii(s[i]) == UpperAscii(prefix[i])
  }

  /** Equals(other, StringComparison.OrdinalIgnoreCase), for ASCII `other`. */
  predicate EqualsIgnoreCase(s: string, other: string) {
    |s| == |other| && StartsWithIgnoreCase(s, other)
  }

  /** The last part of s.Split(c): the text after the last `c`, or all of `s` when there is none. */
  function AfterLast(s: string, c: char): (r: string)
    ensures |r| <= |s| && r == s[|s| - |r|..]
    ensures c !in r
    ensures |r| < |s| ==> s[|s| - |r| - 1] == c
  {
    if s == [] then []
    else if s[|s| - 1] == c then []
    else AfterLast(s[..|s| - 1], c) + [s[|s| - 1]]
  }

  /** The text after the last `c` of `a + b` is `b` when `b` holds no `c` and `a` is empty or ends in `c`. */
  lemma {:induction false} AfterLastJoined(a: string, b: string, c: char)
    requires c !in b && (a == [] || a[|a| - 1] == c)
    ensures AfterLast(a + b, c) == b
    decreases |b|
  {
    if b != [] {
      var s := a + b;
      var init := b[..|b| - 1];
      assert s[|s| - 1] == b[|b| - 1];
      assert s[..|s| - 1] == a + init;
      AfterLastJoined(a, init, c);
      assert init + [b[|b| - 1]] == b;
    } else {
      assert a + b == a;
    }
  }

  /** String.Replace(char, char). */
  function Replace(s: string, from: char, to: char): (r: string)
    ensures |r| == |s|
    ensures forall i | 0 <= i < |s| :: r[i] == if s[i] == from then to else s[i]
  {
    if s == [] then [] else [if s[0] == from then to else s[0]] + Replace(s[1..], from, to)
  }

  /** String.Replace(string, "") for a one-character string: every `c` deleted. */
  function Remove(s: string, c: char): (r: string)
    ensures c !in r
    ensures |r| <= |s|
  {
    if s == [] then [] else (if s[0] == c then [] else [s[0]]) + Remove(s[1..], c)
  }

  function DigitChar(d: nat): char
    requires d < 10
  {
    ('0' as int + d) as char
  }

  /** Int32.ToString() of a non-negative value: its decimal digits without leading zeros. */
  function NatToString(n: nat): (r: string)
    ensures |r| >= 1
    ensures forall i | 0 <= i < |r| :: '0' <= r[i] <= '9'
    ensures n > 0 ==> r[0] != '0'
  {
    if n < 10 then [DigitChar(n)] else NatToString(n / 10) + [DigitChar(n % 10)]
  }
}
