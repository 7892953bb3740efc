/**
 * Path.Combine as .NET applies it with '/' as the directory separator: an
 * empty part is dropped, a rooted second part replaces the first, and a
 * separator is added only when the first part does not end in one.
 */
module Paths {
  const SEPARATOR: char := '/'

  predicate Rooted(p: string) {
    |p| > 0 && p[0] == SEPARATOR
  }

  function Combine(a: string, b: string): (r: string)
    ensures b != [] && !Rooted(b) && a != [] ==>
      |a| + |b| <= |r| && r[..|a|] == a && r[|r| - |b|..] == b
    ensures Rooted(b) ==> r == b
  {
    if b == [] then a
    else if a == [] || Rooted(b) then b
    else if a[|a| - 1] == SEPARATOR then a + b
    else a + [SEPARATOR] + b
  }

  /** Two plain parts are joined by one separator. */
  lemma CombineJoins(a: string, b: string)
    requires |a| > 0 && a[|a| - 1] != SEPARATOR && |b| > 0 && b[0] != SEPARATOR
    ensures Combine(a, b) == a + "/" + b
  {
  }

  /** Four plain parts are joined by separators. */
  lemma Combine4Joins(a: string, b: string, c: string, d: string)
    requires |a| > 0 && a[|a| - 1] != SEPARATOR
    requires |b| > 0 && b[0] != SEPARATOR && b[|b| - 1] != SEPARATOR
    requires |c| > 0 && c[0] != SEPARATOR && c[|c| - 1] != SEPARATOR
    requires |d| > 0 && d[0] != SEPARATOR
    ensures Combine4(a, b, c, d) == a + "/" + b + "/" + c + "/" + d
  {
    CombineJoins(a, b);
    var ab := a + "/" + b;
    assert ab[|ab| - 1] == b[|b| - 1];
    CombineJoins(ab, c);
    var abc := ab + "/" + c;
    assert abc[|abc| - 1] == c[|c| - 1];
    CombineJoins(abc, d);
  }

  function Combine4(a: string, b: string, c: string, d: string): string {
    Combine(Combine(Combine(a, b), c), d)
  }
}
