/** Absolute paths as sequences of segments, and their text form.  The tree, the
    calculator and the mount table all speak of paths in this form; where the source
    works on the joined text instead, the module of path texts proves that the two
    forms agree. */
module Paths {

  type Path = seq<string>

  function Parent(p: Path): (r: Path)
    ensures p != [] ==> r + [p[|p| - 1]] == p && |r| < |p|
    ensures p == [] ==> r == []
  {
    if p == [] then [] else p[..|p| - 1]
  }

  predicate LegalSegment(s: string) {
    s != "" && '/' !in s
  }

  predicate Legal(p: Path) {
    forall i :: 0 <= i < |p| ==> LegalSegment(p[i])
  }

  function Slashed(p: Path): string {
    if p == [] then "" else "/" + p[0] + Slashed(p[1..])
  }

  /** The absolute reference of a path: "/" for the root, else "/a/b/c". */
  function Key(p: Path): string {
    if p == [] then "/" else Slashed(p)
  }

  /** Where a path ends up when the subtree at `from` is moved to `to`. */
  function Rebase(p: Path, from: Path, to: Path): Path {
    if from <= p then to + p[|from|..] else p
  }

  lemma RebaseChild(p: Path, name: string, from: Path, to: Path)
    requires from <= p <==> from <= p + [name]
    ensures Rebase(p + [name], from, to) == Rebase(p, from, to) + [name]
  {
    if from <= p {
      assert (p + [name])[|from|..] == p[|from|..] + [name];
    }
  }

  lemma PrefixesCompare(a: Path, b: Path, p: Path)
    requires a <= p && b <= p
    ensures a <= b || b <= a
  {
    if |a| <= |b| {
      assert a == b[..|a|];
    } else {
      assert b == a[..|b|];
    }
  }

  lemma PrefixOfChild(a: Path, p: Path, name: string)
    ensures a <= p + [name] <==> a <= p || a == p + [name]
  {
    if a <= p + [name] && |a| <= |p| {
      assert a == (p + [name])[..|a|] == p[..|a|];
    }
  }

  lemma ChildInjective(a: Path, x: string, b: Path, y: string)
    requires a + [x] == b + [y]
    ensures a == b && x == y
  {
    assert a == (a + [x])[..|a|] && b == (b + [y])[..|b|];
    assert x == (a + [x])[|a|] && y == (b + [y])[|b|];
  }
}
