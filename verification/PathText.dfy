/** Path tests done on text. */
module PathText {
  // The "/"-joined keys, the string-prefix tests on them, and the splitting of a key
  // into its ancestor directories.

  import opened Paths
  import Policy

  predicate AtSlash(s: string) {
    s != "" && s[0] == '/'
  }

  // ---- Keys are faithful ----

  lemma {:induction false} SlashedConcat(p: Path, q: Path)
    ensures Slashed(p + q) == Slashed(p) + Slashed(q)
  {
    if p == [] {
      assert p + q == q;
    } else {
      SlashedConcat(p[1..], q);
      assert (p + q)[0] == p[0] && (p + q)[1..] == p[1..] + q;
    }
  }

  /** Slash-free heads followed by the same separator are equal. */
  lemma HeadsAgree(a: string, x: string, b: string, y: string)
    requires '/' !in a && '/' !in b
    requires a + x <= b + y && (x == "" || AtSlash(x)) && (y == "" || AtSlash(y))
    requires x == "" ==> |a| == |b + y| || (b + y)[|a|] == '/'
    ensures a == b && x <= y
  {
    var s := b + y;
    assert a + x == s[..|a + x|];
    assert |a| < |s| ==> s[|a|] == '/' by {
      assert x != "" ==> (a + x)[|a|] == '/';
    }
    assert |b| < |s| ==> s[|b|] == '/';
    assert forall i :: 0 <= i < |a| ==> s[i] == (a + x)[i] == a[i] != '/';
    assert forall i :: 0 <= i < |b| ==> s[i] == b[i] != '/';
    assert |a| == |b|;
    assert a == (a + x)[..|a|] == s[..|b|] == b;
    assert x == (a + x)[|a|..] && y == s[|b|..];
  }

  /** A text prefix that ends at a segment boundary is a segment prefix. */
  lemma {:induction false} BoundaryPrefix(p: Path, q: Path)
    requires Legal(p) && Legal(q)
    requires Slashed(p) <= Slashed(q)
    requires Slashed(p) == Slashed(q) || Slashed(q)[|Slashed(p)|] == '/'
    ensures p <= q
  {
    if p != [] {
      assert q != [] by {
        assert |Slashed(p)| > 0;
      }
      var sp, sq := Slashed(p), Slashed(q);
      var a, x, b, y := p[0], Slashed(p[1..]), q[0], Slashed(q[1..]);
      assert sp[1..] == a + x && sq[1..] == b + y;
      assert sp[1..] <= sq[1..] by {
        assert sp == sq[..|sp|];
      }
      if x == "" {
        assert |a| + 1 == |sp|;
        assert |a| != |b + y| ==> (b + y)[|a|] == sq[|sp|];
      }
      HeadsAgree(a, x, b, y);
      BoundaryRest(a, x, y, sp, sq);
      BoundaryPrefix(p[1..], q[1..]);
      assert p == [a] + p[1..] && q == [a] + q[1..];
    }
  }

  lemma BoundaryRest(a: string, x: string, y: string, sp: string, sq: string)
    requires sp == "/" + a + x && sq == "/" + a + y && x <= y
    requires sp == sq || (|sp| < |sq| && sq[|sp|] == '/')
    ensures x == y || y[|x|] == '/'
  {
    if sp == sq {
      assert x == sp[1 + |a|..] && y == sq[1 + |a|..];
    } else {
      assert sq[|sp|] == y[|x|];
    }
  }

  lemma SlashedStart(p: Path)
    ensures p == [] <==> Slashed(p) == ""
    ensures p != [] ==> AtSlash(Slashed(p)) && Key(p) == Slashed(p)
  {
  }

  /** Different legal paths have different keys. */
  lemma KeyInjective(p: Path, q: Path)
    requires Legal(p) && Legal(q) && Key(p) == Key(q)
    ensures p == q
  {
    RootKey(p);
    RootKey(q);
    if p != [] && q != [] {
      BoundaryPrefix(p, q);
      BoundaryPrefix(q, p);
    }
  }

  lemma RootKey(p: Path)
    requires Legal(p)
    ensures Key(p) == "/" <==> p == []
    ensures p != [] ==> |Key(p)| > 1 && Key(p)[|Key(p)| - 1] != '/'
  {
    if p != [] {
      var up, last := p[..|p| - 1], p[|p| - 1];
      assert p == up + [last];
      SlashedConcat(up, [last]);
      assert Slashed([last]) == "/" + last;
      assert Key(p) == Slashed(up) + "/" + last;
    }
  }

  // ---- The string tests used on keys ----

  /** candidate.strip_prefix(parent).is_some_and(starts_with('/')), or equality:
      the selection in rekey_subtree. */
  predicate SelectedBy(from: string, key: string) {
    key == from || (from <= key && AtSlash(key[|from|..]))
  }

  /** `under` in the session: everything is under the root. */
  predicate Under(candidate: string, parent: string) {
    candidate == parent || (parent <= candidate && (parent == "/" || AtSlash(candidate[|parent|..])))
  }

  function TrimEnd(s: string): string {
    if s != "" && s[|s| - 1] == '/' then TrimEnd(s[..|s| - 1]) else s
  }

  /** The test of ensure_empty_dir for one entry. */
  predicate StrictlyBelow(dir: string, entry: string) {
    entry != dir && TrimEnd(dir) + "/" <= entry
  }

  /** For a non-root subtree the text test selects exactly the paths at or below it. */
  lemma SelectionIsPrefix(from: Path, p: Path)
    requires Legal(from) && Legal(p) && from != []
    ensures SelectedBy(Key(from), Key(p)) <==> from <= p
  {
    var s, t := Key(from), Key(p);
    SlashedStart(from);
    RootKey(from);
    if SelectedBy(s, t) {
      assert p != [];
      if s != t {
        assert t[|s|] == t[|s|..][0];
      }
      BoundaryPrefix(from, p);
    }
    if from <= p {
      SlashedConcat(from, p[|from|..]);
      assert p == from + p[|from|..];
      SlashedStart(p[|from|..]);
      assert t == s + Slashed(p[|from|..]);
      assert t[|s|..] == Slashed(p[|from|..]);
    }
  }

  /** With the root every key would have to start "//": the test would select
      the root alone, so the caller must rule the root out. */
  lemma RootSelectsOnlyItself(p: Path)
    requires Legal(p)
    ensures SelectedBy(Key([]), Key(p)) <==> p == []
  {
    RootKey(p);
    if p != [] {
      var t := Key(p);
      assert t[1..] == p[0] + Slashed(p[1..]);
      assert t[1..][0] == p[0][0] != '/';
      assert Key([]) == "/" && t[|"/"|..] == t[1..];
      hide Slashed, TrimEnd;
    }
  }

  lemma UnderIsPrefix(candidate: Path, parent: Path)
    requires Legal(candidate) && Legal(parent)
    ensures Under(Key(candidate), Key(parent)) <==> parent <= candidate
  {
    RootKey(parent);
    if parent == [] {
      SlashedStart(candidate);
    } else {
      SelectionIsPrefix(parent, candidate);
    }
  }

  lemma EmptinessIsPrefix(dir: Path, entry: Path)
    requires Legal(dir) && Legal(entry)
    ensures StrictlyBelow(Key(dir), Key(entry)) <==> dir <= entry && entry != dir
  {
    RootKey(dir);
    SlashedStart(entry);
    if dir == [] {
      assert TrimEnd("/") == "" by {
        assert "/"[..0] == "";
      }
      RootKey(entry);
    } else {
      SelectionIsPrefix(dir, entry);
      var s, t := Key(dir), Key(entry);
      assert TrimEnd(s) == s;
      assert s + "/" <= t <==> s <= t && AtSlash(t[|s|..]);
      if entry != dir && Key(entry) == Key(dir) {
        KeyInjective(entry, dir);
      }
    }
  }

  /** Replacing the text prefix is replacing the segment prefix. */
  lemma SuffixIsRebase(p: Path, from: Path, to: Path)
    requires from != [] && to != [] && from <= p
    ensures Key(from) <= Key(p)
    ensures Key(to) + Key(p)[|Key(from)|..] == Key(Rebase(p, from, to))
  {
    var rest := p[|from|..];
    assert p == from + rest;
    SlashedConcat(from, rest);
    SlashedConcat(to, rest);
  }

  // ---- ancestor_directories ----

  function TrimStart(s: string): string {
    if AtSlash(s) then TrimStart(s[1..]) else s
  }

  /** Text split at every '/': always at least one piece. */
  function Split(s: string): (pieces: seq<string>)
    ensures pieces != []
  {
    if s == "" then [""]
    else if s[0] == '/' then [""] + Split(s[1..])
    else
      var rest := Split(s[1..]);
      [[s[0]] + rest[0]] + rest[1..]
  }

  function NonEmpty(pieces: seq<string>): seq<string> {
    if pieces == [] then []
    else (if pieces[0] == "" then [] else [pieces[0]]) + NonEmpty(pieces[1..])
  }

  function Segments(key: string): seq<string> {
    NonEmpty(Split(TrimStart(key)))
  }

  lemma {:induction false} SplitSegment(name: string, rest: string)
    requires '/' !in name && (rest == "" || AtSlash(rest))
    ensures Split(name + rest) == [name] + if rest == "" then [] else Split(rest[1..])
  {
    if name == "" {
      assert name + rest == rest;
    } else {
      SplitSegment(name[1..], rest);
      assert (name + rest)[1..] == name[1..] + rest && (name + rest)[0] == name[0];
      assert [name[0]] + name[1..] == name;
    }
  }

  lemma {:induction false} SplitSlashed(p: Path)
    requires Legal(p) && p != []
    ensures Split(Slashed(p)[1..]) == p
  {
    var rest := Slashed(p[1..]);
    assert Slashed(p)[1..] == p[0] + rest;
    SlashedStart(p[1..]);
    SplitSegment(p[0], rest);
    if p[1..] != [] {
      SplitSlashed(p[1..]);
    }
    assert p == [p[0]] + p[1..];
  }

  lemma {:induction false} NonEmptyLegal(p: Path)
    requires Legal(p)
    ensures NonEmpty(p) == p
  {
    if p != [] {
      NonEmptyLegal(p[1..]);
    }
  }

  /** Splitting a key gives its path back. */
  lemma SegmentsOfKey(p: Path)
    requires Legal(p)
    ensures Segments(Key(p)) == p
  {
    if p == [] {
      assert TrimStart("/") == "" by {
        assert "/"[1..] == "";
      }
      assert Split("") == [""];
      assert NonEmpty([""]) == [] by {
        assert [""][1..] == [];
      }
    } else {
      var t := Slashed(p)[1..];
      assert t == p[0] + Slashed(p[1..]);
      assert t[0] == p[0][0];
      assert TrimStart(Slashed(p)) == TrimStart(t) == t;
      SplitSlashed(p);
      NonEmptyLegal(p);
    }
  }

  /** The keys of the first n + 1 prefixes, shortest first. */
  ghost function PrefixKeys(p: Path, n: nat): seq<string>
    requires n <= |p|
  {
    seq(n + 1, i requires 0 <= i <= n => Key(p[..i]))
  }

  lemma PrefixStart(p: Path)
    ensures PrefixKeys(p, 0) == ["/"] && Slashed(p[..0]) == ""
  {
    assert p[..0] == [];
  }

  /** One segment more: the joined text grows and is the next key. */
  lemma PrefixStep(p: Path, i: nat)
    requires i < |p|
    ensures Slashed(p[..i + 1]) == Slashed(p[..i]) + "/" + p[i]
    ensures PrefixKeys(p, i + 1) == PrefixKeys(p, i) + [Slashed(p[..i + 1])]
  {
    assert p[..i + 1] == p[..i] + [p[i]];
    SlashedConcat(p[..i], [p[i]]);
    assert Slashed([p[i]]) == "/" + p[i];
    hide Slashed;
  }

  lemma PrefixAncestors(p: Path)
    ensures var n := if p == [] then 0 else |p| - 1;
            && |PrefixKeys(p, n)| == |Policy.Ancestors(p)| == n + 1
            && forall i :: 0 <= i <= n ==> PrefixKeys(p, n)[i] == Key(p[..i]) == Key(Policy.Ancestors(p)[i])
  {
    hide Key;
  }

  /** ancestor_directories: for the key of a path it yields the keys of exactly
      the proper prefixes, shortest first; for the root key, the root. */
  method AncestorDirectories(cell: string, ghost p: Path) returns (ancestors: seq<string>)
    requires Legal(p) && cell == Key(p)
    ensures |ancestors| == if p == [] then 1 else |p|
    ensures forall i :: 0 <= i < |ancestors| ==> ancestors[i] == Key(p[..i]) == Key(Policy.Ancestors(p)[i])
  {
    SegmentsOfKey(p);
    PrefixStart(p);
    hide *;
    ancestors := ["/"];
    var segments := Segments(cell);
    if segments != [] {
      segments := segments[..|segments| - 1];
    }
    var current := "";
    for i := 0 to |segments|
      invariant ancestors == PrefixKeys(p, i) && current == Slashed(p[..i])
    {
      PrefixStep(p, i);
      current := current + "/" + segments[i];
      ancestors := ancestors + [current];
    }
    PrefixAncestors(p);
  }
}
