/** What a read-only mount protects. */
module Shields {
  // Everything at or below a read-only mount stays as it is, whatever is created, moved,
  // deleted or written elsewhere in the tree or is refused there.

  import opened Syntax
  import opened Paths
  import opened Namespaces
  import opened TreeIndex
  import opened TreeRecords
  import M = Mounts

  /** A read-only mount lies at the path or above it. */
  ghost predicate Shielded(mounts: map<Path, M.Mount>, p: Path) {
    exists n :: 0 <= n <= |p| && p[..n] in mounts && mounts[p[..n]].backend == M.ReadOnly
  }

  /** The two trees hold the same entry, cell and source at the path. */
  predicate SameAt(before: Tree, after: Tree, p: Path) {
    && (p in before.entries <==> p in after.entries) && (p in before.entries ==> before.entries[p] == after.entries[p])
    && (p in before.cells <==> p in after.cells) && (p in before.cells ==> before.cells[p] == after.cells[p])
    && (p in before.sources <==> p in after.sources) && (p in before.sources ==> before.sources[p] == after.sources[p])
  }

  ghost predicate Kept(mounts: map<Path, M.Mount>, before: Tree, after: Tree) {
    forall p {:trigger Shielded(mounts, p)} :: Shielded(mounts, p) ==> SameAt(before, after, p)
  }

  lemma ShieldedBy(mounts: map<Path, M.Mount>, m: Path, p: Path)
    requires m in mounts && mounts[m].backend.ReadOnly? && m <= p
    ensures Shielded(mounts, p)
  {
    assert p[..|m|] == m;
  }

  lemma ShieldOf(mounts: map<Path, M.Mount>, p: Path) returns (m: Path)
    requires Shielded(mounts, p)
    ensures m in mounts && mounts[m].backend.ReadOnly? && m <= p
  {
    var n :| 0 <= n <= |p| && p[..n] in mounts && mounts[p[..n]].backend == M.ReadOnly;
    m := p[..n];
  }

  lemma NothingChanges(mounts: map<Path, M.Mount>, before: Tree, after: Tree)
    requires before.entries == after.entries && before.cells == after.cells && before.sources == after.sources
    ensures Kept(mounts, before, after)
  {
    hide Shielded;
  }

  /** A free place in an unshielded directory is not shielded. */
  lemma NewPlaceOpen(mounts: map<Path, M.Mount>, entries: map<Path, NamespaceEntry>, p: Path)
    requires forall m :: m in mounts ==> m in entries
    requires p != [] && p !in entries && !Shielded(mounts, Parent(p))
    ensures !Shielded(mounts, p)
  {
    if Shielded(mounts, p) {
      var m := ShieldOf(mounts, p);
      PrefixOfChild(m, Parent(p), p[|p| - 1]);
      ShieldedBy(mounts, m, if m <= Parent(p) then Parent(p) else m);
      assert false;
    }
  }

  /** A change at one unshielded path. */
  lemma OnePlaceChanges(mounts: map<Path, M.Mount>, before: Tree, after: Tree, at: Path)
    requires !Shielded(mounts, at)
    requires before.entries - {at} == after.entries - {at}
    requires before.cells - {at} == after.cells - {at} && before.sources - {at} == after.sources - {at}
    ensures Kept(mounts, before, after)
  {
    hide Shielded;
    forall p | Shielded(mounts, p) ensures SameAt(before, after, p) {
      assert p in before.entries - {at} <==> p in before.entries;
      assert p in after.entries - {at} <==> p in after.entries;
      assert p in before.cells - {at} <==> p in before.cells;
      assert p in after.cells - {at} <==> p in after.cells;
      assert p in before.sources - {at} <==> p in before.sources;
      assert p in after.sources - {at} <==> p in after.sources;
    }
  }

  /** A move out of an unshielded place into an unshielded directory, with no mount in
      what is moved. */
  lemma MoveKeeps(mounts: map<Path, M.Mount>, before: Tree, after: Tree, from: Path, to: Path)
    requires forall m :: m in mounts ==> m in before.entries && !(from <= m)
    requires before.cells.Keys <= before.entries.Keys && before.sources == SourcesOf(before.cells)
    requires to != [] && Apart(from, to) && FreeBelow(before.entries, to)
    requires !Shielded(mounts, from) && !Shielded(mounts, Parent(to))
    requires after.entries == Rekeyed(before.entries, from, to) && after.cells == Rekeyed(before.cells, from, to)
    requires after.sources == SourcesOf(after.cells)
    ensures Kept(mounts, before, after)
  {
    NewPlaceOpen(mounts, before.entries, to);
    hide Rekeyed;
    forall p | Shielded(mounts, p) ensures SameAt(before, after, p) {
      var m := ShieldOf(mounts, p);
      NotMoved(mounts, m, p, from);
      NotMoved(mounts, m, p, to);
      assert !(from <= p) && !(to <= p);
      RekeyedAt(before.entries, from, to, p);
      RekeyedAt(before.cells, from, to, p);
    }
  }

  /** What a mount shields is not in a subtree that neither it nor a mount is in. */
  lemma NotMoved(mounts: map<Path, M.Mount>, m: Path, p: Path, top: Path)
    requires m in mounts && mounts[m].backend.ReadOnly? && m <= p && !Shielded(mounts, top) && !(top <= m)
    ensures !(top <= p)
  {
    if top <= p {
      PrefixesCompare(m, top, p);
      ShieldedBy(mounts, m, top);
      assert false;
    }
  }
}
