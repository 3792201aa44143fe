/** The flat index of the tree. */
module TreeIndex {
  // The index kept beside the namespace, and the exact effect of moving a subtree
  // on it.

  import opened Syntax
  import opened Paths
  import opened Namespaces

  // ---- Rekeying ----

  /** The map after the keys in `done`, all at or below `from`, have been renamed. */
  function RekeyedPart<T>(m: map<Path, T>, done: set<Path>, from: Path, to: Path): map<Path, T>
    requires forall p :: p in done ==> p in m && from <= p
  {
    var renamed := set p | p in done :: Rebase(p, from, to);
    (m - done) + map q | q in renamed && Rebase(q, to, from) in m :: m[Rebase(q, to, from)]
  }

  function AtOrBelow(keys: set<Path>, from: Path): set<Path> {
    set p | p in keys && from <= p
  }

  function Rekeyed<T>(m: map<Path, T>, from: Path, to: Path): map<Path, T> {
    RekeyedPart(m, AtOrBelow(m.Keys, from), from, to)
  }

  predicate Apart(from: Path, to: Path) {
    !(from <= to) && !(to <= from)
  }

  predicate FreeBelow<T>(m: map<Path, T>, to: Path) {
    forall p | p in m :: !(to <= p)
  }

  lemma RebaseBack(p: Path, from: Path, to: Path)
    requires from <= p && Apart(from, to)
    ensures to <= Rebase(p, from, to) && !(from <= Rebase(p, from, to))
    ensures Rebase(Rebase(p, from, to), to, from) == p
  {
    var q := Rebase(p, from, to);
    assert q[..|to|] == to && q[|to|..] == p[|from|..];
    if from <= q {
      PrefixesCompare(from, to, q);
    }
  }

  /** What the partly renamed map holds at each key. */
  lemma PartAt<T>(m: map<Path, T>, done: set<Path>, from: Path, to: Path, q: Path)
    requires forall p :: p in done ==> p in m && from <= p
    requires Apart(from, to) && FreeBelow(m, to)
    ensures var r := RekeyedPart(m, done, from, to);
            if to <= q then (q in r <==> Rebase(q, to, from) in done) && (q in r ==> r[q] == m[Rebase(q, to, from)])
            else (q in r <==> q in m && q !in done) && (q in r ==> r[q] == m[q])
  {
    forall p | p in done ensures Rebase(Rebase(p, from, to), to, from) == p && to <= Rebase(p, from, to) {
      RebaseBack(p, from, to);
    }
    if to <= q {
      RebaseBack(q, to, from);
    }
  }

  /** One more renamed key: what one turn of the loop does to the map. */
  lemma RekeyOneMore<T>(m: map<Path, T>, done: set<Path>, key: Path, from: Path, to: Path)
    requires forall p :: p in done ==> p in m && from <= p
    requires key in m && from <= key && key !in done
    requires Apart(from, to) && FreeBelow(m, to)
    ensures key in RekeyedPart(m, done, from, to) && RekeyedPart(m, done, from, to)[key] == m[key]
    ensures RekeyedPart(m, done + {key}, from, to)
            == (RekeyedPart(m, done, from, to) - {key})[Rebase(key, from, to) := m[key]]
  {
    RebaseBack(key, from, to);
    PartAt(m, done, from, to, key);
    var before, after := RekeyedPart(m, done, from, to), RekeyedPart(m, done + {key}, from, to);
    var step := (before - {key})[Rebase(key, from, to) := m[key]];
    forall q ensures q in after <==> q in step
             ensures q in after ==> after[q] == step[q]
    {
      PartAt(m, done, from, to, q);
      PartAt(m, done + {key}, from, to, q);
      hide RekeyedPart;
      if to <= q {
        RebaseBack(q, to, from);
      }
    }
    assert after.Keys == step.Keys;
  }

  /** Rekeying is exact: every key at or below `from` moves to the same place
      below `to` with its value, every other key stays, and nothing is lost,
      added or overwritten. */
  lemma RekeyExact<T>(m: map<Path, T>, from: Path, to: Path)
    requires Apart(from, to) && FreeBelow(m, to)
    ensures forall p :: p in m ==> Rebase(p, from, to) in Rekeyed(m, from, to) && Rekeyed(m, from, to)[Rebase(p, from, to)] == m[p]
    ensures forall q :: q in Rekeyed(m, from, to) ==> exists p :: p in m && Rebase(p, from, to) == q
    ensures forall p, q :: p in m && q in m && Rebase(p, from, to) == Rebase(q, from, to) ==> p == q
  {
    var r := Rekeyed(m, from, to);
    forall p | p in m ensures Rebase(p, from, to) in r && r[Rebase(p, from, to)] == m[p] {
      if from <= p {
        RebaseBack(p, from, to);
      }
    }
    forall q | q in r ensures exists p :: p in m && Rebase(p, from, to) == q {
      if q in m && !(from <= q) {
        assert Rebase(q, from, to) == q;
      }
    }
    forall p, q | p in m && q in m && Rebase(p, from, to) == Rebase(q, from, to) ensures p == q {
      if from <= p {
        RebaseBack(p, from, to);
      }
      if from <= q {
        RebaseBack(q, from, to);
      }
    }
  }

  // ---- The index ----

  /** The index lists every directory and every cell but the orphans, each at its
      own path, and nothing else. */
  ghost predicate Indexed(f: Forest, entries: map<Path, NamespaceEntry>, orphans: set<CellId>) {
    && f.Sane()
    && orphans <= f.cells.Keys
    && (forall d {:trigger DirIndexed(f, entries, d)} :: d in f.dirs ==> DirIndexed(f, entries, d))
    && (forall c {:trigger CellIndexed(f, entries, c)} :: c in f.cells && c !in orphans ==> CellIndexed(f, entries, c))
    && (forall p {:trigger Listed(f, entries, orphans, p)} :: p in entries ==> Listed(f, entries, orphans, p))
  }

  ghost predicate DirIndexed(f: Forest, entries: map<Path, NamespaceEntry>, d: DirId)
    requires f.Sane() && d in f.dirs
  {
    f.paths[d] in entries && entries[f.paths[d]] == Dir(d)
  }

  ghost predicate CellIndexed(f: Forest, entries: map<Path, NamespaceEntry>, c: CellId)
    requires f.Sane() && c in f.cells
  {
    f.CellPath(c) in entries && entries[f.CellPath(c)] == Cell(c)
  }

  ghost predicate Listed(f: Forest, entries: map<Path, NamespaceEntry>, orphans: set<CellId>, p: Path)
    requires f.Sane() && p in entries
  {
    match entries[p]
    case Dir(d) => d in f.dirs && f.paths[d] == p
    case Cell(c) => c in f.cells && c !in orphans && f.CellPath(c) == p
  }

  /** The flat index and name-by-name resolution agree on every path. */
  lemma IndexAgrees(f: Forest, entries: map<Path, NamespaceEntry>, orphans: set<CellId>, p: Path)
    requires Indexed(f, entries, orphans)
    ensures p in entries ==> f.Resolve(p) == Some(entries[p])
    ensures f.Resolve(p).Some? && !(f.Resolve(p).value.Cell? && f.Resolve(p).value.cell in orphans) ==> p in entries
  {
    if p in entries {
      assert Listed(f, entries, orphans, p);
      match entries[p]
      case Dir(d) => f.DirResolves(d);
      case Cell(c) => f.CellResolves(c);
    }
    f.ResolvedIsThere(p);
    match f.Resolve(p)
    case Some(Dir(d)) => assert DirIndexed(f, entries, d);
    case Some(Cell(c)) => assert c !in orphans ==> CellIndexed(f, entries, c);
    case None =>
  }

  /** Every indexed path hangs from an indexed directory. */
  lemma ParentIndexed(f: Forest, entries: map<Path, NamespaceEntry>, orphans: set<CellId>, p: Path)
    requires Indexed(f, entries, orphans) && p in entries && p != []
    ensures Parent(p) in entries && entries[Parent(p)].Dir?
    ensures var s := Slot(entries[Parent(p)].dir, p[|p| - 1]); s in f.children && f.children[s] == entries[p]
  {
    assert Listed(f, entries, orphans, p);
    match entries[p]
    case Dir(d) =>
      assert d != f.root;
      assert f.DirLinked(d);
      assert DirIndexed(f, entries, f.dirs[d].parent.value);
      assert Parent(p) == f.paths[f.dirs[d].parent.value];
    case Cell(c) =>
      assert f.CellLinked(c);
      assert DirIndexed(f, entries, f.cells[c].parent);
      assert Parent(p) == f.paths[f.cells[c].parent];
  }

  /** Every proper prefix of an indexed path is an indexed directory. */
  lemma {:induction false} PrefixIndexed(f: Forest, entries: map<Path, NamespaceEntry>, orphans: set<CellId>, p: Path, up: Path)
    requires Indexed(f, entries, orphans) && p in entries && up <= p && up != p
    ensures up in entries && entries[up].Dir?
    decreases |p|
  {
    ParentIndexed(f, entries, orphans, p);
    if up != Parent(p) {
      PrefixIndexed(f, entries, orphans, Parent(p), up);
    }
  }

  /** An untaken slot is an unindexed path. */
  lemma FreeSlotFreePath(f: Forest, entries: map<Path, NamespaceEntry>, orphans: set<CellId>, parent: DirId, name: string)
    requires Indexed(f, entries, orphans) && parent in f.dirs && Slot(parent, name) !in f.children
    ensures f.paths[parent] + [name] !in entries
  {
    var p := f.paths[parent] + [name];
    assert DirIndexed(f, entries, parent);
    assert Parent(p) == f.paths[parent];
    if p in entries {
      ParentIndexed(f, entries, orphans, p);
    }
  }

  /** A free path has nothing below it, and is apart from every indexed path that
      it is not below. */
  lemma FreePathApart(f: Forest, entries: map<Path, NamespaceEntry>, orphans: set<CellId>, from: Path, to: Path)
    requires Indexed(f, entries, orphans) && from in entries && to !in entries && !(from <= to)
    ensures Apart(from, to) && FreeBelow(entries, to)
  {
    forall p | p in entries ensures !(to <= p) {
      if to <= p {
        PrefixIndexed(f, entries, orphans, p, to);
      }
    }
  }

  // ---- What each operation does to the index ----

  lemma AddCellIndexed(f: Forest, entries: map<Path, NamespaceEntry>, orphans: set<CellId>, id: CellId, s: Slot)
    requires Indexed(f, entries, orphans) && s.parent in f.dirs && s !in f.children && id !in f.cells
    ensures Indexed(f.AddCell(id, s), entries[f.paths[s.parent] + [s.name] := Cell(id)], orphans)
    ensures Indexed(f.AddCell(id, s), entries, orphans + {id})
  {
    f.AddCellSane(id, s);
    FreeSlotFreePath(f, entries, orphans, s.parent, s.name);
    var g := f.AddCell(id, s);
    var more := entries[f.paths[s.parent] + [s.name] := Cell(id)];
    forall d | d in g.dirs ensures DirIndexed(g, entries, d) && DirIndexed(g, more, d) { assert DirIndexed(f, entries, d); }
    forall c | c in g.cells && c !in orphans && c != id ensures CellIndexed(g, entries, c) && CellIndexed(g, more, c) {
      assert CellIndexed(f, entries, c);
    }
    assert CellIndexed(g, more, id);
    forall p | p in entries ensures Listed(g, entries, orphans + {id}, p) && Listed(g, entries, orphans, p) {
      assert Listed(f, entries, orphans, p);
    }
    forall p | p in more ensures Listed(g, more, orphans, p) {
      if p in entries { assert Listed(g, entries, orphans, p); }
    }
  }

  lemma AddDirIndexed(f: Forest, entries: map<Path, NamespaceEntry>, orphans: set<CellId>, id: DirId, s: Slot, patch: Patch)
    requires Indexed(f, entries, orphans) && s.parent in f.dirs && s !in f.children && id !in f.dirs
    ensures Indexed(f.AddDir(id, s, patch), entries[f.paths[s.parent] + [s.name] := Dir(id)], orphans)
  {
    f.AddDirSane(id, s, patch);
    FreeSlotFreePath(f, entries, orphans, s.parent, s.name);
    var g := f.AddDir(id, s, patch);
    var more := entries[f.paths[s.parent] + [s.name] := Dir(id)];
    forall d | d in g.dirs ensures DirIndexed(g, more, d) {
      if d != id { assert DirIndexed(f, entries, d); }
    }
    forall c | c in g.cells && c !in orphans ensures CellIndexed(g, more, c) {
      assert CellIndexed(f, entries, c);
      assert f.CellLinked(c);
    }
    forall p | p in more ensures Listed(g, more, orphans, p) {
      if p in entries { assert Listed(f, entries, orphans, p); CellPathsKept(f, g); }
    }
  }

  lemma CellPathsKept(f: Forest, g: Forest)
    requires f.Sane() && g.Sane() && g.cells == f.cells
    requires forall d :: d in f.dirs ==> d in g.dirs && g.paths[d] == f.paths[d]
    ensures forall c :: c in f.cells ==> g.CellPath(c) == f.CellPath(c)
  {
    forall c | c in f.cells ensures g.CellPath(c) == f.CellPath(c) {
      assert f.CellLinked(c);
    }
  }

  lemma DropCellIndexed(f: Forest, entries: map<Path, NamespaceEntry>, orphans: set<CellId>, p: Path)
    requires Indexed(f, entries, orphans) && p in entries && entries[p].Cell?
    ensures entries[p].cell in f.cells && Indexed(f.DropCell(entries[p].cell), entries - {p}, orphans)
  {
    assert Listed(f, entries, orphans, p);
    var id := entries[p].cell;
    f.DropCellSane(id);
    var g, less := f.DropCell(id), entries - {p};
    forall d | d in g.dirs ensures DirIndexed(g, less, d) { assert DirIndexed(f, entries, d); }
    forall c | c in g.cells && c !in orphans ensures CellIndexed(g, less, c) { assert CellIndexed(f, entries, c); }
    forall q | q in less ensures Listed(g, less, orphans, q) { assert Listed(f, entries, orphans, q); }
  }

  lemma DropDirIndexed(f: Forest, entries: map<Path, NamespaceEntry>, orphans: set<CellId>, p: Path)
    requires Indexed(f, entries, orphans) && p in entries && entries[p].Dir? && p != [] && !f.HasChildren(entries[p].dir)
    ensures entries[p].dir in f.dirs && entries[p].dir != f.root
    ensures f.DirLinked(entries[p].dir) && Indexed(f.DropDir(entries[p].dir), entries - {p}, orphans)
  {
    assert Listed(f, entries, orphans, p);
    var id := entries[p].dir;
    f.DropDirSane(id);
    var g, less := f.DropDir(id), entries - {p};
    forall d | d in g.dirs ensures DirIndexed(g, less, d) { assert DirIndexed(f, entries, d); }
    forall c | c in g.cells && c !in orphans ensures CellIndexed(g, less, c) {
      assert CellIndexed(f, entries, c);
      assert f.CellLinked(c);
    }
    forall q | q in less ensures Listed(g, less, orphans, q) {
      assert Listed(f, entries, orphans, q);
      assert entries[q].Cell? ==> f.CellLinked(entries[q].cell) && f.CellSlot(entries[q].cell).parent != id;
    }
  }

  /** A cell has nothing below it, and a free slot elsewhere is apart from it. */
  lemma CellStandsAlone(f: Forest, entries: map<Path, NamespaceEntry>, orphans: set<CellId>, from: Path, s: Slot)
    requires Indexed(f, entries, orphans) && from in entries && entries[from].Cell?
    requires s.parent in f.dirs && s !in f.children
    ensures var to := f.paths[s.parent] + [s.name];
            Apart(from, to) && FreeBelow(entries, to) && AtOrBelow(entries.Keys, from) == {from}
  {
    var up, to := f.paths[s.parent], f.paths[s.parent] + [s.name];
    FreeSlotFreePath(f, entries, orphans, s.parent, s.name);
    assert DirIndexed(f, entries, s.parent);
    PrefixOfChild(from, up, s.name);
    if from <= up && from != up {
      PrefixIndexed(f, entries, orphans, up, from);
    }
    FreePathApart(f, entries, orphans, from, to);
    forall p | p in entries && from <= p ensures p == from {
      if p != from {
        PrefixIndexed(f, entries, orphans, p, from);
      }
    }
  }

  lemma OneRekeyed<T>(m: map<Path, T>, from: Path, to: Path)
    requires from in m && AtOrBelow(m.Keys, from) == {from} && Apart(from, to) && FreeBelow(m, to)
    ensures Rekeyed(m, from, to) == (m - {from})[to := m[from]]
  {
    var none: set<Path> := {};
    RekeyOneMore(m, none, from, from, to);
    assert RekeyedPart(m, none, from, to) == m;
    assert none + {from} == {from};
    assert Rebase(from, from, to) == to;
  }

  /** Moving a cell renames exactly its own key. */
  lemma RelinkCellIndexed(f: Forest, entries: map<Path, NamespaceEntry>, orphans: set<CellId>, from: Path, s: Slot)
    requires Indexed(f, entries, orphans) && from in entries && entries[from].Cell?
    requires s.parent in f.dirs && s !in f.children
    ensures entries[from].cell in f.cells
    ensures var to := f.paths[s.parent] + [s.name];
            && Rekeyed(entries, from, to) == (entries - {from})[to := entries[from]]
            && Indexed(f.RelinkCell(entries[from].cell, s), Rekeyed(entries, from, to), orphans)
  {
    assert Listed(f, entries, orphans, from);
    var id, to := entries[from].cell, f.paths[s.parent] + [s.name];
    CellStandsAlone(f, entries, orphans, from, s);
    f.RelinkCellSane(id, s);
    var g, moved := f.RelinkCell(id, s), (entries - {from})[to := entries[from]];
    OneRekeyed(entries, from, to);
    hide Rekeyed, RekeyedPart, Apart, FreeBelow, AtOrBelow;
    forall d | d in g.dirs ensures DirIndexed(g, moved, d) { assert DirIndexed(f, entries, d); }
    forall c | c in g.cells && c !in orphans ensures CellIndexed(g, moved, c) { assert CellIndexed(f, entries, c); }
    forall p | p in moved ensures Listed(g, moved, orphans, p) {
      if p != to { assert Listed(f, entries, orphans, p); }
    }
  }

  /** A cell's path is inside a moved subtree exactly when its directory is. */
  lemma CellInside(f: Forest, c: CellId, top: DirId)
    requires f.Sane() && c in f.cells && top in f.dirs && top != f.root
    ensures f.CellLinked(c)
    ensures f.paths[top] <= f.CellPath(c) <==> f.paths[top] <= f.paths[f.cells[c].parent]
  {
    assert f.CellLinked(c) && f.DirLinked(top);
    var above := f.dirs[top].parent.value;
    if f.paths[top] == f.CellPath(c) {
      ChildInjective(f.paths[above], f.dirs[top].name, f.paths[f.cells[c].parent], f.cells[c].name);
      f.PathsInjective(above, f.cells[c].parent);
    }
    PrefixOfChild(f.paths[top], f.paths[f.cells[c].parent], f.cells[c].name);
  }

  lemma RelinkedCellPath(f: Forest, id: DirId, s: Slot, c: CellId)
    requires f.Sane() && id in f.dirs && id != f.root && s.parent in f.dirs && c in f.cells
    requires f.DirLinked(id) && f.RelinkDir(id, s).Sane()
    ensures f.RelinkDir(id, s).CellPath(c) == Rebase(f.CellPath(c), f.paths[id], f.paths[s.parent] + [s.name])
  {
    CellInside(f, c, id);
    RebaseChild(f.paths[f.cells[c].parent], f.cells[c].name, f.paths[id], f.paths[s.parent] + [s.name]);
  }

  /** Moving a directory renames exactly the keys at or below it. */
  lemma RelinkDirIndexed(f: Forest, entries: map<Path, NamespaceEntry>, orphans: set<CellId>, from: Path, s: Slot)
    requires Indexed(f, entries, orphans) && from in entries && entries[from].Dir? && from != []
    requires s.parent in f.dirs && s !in f.children && !(from <= f.paths[s.parent])
    ensures entries[from].dir in f.dirs && f.DirLinked(entries[from].dir)
    ensures var to := f.paths[s.parent] + [s.name];
            && Apart(from, to) && FreeBelow(entries, to)
            && Indexed(f.RelinkDir(entries[from].dir, s), Rekeyed(entries, from, to), orphans)
  {
    assert Listed(f, entries, orphans, from);
    var id, to := entries[from].dir, f.paths[s.parent] + [s.name];
    assert id != f.root;
    assert f.DirLinked(id);
    FreeSlotFreePath(f, entries, orphans, s.parent, s.name);
    PrefixOfChild(from, f.paths[s.parent], s.name);
    FreePathApart(f, entries, orphans, from, to);
    f.RelinkDirSane(id, s);
    var g, moved := f.RelinkDir(id, s), Rekeyed(entries, from, to);
    RekeyExact(entries, from, to);
    forall d | d in g.dirs ensures DirIndexed(g, moved, d) { assert DirIndexed(f, entries, d); }
    forall c | c in g.cells && c !in orphans ensures CellIndexed(g, moved, c) {
      assert CellIndexed(f, entries, c);
      RelinkedCellPath(f, id, s, c);
    }
    forall q | q in moved ensures Listed(g, moved, orphans, q) {
      var p :| p in entries && Rebase(p, from, to) == q;
      assert Listed(f, entries, orphans, p);
      if entries[p].Cell? {
        RelinkedCellPath(f, id, s, entries[p].cell);
      }
    }
  }
}
