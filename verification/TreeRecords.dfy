/** The live tree as a value. */
module TreeRecords {
  // What must be kept in step: the namespace, the flat index, the runtime cells, the
  // sources the calculator knows and the sources the store holds; and what each
  // operation makes of them.

  import opened Syntax
  import opened Paths
  import opened Namespaces
  import opened TreeIndex

  datatype RuntimeCell = RuntimeCell(id: CellId, source: Expr, revision: nat)

  function SourcesOf(cells: map<Path, RuntimeCell>): map<Path, Expr> {
    map p | p in cells :: cells[p].source
  }

  /** Runtime cells, calculator sources and stored sources cover exactly the
      indexed cells and agree on them. */
  ghost predicate Recorded(
    project: Expr -> Option<string>, entries: map<Path, NamespaceEntry>, cells: map<Path, RuntimeCell>,
    sources: map<Path, Expr>, stored: map<CellId, string>)
  {
    && (forall p :: p in cells <==> p in entries && entries[p].Cell?)
    && (forall p :: p in cells ==> entries[p] == Cell(cells[p].id))
    && sources == SourcesOf(cells)
    && Stored(project, cells, stored)
  }

  ghost predicate Stored(project: Expr -> Option<string>, cells: map<Path, RuntimeCell>, stored: map<CellId, string>) {
    && (forall p :: p in cells ==> cells[p].id in stored && project(cells[p].source) == Some(stored[cells[p].id]))
    && (forall id :: id in stored ==> Owned(cells, id))
  }

  ghost predicate Owned(cells: map<Path, RuntimeCell>, id: CellId) {
    exists p :: p in cells && cells[p].id == id
  }

  /** Two indexed cells with one id are one cell. */
  lemma IdsDistinct(f: Forest, entries: map<Path, NamespaceEntry>, orphans: set<CellId>, p: Path, q: Path)
    requires Indexed(f, entries, orphans) && p in entries && q in entries && entries[p] == entries[q]
    ensures p == q
  {
    assert Listed(f, entries, orphans, p) && Listed(f, entries, orphans, q);
  }

  /** A new or replaced cell record keeps the records in step. */
  lemma PutRecorded(
    project: Expr -> Option<string>, f: Forest, orphans: set<CellId>, entries: map<Path, NamespaceEntry>,
    before: map<Path, NamespaceEntry>, cells: map<Path, RuntimeCell>, sources: map<Path, Expr>, stored: map<CellId, string>,
    p: Path, cell: RuntimeCell, text: string)
    requires Recorded(project, before, cells, sources, stored)
    requires entries == before[p := Cell(cell.id)] && Indexed(f, entries, orphans)
    requires p in before ==> before[p] == Cell(cell.id)
    requires project(cell.source) == Some(text)
    ensures Recorded(project, entries, cells[p := cell], sources[p := cell.source], stored[cell.id := text])
  {
    forall q | q in cells && q != p ensures cells[q].id != cell.id {
      if cells[q].id == cell.id {
        IdsDistinct(f, entries, orphans, p, q);
      }
    }
    hide Indexed, SourcesOf, Stored;
    PutStored(project, cells, stored, p, cell, text);
    SourcePut(cells, p, cell);
  }

  lemma SourcePut(cells: map<Path, RuntimeCell>, p: Path, cell: RuntimeCell)
    ensures SourcesOf(cells[p := cell]) == SourcesOf(cells)[p := cell.source]
  {
  }

  lemma PutStored(
    project: Expr -> Option<string>, cells: map<Path, RuntimeCell>, stored: map<CellId, string>, p: Path, cell: RuntimeCell, text: string)
    requires Stored(project, cells, stored) && project(cell.source) == Some(text)
    requires forall q :: q in cells && q != p ==> cells[q].id != cell.id
    requires p in cells ==> cells[p].id == cell.id
    ensures Stored(project, cells[p := cell], stored[cell.id := text])
  {
    var more := cells[p := cell];
    forall id | id in stored[cell.id := text] ensures Owned(more, id) {
      if id == cell.id {
        assert more[p].id == id;
      } else {
        var q :| q in cells && cells[q].id == id;
        assert more[q].id == id;
      }
    }
  }

  lemma DropRecorded(
    project: Expr -> Option<string>, f: Forest, orphans: set<CellId>, entries: map<Path, NamespaceEntry>,
    cells: map<Path, RuntimeCell>, sources: map<Path, Expr>, stored: map<CellId, string>, p: Path)
    requires Recorded(project, entries, cells, sources, stored) && Indexed(f, entries, orphans)
    requires p in entries && entries[p].Cell?
    ensures Recorded(project, entries - {p}, cells - {p}, sources - {p}, stored - {entries[p].cell})
  {
    var less := cells - {p};
    forall q | q in less ensures less[q].id != entries[p].cell {
      if less[q].id == entries[p].cell {
        IdsDistinct(f, entries, orphans, p, q);
      }
    }
    forall id | id in stored - {entries[p].cell} ensures Owned(less, id) {
      var q :| q in cells && cells[q].id == id;
      assert less[q].id == id;
    }
  }

  /** Rekeying the index and the cells alike keeps the records in step. */
  lemma RekeyRecorded(
    project: Expr -> Option<string>, entries: map<Path, NamespaceEntry>, cells: map<Path, RuntimeCell>,
    sources: map<Path, Expr>, stored: map<CellId, string>, from: Path, to: Path)
    requires Recorded(project, entries, cells, sources, stored)
    requires Apart(from, to) && FreeBelow(entries, to)
    ensures Recorded(project, Rekeyed(entries, from, to), Rekeyed(cells, from, to), SourcesOf(Rekeyed(cells, from, to)), stored)
  {
    var e, c := Rekeyed(entries, from, to), Rekeyed(cells, from, to);
    hide Indexed, Rekeyed, RekeyedPart;
    forall p
      ensures p in c <==> p in e && e[p].Cell?
      ensures p in c ==> e[p] == Cell(c[p].id) && c[p].id in stored && project(c[p].source) == Some(stored[c[p].id])
    {
      RekeyedAt(entries, from, to, p);
      RekeyedAt(cells, from, to, p);
    }
    forall id | id in stored ensures Owned(c, id) {
      var q :| q in cells && cells[q].id == id;
      RekeyExact(cells, from, to);
      assert c[Rebase(q, from, to)].id == id;
    }
  }

  /** What a rekeyed map holds at each key. */
  lemma RekeyedAt<T>(m: map<Path, T>, from: Path, to: Path, q: Path)
    requires Apart(from, to) && FreeBelow(m, to)
    ensures q in Rekeyed(m, from, to) <==> (to <= q && Rebase(q, to, from) in m) || (!(to <= q) && !(from <= q) && q in m)
    ensures q in Rekeyed(m, from, to) ==> Rekeyed(m, from, to)[q] == m[if to <= q then Rebase(q, to, from) else q]
  {
    PartAt(m, AtOrBelow(m.Keys, from), from, to, q);
    if to <= q {
      RebaseBack(q, to, from);
      assert from <= Rebase(q, to, from);
    }
  }

  /** calc.move_cell, as its effect on the calculator's sources. */
  function MovedSource(sources: map<Path, Expr>, from: Path, to: Path): map<Path, Expr> {
    if from in sources then (sources - {from})[to := sources[from]] else sources
  }

  datatype Tree = Tree(
    project: Expr -> Option<string>,
    forest: Forest,
    entries: map<Path, NamespaceEntry>,
    cells: map<Path, RuntimeCell>,
    sources: map<Path, Expr>,
    stored: map<CellId, string>,
    orphans: set<CellId>)
  {
    /** The index agrees with the namespace, and the records with the index. */
    ghost predicate InStep() {
      && Indexed(forest, entries, orphans)
      && Recorded(project, entries, cells, sources, stored)
    }

    // ---- What each operation makes of the tree ----

    ghost function WithCell(id: CellId, s: Slot, source: Expr, revision: nat): Tree
      requires s.parent in forest.paths && project(source).Some?
    {
      var p, cell := forest.paths[s.parent] + [s.name], RuntimeCell(id, source, revision);
      Tree(project, forest.AddCell(id, s), entries[p := Cell(id)], cells[p := cell],
           sources[p := source], stored[id := project(source).value], orphans)
    }

    /** The tree with a new cell at p, in the directory at p's parent. */
    ghost predicate GainsCell(after: Tree, p: Path, id: CellId, source: Expr, revision: nat)
      requires p != [] && project(source).Some?
    {
      exists d :: d in forest.paths && forest.paths[d] == Parent(p) && after == WithCell(id, Slot(d, p[|p| - 1]), source, revision)
    }

    /** The namespace holds one more cell, in this free slot, that nothing else knows. */
    ghost predicate GainsOrphan(after: Tree, id: CellId, s: Slot) {
      id !in forest.cells && s !in forest.children && after == WithOrphan(id, s)
    }

    /** The tree with a new directory at p, in the directory at p's parent. */
    ghost predicate GainsDir(after: Tree, p: Path, id: DirId)
      requires p != []
    {
      exists d :: d in forest.paths && forest.paths[d] == Parent(p) && after == WithDir(id, Slot(d, p[|p| - 1]))
    }

    /** A cell the namespace holds and nothing else knows. */
    ghost function WithOrphan(id: CellId, s: Slot): Tree {
      this.(forest := forest.AddCell(id, s), orphans := orphans + {id})
    }

    ghost function WithDir(id: DirId, s: Slot): Tree
      requires s.parent in forest.paths
    {
      this.(forest := forest.AddDir(id, s, map[]), entries := entries[forest.paths[s.parent] + [s.name] := Dir(id)])
    }

    ghost function WithSource(p: Path, source: Expr, revision: nat): Tree
      requires p in cells && project(source).Some?
    {
      this.(cells := cells[p := RuntimeCell(cells[p].id, source, revision)], sources := sources[p := source],
            stored := stored[cells[p].id := project(source).value])
    }

    ghost function WithoutCell(p: Path): Tree
      requires p in entries && entries[p].Cell? && entries[p].cell in forest.cells
    {
      Tree(project, forest.DropCell(entries[p].cell), entries - {p}, cells - {p}, sources - {p}, stored - {entries[p].cell}, orphans)
    }

    ghost function WithoutDir(p: Path): Tree
      requires p in entries && entries[p].Dir? && entries[p].dir in forest.dirs && forest.dirs[entries[p].dir].parent.Some?
    {
      this.(forest := forest.DropDir(entries[p].dir), entries := entries - {p})
    }

    /** What the forest becomes when the entry is linked at a new slot. */
    ghost function Relinked(entry: NamespaceEntry, s: Slot): Forest
      requires s.parent in forest.paths
      requires entry.Cell? ==> entry.cell in forest.cells
      requires entry.Dir? ==> entry.dir in forest.dirs && forest.dirs[entry.dir].parent.Some? && entry.dir in forest.paths
    {
      match entry
      case Cell(id) => forest.RelinkCell(id, s)
      case Dir(id) => forest.RelinkDir(id, s)
    }

    ghost function Moved(from: Path, to: Path, into: Forest): Tree {
      this.(forest := into, entries := Rekeyed(entries, from, to), cells := Rekeyed(cells, from, to),
            sources := SourcesOf(Rekeyed(cells, from, to)))
    }

    // ---- What the invariant gives ----

    lemma Entry(p: Path)
      requires InStep() && p in entries
      ensures forest.Sane() && forest.paths.Keys == forest.dirs.Keys
      ensures match entries[p]
              case Cell(id) => id in forest.cells && p != [] && p in cells && cells[p].id == id
              case Dir(id) => id in forest.dirs && forest.paths[id] == p && p !in cells
                              && (p == [] <==> id == forest.root) && (p != [] ==> forest.DirLinked(id))
    {
      assert Listed(forest, entries, orphans, p);
      match entries[p]
      case Cell(id) => assert forest.CellLinked(id);
      case Dir(id) => if id != forest.root { assert forest.DirLinked(id); }
    }

    lemma RecordsOf()
      requires InStep()
      ensures cells.Keys <= entries.Keys && sources == SourcesOf(cells) && sources.Keys == cells.Keys
    {
    }

    /** Only an orphan can hold the slot of an unindexed path. */
    lemma SlotTaken(s: Slot)
      requires InStep() && s.parent in forest.dirs
      ensures forest.paths.Keys == forest.dirs.Keys
      ensures s in forest.children && !(forest.children[s].Cell? && forest.children[s].cell in orphans)
              <==> forest.paths[s.parent] + [s.name] in entries
    {
      var p := forest.paths[s.parent] + [s.name];
      assert p[..|p| - 1] == forest.paths[s.parent];
      forest.DirResolves(s.parent);
      assert Slot(s.parent, p[|p| - 1]) == s;
      assert forest.Resolve(p) == if s in forest.children then Some(forest.children[s]) else None;
      IndexAgrees(forest, entries, orphans, p);
      if p in entries {
        assert Listed(forest, entries, orphans, p);
      }
    }

    /** An entry whose slot is somewhere else than a slot of an unindexed path. */
    lemma SlotElsewhere(p: Path, s: Slot)
      requires InStep() && p in entries && p != [] && s.parent in forest.dirs
      requires forest.paths.Keys == forest.dirs.Keys && forest.paths[s.parent] + [s.name] != p
      ensures match entries[p]
              case Cell(id) => id in forest.cells && forest.CellSlot(id) != s
              case Dir(id) => id in forest.dirs && forest.dirs[id].parent.Some? && forest.DirSlot(id) != s
    {
      assert Listed(forest, entries, orphans, p);
      match entries[p]
      case Cell(id) => assert forest.CellLinked(id);
      case Dir(id) => assert forest.DirLinked(id);
    }

    /** A cell has nothing below it; a directory is empty in the index exactly if
        all its children in the namespace are orphans. */
    lemma NothingBelow(p: Path)
      requires InStep() && p in entries
      ensures entries[p].Cell? ==> forall q :: q in entries && p <= q ==> q == p
      ensures entries[p].Dir? && !forest.HasChildren(entries[p].dir) ==> forall q :: q in entries && p <= q ==> q == p
      ensures entries[p].Dir? && (forall q :: q in entries && p <= q ==> q == p) ==>
                forall s :: s in forest.children && s.parent == entries[p].dir ==> forest.children[s].Cell? && forest.children[s].cell in orphans
    {
      Entry(p);
      forall q | q in entries && p <= q && q != p
        ensures entries[p].Dir? && forest.HasChildren(entries[p].dir)
      {
        PrefixIndexed(forest, entries, orphans, q, p);
        ChildTowards(p, q);
      }
      if entries[p].Dir? {
        forall s | s in forest.children && s.parent == entries[p].dir
          ensures (forest.children[s].Cell? && forest.children[s].cell in orphans) || exists q :: q in entries && p <= q && q != p
        {
          SlotTaken(s);
          assert p <= p + [s.name];
        }
      }
    }

    lemma {:induction false} ChildTowards(p: Path, q: Path)
      requires InStep() && p in entries && q in entries && p <= q && q != p && entries[p].Dir?
      ensures forest.HasChildren(entries[p].dir)
      decreases |q|
    {
      ParentIndexed(forest, entries, orphans, q);
      if Parent(q) != p {
        ChildTowards(p, Parent(q));
      }
    }

    // ---- Every operation keeps it ----

    lemma WithCellInStep(id: CellId, s: Slot, source: Expr, revision: nat)
      requires InStep() && s.parent in forest.dirs && s !in forest.children && id !in forest.cells && project(source).Some?
      ensures forest.paths.Keys == forest.dirs.Keys
      ensures forest.paths[s.parent] + [s.name] !in entries
      ensures WithCell(id, s, source, revision).InStep()
    {
      var p := forest.paths[s.parent] + [s.name];
      AddCellIndexed(forest, entries, orphans, id, s);
      FreeSlotFreePath(forest, entries, orphans, s.parent, s.name);
      PutRecorded(project, forest.AddCell(id, s), orphans, entries[p := Cell(id)], entries, cells, sources, stored, p,
                  RuntimeCell(id, source, revision), project(source).value);
    }

    lemma WithOrphanInStep(id: CellId, s: Slot)
      requires InStep() && s.parent in forest.dirs && s !in forest.children && id !in forest.cells
      ensures WithOrphan(id, s).InStep()
    {
      AddCellIndexed(forest, entries, orphans, id, s);
    }

    lemma WithDirInStep(id: DirId, s: Slot)
      requires InStep() && s.parent in forest.dirs && s !in forest.children && id !in forest.dirs
      ensures forest.paths.Keys == forest.dirs.Keys
      ensures forest.paths[s.parent] + [s.name] !in entries
      ensures WithDir(id, s).InStep() && !WithDir(id, s).forest.HasChildren(id)
    {
      AddDirIndexed(forest, entries, orphans, id, s, map[]);
      FreeSlotFreePath(forest, entries, orphans, s.parent, s.name);
      forall t | t in forest.children ensures t.parent != id {
        assert forest.ChildLinked(t);
        if forest.children[t].Cell? {
          assert forest.CellLinked(forest.children[t].cell);
        } else {
          assert forest.DirLinked(forest.children[t].dir);
        }
      }
    }

    lemma WithSourceInStep(p: Path, source: Expr, revision: nat)
      requires InStep() && p in cells && project(source).Some?
      ensures WithSource(p, source, revision).InStep()
    {
      assert entries == entries[p := Cell(cells[p].id)];
      PutRecorded(project, forest, orphans, entries, entries, cells, sources, stored, p,
                  RuntimeCell(cells[p].id, source, revision), project(source).value);
    }

    lemma WithoutCellInStep(p: Path)
      requires InStep() && p in entries && entries[p].Cell?
      ensures entries[p].cell in forest.cells && WithoutCell(p).InStep()
    {
      DropCellIndexed(forest, entries, orphans, p);
      DropRecorded(project, forest, orphans, entries, cells, sources, stored, p);
    }

    lemma WithoutDirInStep(p: Path)
      requires InStep() && p in entries && entries[p].Dir? && p != [] && !forest.HasChildren(entries[p].dir)
      ensures entries[p].dir in forest.dirs && forest.dirs[entries[p].dir].parent.Some?
      ensures WithoutDir(p).InStep() && p !in cells
    {
      DropDirIndexed(forest, entries, orphans, p);
    }

    /** A move to a free slot outside the moved subtree keeps everything in step. */
    lemma MovedInStep(from: Path, to: Path, s: Slot)
      requires InStep() && from in entries && from != []
      requires s.parent in forest.dirs && s !in forest.children
      requires forest.paths.Keys == forest.dirs.Keys && forest.paths[s.parent] + [s.name] == to
      requires entries[from].Dir? ==> !(from <= forest.paths[s.parent])
      ensures Apart(from, to) && FreeBelow(entries, to)
      ensures match entries[from]
              case Cell(id) => id in forest.cells && AtOrBelow(entries.Keys, from) == {from}
              case Dir(id) => id in forest.dirs && forest.dirs[id].parent.Some? && from !in cells
      ensures Moved(from, to, Relinked(entries[from], s)).InStep()
    {
      Entry(from);
      if entries[from].Cell? {
        CellStandsAlone(forest, entries, orphans, from, s);
        RelinkCellIndexed(forest, entries, orphans, from, s);
      } else {
        RelinkDirIndexed(forest, entries, orphans, from, s);
      }
      RekeyRecorded(project, entries, cells, sources, stored, from, to);
    }

    /** The index finds exactly the namespace's children of a directory, orphans
        aside, and the whole namespace when there are none. */
    lemma ChildRow(path: Path, name: string)
      requires InStep() && path in entries && entries[path].Dir?
      ensures Parent(path + [name]) == path
      ensures path + [name] in entries <==>
              var s := Slot(entries[path].dir, name);
              s in forest.children && !(forest.children[s].Cell? && forest.children[s].cell in orphans)
    {
      Entry(path);
      SlotTaken(Slot(entries[path].dir, name));
      assert (path + [name])[..|path|] == path;
    }
  }

  // ---- The loop of rekey_subtree ----

  /** Where the loop stands when the keys in `done` have been renamed: the moved
      cell itself was renamed in the calculator beforehand. */
  ghost predicate Midway(
    e: map<Path, NamespaceEntry>, c: map<Path, RuntimeCell>, done: set<Path>, from: Path, to: Path,
    entries: map<Path, NamespaceEntry>, cells: map<Path, RuntimeCell>, sources: map<Path, Expr>)
  {
    && (forall p :: p in done ==> p in e && from <= p)
    && entries == RekeyedPart(e, done, from, to)
    && cells == RekeyedPart(c, done * c.Keys, from, to)
    && sources == SourcesOf(RekeyedPart(c, (done + (if from in c then {from} else {})) * c.Keys, from, to))
    && |entries| == |e|
  }

  lemma StartMidway(e: map<Path, NamespaceEntry>, c: map<Path, RuntimeCell>, from: Path, to: Path)
    requires Apart(from, to) && FreeBelow(c, to)
    ensures Midway(e, c, {}, from, to, e, c, if from in c then MovedSource(SourcesOf(c), from, to) else SourcesOf(c))
  {
    var none: set<Path> := {};
    NoneRekeyed(e, from, to);
    NoneRekeyed(c, from, to);
    assert none * c.Keys == none && none + none == none;
    if from in c {
      RekeyOneMore(c, none, from, from, to);
      hide RekeyedPart, SourcesOf;
      assert Rebase(from, from, to) == to;
      assert (none + {from}) * c.Keys == none + {from};
      SourceMoved(c, from, to);
    }
  }

  lemma NoneRekeyed<T>(m: map<Path, T>, from: Path, to: Path)
    ensures var none: set<Path> := {}; RekeyedPart(m, none, from, to) == m
  {
    var none: set<Path> := {};
    assert RekeyedPart(m, none, from, to).Keys == m.Keys;
  }

  lemma SourceMoved(m: map<Path, RuntimeCell>, key: Path, renamed: Path)
    requires key in m
    ensures SourcesOf((m - {key})[renamed := m[key]]) == MovedSource(SourcesOf(m), key, renamed)
  {
  }

  lemma EndMidway(
    e: map<Path, NamespaceEntry>, c: map<Path, RuntimeCell>, done: set<Path>, from: Path, to: Path,
    entries: map<Path, NamespaceEntry>, cells: map<Path, RuntimeCell>, sources: map<Path, Expr>)
    requires Midway(e, c, done, from, to, entries, cells, sources)
    requires done == AtOrBelow(e.Keys, from) && c.Keys <= e.Keys
    ensures entries == Rekeyed(e, from, to) && cells == Rekeyed(c, from, to) && sources == SourcesOf(cells)
  {
    assert done * c.Keys == AtOrBelow(c.Keys, from);
    assert (done + (if from in c then {from} else {})) * c.Keys == done * c.Keys;
  }

  lemma MidwaySize(
    e: map<Path, NamespaceEntry>, c: map<Path, RuntimeCell>, done: set<Path>, from: Path, to: Path,
    entries: map<Path, NamespaceEntry>, cells: map<Path, RuntimeCell>, sources: map<Path, Expr>)
    requires Midway(e, c, done, from, to, entries, cells, sources)
    ensures |entries| == |e|
  {
  }

  /** One more renamed key, for a map that may not hold the key. */
  lemma RekeyMaybe<T>(m: map<Path, T>, done: set<Path>, key: Path, from: Path, to: Path)
    requires Apart(from, to) && FreeBelow(m, to) && from <= key && key !in done
    requires forall p :: p in done ==> from <= p
    ensures var before, after := RekeyedPart(m, done * m.Keys, from, to), RekeyedPart(m, (done + {key}) * m.Keys, from, to);
            && (key in before <==> key in m)
            && (key in m ==> before[key] == m[key])
            && after == if key in m then (before - {key})[Rebase(key, from, to) := m[key]] else before
  {
    RebaseBack(key, from, to);
    PartAt(m, done * m.Keys, from, to, key);
    hide RekeyedPart;
    if key in m {
      RekeyOneMore(m, done * m.Keys, key, from, to);
      assert (done + {key}) * m.Keys == done * m.Keys + {key};
    } else {
      assert (done + {key}) * m.Keys == done * m.Keys;
    }
  }

  /** One turn. */
  lemma StepMidway(
    e: map<Path, NamespaceEntry>, c: map<Path, RuntimeCell>, done: set<Path>, from: Path, to: Path,
    entries: map<Path, NamespaceEntry>, cells: map<Path, RuntimeCell>, sources: map<Path, Expr>, key: Path)
    requires Midway(e, c, done, from, to, entries, cells, sources)
    requires Apart(from, to) && FreeBelow(e, to) && c.Keys <= e.Keys
    requires key in e && from <= key && key !in done
    ensures key in entries
    ensures var renamed := Rebase(key, from, to);
            && renamed !in entries
            && Midway(e, c, done + {key}, from, to, (entries - {key})[renamed := entries[key]],
                      if key in cells then (cells - {key})[renamed := cells[key]] else cells,
                      if key in cells && key != from then MovedSource(sources, key, renamed) else sources)
  {
    hide RekeyedPart, SourcesOf, MovedSource, FreeBelow, Apart, Rebase;
    StepEntries(e, done, from, to, key);
    FreeBelowPart(e, c, to);
    RekeyMaybe(c, done, key, from, to);
    StepSources(c, done, from, to, key);
  }

  lemma FreeBelowPart<S, T>(e: map<Path, S>, c: map<Path, T>, to: Path)
    requires FreeBelow(e, to) && c.Keys <= e.Keys
    ensures FreeBelow(c, to)
  {
    forall p | p in c ensures !(to <= p) {
      assert p in e;
    }
  }

  lemma StepEntries(e: map<Path, NamespaceEntry>, done: set<Path>, from: Path, to: Path, key: Path)
    requires Apart(from, to) && FreeBelow(e, to)
    requires forall p :: p in done ==> p in e && from <= p
    requires key in e && from <= key && key !in done
    ensures var before, after, renamed := RekeyedPart(e, done, from, to), RekeyedPart(e, done + {key}, from, to), Rebase(key, from, to);
            && key in before && renamed !in before
            && after == (before - {key})[renamed := before[key]]
            && |after| == |before|
  {
    hide RekeyedPart, Rebase, FreeBelow, Apart;
    RebaseBack(key, from, to);
    RekeyOneMore(e, done, key, from, to);
    PartAt(e, done, from, to, Rebase(key, from, to));
    RenamedSize(RekeyedPart(e, done, from, to), key, Rebase(key, from, to));
  }

  lemma RenamedSize<T>(m: map<Path, T>, key: Path, renamed: Path)
    requires key in m && renamed !in m
    ensures |(m - {key})[renamed := m[key]]| == |m|
  {
    assert (m - {key}).Keys == m.Keys - {key};
  }

  lemma StepSources(c: map<Path, RuntimeCell>, done: set<Path>, from: Path, to: Path, key: Path)
    requires Apart(from, to) && FreeBelow(c, to) && from <= key && key !in done
    requires forall p :: p in done ==> from <= p
    ensures var early := if from in c then {from} else {};
            var before := SourcesOf(RekeyedPart(c, (done + early) * c.Keys, from, to));
            SourcesOf(RekeyedPart(c, (done + {key} + early) * c.Keys, from, to))
            == if key in c && key != from then MovedSource(before, key, Rebase(key, from, to)) else before
  {
    hide RekeyedPart, SourcesOf, MovedSource;
    var early := if from in c then {from} else {};
    if key != from {
      RekeyMaybe(c, done + early, key, from, to);
      assert done + {key} + early == done + early + {key};
      if key in c {
        SourceMoved(RekeyedPart(c, (done + early) * c.Keys, from, to), key, Rebase(key, from, to));
      }
    } else {
      assert (done + {key} + early) * c.Keys == (done + early) * c.Keys;
    }
  }
}
