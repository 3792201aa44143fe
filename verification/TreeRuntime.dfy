/** The live tree: one namespace, one flat index, the runtime cells, the sources the
    calculator knows and the sources the store holds, changed together by every
    operation.  Each operation reserves and changes the namespace in one writer turn,
    and either finishes everywhere or leaves what its contract says. */
module TreeRuntime {
  import opened Syntax
  import opened Collections
  import opened Paths
  import opened Namespaces
  import opened TreeIndex
  import opened TreeRecords
  import opened Shields
  import M = Mounts

  const MAX_TREE_NODES := 4096
  const MAX_LIST_ITEMS := 1024

  datatype TreeError =
    | NodeLimit
    | RootRejected
    | ReadOnlyMount
    | TableLeaf
    | MissingEntry
    | NotADirectory
    | NotACell
    | BadName
    | MountedSubtree
    | TargetExists
    | NotEmpty
    | SubtreeLimit
    | ProjectionTooLong
    | ListLimit
    | Refused(cause: NamespaceError)
    | StoreRefused(store: M.StoreError)

  datatype RowKind = CellRow | MountRow | DirRow

  /** Every mount is at an indexed directory. */
  ghost predicate MountsIndexed(entries: map<Path, NamespaceEntry>, mounts: map<Path, M.Mount>) {
    M.Sound(mounts) && forall m :: m in mounts ==> m in entries && entries[m].Dir?
  }

  /** Ids are handed out in order. */
  ghost predicate Numbered(f: Forest, nextCell: nat, nextDir: nat) {
    (forall c :: c in f.cells ==> c <= nextCell) && (forall d :: d in f.dirs ==> d <= nextDir)
  }

  lemma MountsStay(before: map<Path, NamespaceEntry>, mounts: map<Path, M.Mount>, from: Path, to: Path)
    requires Apart(from, to) && FreeBelow(before, to)
    requires MountsIndexed(before, mounts) && forall m :: m in mounts ==> !(from <= m)
    ensures MountsIndexed(Rekeyed(before, from, to), mounts)
  {
    forall m | m in mounts ensures m in Rekeyed(before, from, to) && Rekeyed(before, from, to)[m].Dir? {
      RekeyedAt(before, from, to, m);
    }
  }

  lemma MountsKept(before: map<Path, NamespaceEntry>, after: map<Path, NamespaceEntry>, mounts: map<Path, M.Mount>, p: Path)
    requires MountsIndexed(before, mounts) && p !in mounts
    requires forall q :: q in before && q != p ==> q in after && after[q] == before[q]
    ensures MountsIndexed(after, mounts)
  {
  }

  lemma MountIsIndexed(entries: map<Path, NamespaceEntry>, mounts: map<Path, M.Mount>, p: Path)
    requires MountsIndexed(entries, mounts)
    ensures M.Sound(mounts)
    ensures p in mounts ==> p in entries && entries[p].Dir?
  {
  }

  lemma NumberedNext(f: Forest, nextCell: nat, nextDir: nat, s: Slot)
    requires Numbered(f, nextCell, nextDir)
    ensures nextCell + 1 !in f.cells && Numbered(f.AddCell(nextCell + 1, s), nextCell + 1, nextDir)
    ensures nextDir + 1 !in f.dirs
    ensures s.parent in f.paths ==> Numbered(f.AddDir(nextDir + 1, s, map[]), nextCell, nextDir + 1)
    ensures Numbered(f, nextCell + 1, nextDir) && Numbered(f, nextCell, nextDir + 1)
  {
  }

  lemma NumberedStill(f: Forest, g: Forest, nextCell: nat, nextDir: nat)
    requires Numbered(f, nextCell, nextDir) && g.cells.Keys <= f.cells.Keys && g.dirs.Keys <= f.dirs.Keys
    ensures Numbered(g, nextCell, nextDir)
  {
    assert forall c :: c in g.cells ==> c in f.cells;
    assert forall d :: d in g.dirs ==> d in f.dirs;
  }

  lemma MountDir(entries: map<Path, NamespaceEntry>, mounts: map<Path, M.Mount>, d: M.Mount)
    requires MountsIndexed(entries, mounts) && M.Sound(mounts[d.path := d]) && d.path in entries && entries[d.path].Dir?
    ensures MountsIndexed(entries, mounts[d.path := d])
  {
  }

  /** Every indexed path is made of legal segments, so its text form is its own. */
  ghost predicate AllLegal(entries: map<Path, NamespaceEntry>) {
    forall p :: p in entries ==> Legal(p)
  }

  lemma ChildLegal(entries: map<Path, NamespaceEntry>, after: map<Path, NamespaceEntry>, parent: Path, name: string)
    requires AllLegal(entries) && parent in entries && LegalSegment(name) && after.Keys <= entries.Keys + {parent + [name]}
    ensures AllLegal(after)
  {
    assert Legal(parent + [name]);
  }

  lemma RekeyedLegal(entries: map<Path, NamespaceEntry>, from: Path, to: Path)
    requires AllLegal(entries) && to != [] && Parent(to) in entries && LegalSegment(to[|to| - 1])
    requires Apart(from, to) && FreeBelow(entries, to)
    ensures AllLegal(Rekeyed(entries, from, to))
  {
    assert Legal(to) by {
      assert Legal(Parent(to)) && to == Parent(to) + [to[|to| - 1]];
    }
    hide Rekeyed;
    forall q | q in Rekeyed(entries, from, to) ensures Legal(q) {
      RekeyedAt(entries, from, to, q);
      if to <= q {
        var p := Rebase(q, to, from);
        assert q == to + q[|to|..] && p == from + q[|to|..];
        assert forall i :: |to| <= i < |q| ==> q[i] == p[i - |to| + |from|];
      }
    }
  }

  lemma MountsAreEntries(entries: map<Path, NamespaceEntry>, mounts: map<Path, M.Mount>)
    requires MountsIndexed(entries, mounts)
    ensures forall m :: m in mounts ==> m in entries
  {
  }

  /** A new cell is not where a read-only mount protects. */
  lemma CellKeeps(t: Tree, after: Tree, mounts: map<Path, M.Mount>, p: Path, id: CellId, source: Expr, revision: nat)
    requires MountsIndexed(t.entries, mounts) && !Shielded(mounts, Parent(p)) && p !in t.entries
    requires p != [] && t.project(source).Some? && t.GainsCell(after, p, id, source, revision)
    ensures Kept(mounts, t, after)
  {
    MountsAreEntries(t.entries, mounts);
    NewPlaceOpen(mounts, t.entries, p);
    hide MountsIndexed, Shielded, Kept, SameAt, Forest.AddCell;
    OnePlaceChanges(mounts, t, after, p);
  }

  lemma LegalAfterCell(t: Tree, after: Tree, parent: Path, name: string, id: CellId, source: Expr, revision: nat)
    requires t.project(source).Some? && t.GainsCell(after, parent + [name], id, source, revision)
    requires parent in t.entries && LegalSegment(name)
    ensures AllLegal(t.entries) ==> AllLegal(after.entries)
  {
    hide AllLegal, LegalSegment, Forest.AddCell;
    if AllLegal(t.entries) {
      ChildLegal(t.entries, after.entries, parent, name);
    }
  }

  lemma DirKeeps(t: Tree, after: Tree, mounts: map<Path, M.Mount>, p: Path, id: DirId)
    requires MountsIndexed(t.entries, mounts) && !Shielded(mounts, Parent(p)) && p !in t.entries
    requires p != [] && t.GainsDir(after, p, id)
    ensures Kept(mounts, t, after)
  {
    MountsAreEntries(t.entries, mounts);
    NewPlaceOpen(mounts, t.entries, p);
    hide MountsIndexed, Shielded, Kept, SameAt, Forest.AddDir;
    OnePlaceChanges(mounts, t, after, p);
  }

  lemma SmallerWithout(m: map<Path, NamespaceEntry>, p: Path)
    ensures |m - {p}| <= |m|
  {
    SubsetSmaller(m.Keys, (m - {p}).Keys);
  }

  class TreeState {
    const ns: Namespace
    const stores: M.Stores
    const project: Expr -> Option<string>
    var entries: map<Path, NamespaceEntry>
    var cells: map<Path, RuntimeCell>
    var sources: map<Path, Expr>
    var stored: map<CellId, string>
    var nextCell: nat
    var nextDir: nat
    var sourceRevision: nat

    /** Namespace cells whose source could not be projected when they were made. */
    ghost var orphans: set<CellId>

    ghost function View(): Tree
      reads this, ns
    {
      Tree(project, ns.View(), entries, cells, sources, stored, orphans)
    }

    /** No writer and no reservation is outstanding. */
    ghost predicate Quiet()
      reads ns
    {
      ns.Valid() && !ns.writerActive && ns.reservations == {}
    }

    ghost predicate Valid()
      reads this, ns, stores
    {
      && Quiet()
      && View().InStep()
      && MountsIndexed(entries, stores.mounts)
      && Numbered(ns.View(), nextCell, nextDir)
      && |entries| <= MAX_TREE_NODES
    }

    constructor (project: Expr -> Option<string>)
      ensures Valid() && fresh(ns) && fresh(stores)
      ensures this.project == project && entries == map[[] := Dir(ns.root)] && cells == map[] && orphans == {}
    {
      ns := new Namespace(0);
      stores := new M.Stores();
      this.project := project;
      entries, cells, sources, stored := map[[] := Dir(0)], map[], map[], map[];
      nextCell, nextDir, sourceRevision := 0, 0, 0;
      orphans := {};
      new;
      assert DirIndexed(ns.View(), entries, 0);
      assert Listed(ns.View(), entries, orphans, []);
    }

    // ---- Guards ----

    predicate Writable(path: Path)
      reads stores
    {
      forall m | m in stores.mounts :: !(m <= path && stores.mounts[m].backend.ReadOnly?)
    }

    /** A path can be written exactly if no read-only mount is at it or above it. */
    lemma WritableIsOpen(path: Path)
      ensures Writable(path) <==> !Shielded(stores.mounts, path)
    {
      if Shielded(stores.mounts, path) {
        var m := ShieldOf(stores.mounts, path);
      } else {
        forall m | m in stores.mounts && m <= path && stores.mounts[m].backend.ReadOnly? ensures false {
          ShieldedBy(stores.mounts, m, path);
        }
      }
    }

    predicate InsideTable(path: Path)
      reads stores
    {
      exists m | m in stores.mounts :: m <= path && stores.mounts[m].resource.Table?
    }

    /** A path is inside a table exactly if a table is mounted at it or above it. */
    lemma TableIsAbove(path: Path)
      ensures InsideTable(path) <==> exists n :: 0 <= n <= |path| && path[..n] in stores.mounts && stores.mounts[path[..n]].resource == M.Table
    {
      if m :| m in stores.mounts && m <= path && stores.mounts[m].resource.Table? {
        assert path[..|m|] == m;
      }
    }

    predicate Empty(path: Path)
      reads this
    {
      forall p | p in entries :: path <= p ==> p == path
    }

    function DirAt(path: Path): Result<DirId, TreeError>
      reads this
    {
      if path !in entries then Err(MissingEntry)
      else if entries[path].Cell? then Err(NotADirectory)
      else Ok(entries[path].dir)
    }

    /** An orphan cell holds this name. */
    ghost predicate TakenByOrphan(parent: DirId, name: string)
      reads this, ns
    {
      var s := Slot(parent, name);
      s in ns.children && ns.children[s].Cell? && ns.children[s].cell in orphans
    }

    /** The name a new child gets: the one asked for, or the next generated one. */
    function NameFor(parent: DirId, name: Option<string>, kind: GeneratedKind): string
      reads ns
    {
      match name
      case Some(text) => text
      case None => GeneratedName(kind, (if (parent, kind) in ns.counters then ns.counters[(parent, kind)] else 0) + 1)
    }

    /** That name is a legal one and free. */
    ghost predicate NameIsFree(parent: DirId, name: Option<string>, kind: GeneratedKind)
      reads ns
    {
      && (name.Some? ==> LegalSegment(name.value))
      && parent in ns.dirs && Slot(parent, NameFor(parent, name, kind)) !in ns.children
    }

    /** The slot that child gets. */
    function SlotFor(parent: Path, name: Option<string>, kind: GeneratedKind): Slot
      reads this, ns
    {
      var id := if parent in entries && entries[parent].Dir? then entries[parent].dir else ns.root;
      Slot(id, NameFor(id, name, kind))
    }

    /** There is room in a writable directory here, and the name is free in it. */
    ghost predicate TakesChild(parent: Path, name: Option<string>, kind: GeneratedKind)
      reads this, ns, stores
    {
      && |entries| < MAX_TREE_NODES && Writable(parent) && parent in entries && entries[parent].Dir?
      && NameIsFree(entries[parent].dir, name, kind)
    }

    // ---- Turns of the writer lane ----

    method ReserveIn(lane: WriterLane, parent: DirId, name: Option<string>, kind: GeneratedKind) returns (r: Result<string, NamespaceError>)
      requires ns.Holds(lane) && ns.reservations == {}
      modifies ns`reservations, ns`counters
      ensures r.Err? ==> ns.reservations == {}
      ensures r.Ok? ==> ns.reservations == {Slot(parent, r.value)} && Slot(parent, r.value) !in ns.children && parent in ns.dirs
      ensures r.Ok? ==> r.value == old(NameFor(parent, name, kind))
      ensures r.Ok? <==> old(NameIsFree(parent, name, kind))
    {
      match name
      case Some(text) =>
        if !LegalSegment(text) {
          return Err(IllegalName);
        }
        r := ns.ReserveName(lane, parent, text);
      case None =>
        r := ns.ReserveGeneratedName(lane, parent, kind);
    }

    method WriteCell(id: CellId, parent: DirId, name: Option<string>) returns (r: Result<string, NamespaceError>)
      requires Quiet() && id !in ns.cells
      modifies ns
      ensures Quiet()
      ensures r.Err? ==> ns.View() == old(ns.View())
      ensures r.Ok? ==> parent in old(ns.dirs) && Slot(parent, r.value) !in old(ns.children)
                        && ns.View() == old(ns.View()).AddCell(id, Slot(parent, r.value))
      ensures r.Ok? ==> r.value == old(NameFor(parent, name, CellName))
      ensures r.Ok? <==> old(NameIsFree(parent, name, CellName))
    {
      hide Forest.Sane;
      var acquired := ns.AcquireWriter();
      var lane := acquired.value;
      r := ReserveIn(lane, parent, name, CellName);
      if r.Ok? {
        var created := ns.CreateCell(lane, id, parent, r.value);
      }
      var released := ns.ReleaseWriter(lane);
    }

    method WriteDir(id: DirId, parent: DirId, name: Option<string>) returns (r: Result<string, NamespaceError>)
      requires Quiet() && id !in ns.dirs
      modifies ns
      ensures Quiet()
      ensures r.Err? ==> ns.View() == old(ns.View())
      ensures r.Ok? ==> parent in old(ns.dirs) && parent in old(ns.paths) && Slot(parent, r.value) !in old(ns.children)
                        && ns.View() == old(ns.View()).AddDir(id, Slot(parent, r.value), map[])
      ensures r.Ok? ==> r.value == old(NameFor(parent, name, DirName))
      ensures r.Ok? <==> old(NameIsFree(parent, name, DirName))
    {
      ns.View().Basics();
      hide Forest.Sane;
      var acquired := ns.AcquireWriter();
      var lane := acquired.value;
      r := ReserveIn(lane, parent, name, DirName);
      if r.Ok? {
        var created := ns.CreateDir(lane, id, parent, r.value, map[]);
      }
      var released := ns.ReleaseWriter(lane);
    }

    /** Moves whatever the entry names to a slot that is not its own; a refusal
        changes nothing. */
    method WriteMove(entry: NamespaceEntry, parent: DirId, name: string) returns (r: Result<(), NamespaceError>)
      requires Quiet() && parent in ns.dirs && ns.paths.Keys == ns.dirs.Keys
      requires match entry
               case Cell(id) => id in ns.cells && ns.View().CellSlot(id) != Slot(parent, name)
               case Dir(id) => id in ns.dirs && id != ns.root && ns.dirs[id].parent.Some? && ns.View().DirSlot(id) != Slot(parent, name)
      modifies ns
      ensures Quiet()
      ensures r.Err? ==> ns.View() == old(ns.View())
      ensures r.Ok? <==> Slot(parent, name) !in old(ns.children) && (entry.Dir? ==> !(old(ns.paths)[entry.dir] <= old(ns.paths)[parent]))
      ensures r.Ok? ==> match entry
                        case Cell(id) => ns.View() == old(ns.View()).RelinkCell(id, Slot(parent, name))
                        case Dir(id) => ns.View() == old(ns.View()).RelinkDir(id, Slot(parent, name))
    {
      ns.View().Basics();
      hide Forest.Sane;
      var acquired := ns.AcquireWriter();
      var lane := acquired.value;
      match entry {
        case Cell(id) => r := ns.MoveCell(lane, id, parent, name);
        case Dir(id) =>
          assert ns.View().DirLinked(id);
          r := ns.MoveDir(lane, id, parent, name);
      }
      var released := ns.ReleaseWriter(lane);
    }

    method WriteDelete(entry: NamespaceEntry) returns (r: Result<(), NamespaceError>)
      requires Quiet() && (entry.Dir? ==> entry.dir in ns.dirs && (entry.dir != ns.root ==> ns.dirs[entry.dir].parent.Some?))
      modifies ns
      ensures Quiet()
      ensures r.Err? ==> ns.View() == old(ns.View())
      ensures match entry
              case Cell(id) => (r.Ok? <==> id in old(ns.cells)) && (r.Ok? ==> ns.View() == old(ns.View()).DropCell(id))
              case Dir(id) => (r.Ok? <==> id != ns.root && !old(ns.View()).HasChildren(id))
                              && (r.Ok? ==> ns.View() == old(ns.View()).DropDir(id))
    {
      hide Forest.Sane;
      var acquired := ns.AcquireWriter();
      var lane := acquired.value;
      match entry {
        case Cell(id) =>
          var dropped := ns.DeleteCell(lane, id);
          r := if dropped.Ok? then Ok(()) else Err(dropped.error);
        case Dir(id) =>
          var dropped := ns.DeleteDir(lane, id);
          r := if dropped.Ok? then Ok(()) else Err(dropped.error);
      }
      var released := ns.ReleaseWriter(lane);
    }

    // ---- Creation ----

    lemma OpenToChildren(parent: Path, name: Option<string>, kind: GeneratedKind)
      ensures TakesChild(parent, name, kind) ==>
                !Shielded(stores.mounts, parent) && parent in entries && LegalSegment(SlotFor(parent, name, kind).name)
    {
      WritableIsOpen(parent);
      GeneratedNames(kind, (if (SlotFor(parent, name, kind).parent, kind) in ns.counters
                            then ns.counters[(SlotFor(parent, name, kind).parent, kind)] else 0) + 1, kind, 0);
      hide Shielded, GeneratedName, LegalSegment;
    }

    /** The first part of new_cell: the namespace takes the cell. */
    method ClaimCell(parent: Path, name: Option<string>) returns (r: Result<Slot, TreeError>)
      requires Valid()
      modifies this`nextCell, ns
      ensures Quiet() && MountsIndexed(entries, stores.mounts) && Numbered(ns.View(), nextCell, nextDir)
      ensures r.Err? ==> Valid() && View() == old(View()) && r.error != ProjectionTooLong
      ensures r.Ok? ==>
                && |entries| < MAX_TREE_NODES && nextCell !in old(ns.cells)
                && r.value.parent in old(ns.dirs) && r.value.parent in old(ns.paths) && old(ns.paths)[r.value.parent] == parent
                && r.value !in old(ns.children)
                && View() == old(View()).(forest := old(ns.View()).AddCell(nextCell, r.value))
      ensures r.Ok? <==> old(TakesChild(parent, name, CellName))
      ensures r.Ok? ==> r.value == old(SlotFor(parent, name, CellName))
    {
      hide NameFor, NameIsFree, Tree.InStep, MountsIndexed, Numbered, Forest.Sane, Writable;
      if |entries| >= MAX_TREE_NODES {
        return Err(NodeLimit);
      }
      if !Writable(parent) {
        return Err(ReadOnlyMount);
      }
      var parentId := DirAt(parent);
      if parentId.Err? {
        return Err(parentId.error);
      }
      View().Entry(parent);
      ghost var f := ns.View();
      NumberedNext(f, nextCell, nextDir, Slot(parentId.value, ""));
      nextCell := nextCell + 1;
      var named := WriteCell(nextCell, parentId.value, name);
      if named.Err? {
        return Err(Refused(named.error));
      }
      NumberedNext(f, nextCell - 1, nextDir, Slot(parentId.value, named.value));
      return Ok(Slot(parentId.value, named.value));
    }

    /** new_cell.  When the source cannot be projected the namespace already holds
        the cell: it stays there, unindexed, and its name stays taken. */
    method NewCell(parent: Path, name: Option<string>, source: Expr) returns (r: Result<Path, TreeError>)
      requires Valid()
      modifies this, ns
      ensures Valid()
      ensures r.Ok? ==>
                && r.value != [] && Parent(r.value) == parent && r.value !in old(entries)
                && project(source).Some? && sourceRevision == old(sourceRevision) + 1
                && old(View()).GainsCell(View(), r.value, nextCell, source, sourceRevision)
      ensures AllLegal(old(entries)) ==> AllLegal(entries)
      ensures Kept(stores.mounts, old(View()), View())
      ensures r.Ok? <==> old(TakesChild(parent, name, CellName)) && project(source).Some?
      ensures r == Err(ProjectionTooLong) <==> old(TakesChild(parent, name, CellName)) && project(source).None?
      ensures r.Ok? ==> r.value == parent + [old(SlotFor(parent, name, CellName)).name]
      ensures r == Err(ProjectionTooLong) ==>
                old(View()).GainsOrphan(View(), nextCell, old(SlotFor(parent, name, CellName)))
      ensures r.Err? && r.error != ProjectionTooLong ==> View() == old(View())
    {
      hide SlotFor, TakesChild, Tree.InStep, MountsIndexed, Numbered, Forest.Sane, Forest.AddCell, SourcesOf, M.Sound;
      hide Kept, Shielded, AllLegal, LegalSegment;
      ghost var t := View();
      NothingChanges(stores.mounts, t, t);
      OpenToChildren(parent, name, CellName);
      var claimed := ClaimCell(parent, name);
      if claimed.Err? {
        return Err(claimed.error);
      }
      var s := claimed.value;
      if project(source).None? {
        t.WithOrphanInStep(nextCell, s);
        orphans := orphans + {nextCell};
        assert View() == t.WithOrphan(nextCell, s);
        assert t.GainsOrphan(View(), nextCell, s);
        NothingChanges(stores.mounts, t, View());
        hide Tree.GainsOrphan;
        return Err(ProjectionTooLong);
      }
      PlaceCell(t, parent, s, source);
      LegalAfterCell(t, View(), parent, s.name, nextCell, source, sourceRevision);
      CellKeeps(t, View(), stores.mounts, parent + [s.name], nextCell, source, sourceRevision);
      hide Tree.GainsCell;
      return Ok(parent + [s.name]);
    }

    /** The rest of new_cell when the source can be projected. */
    method PlaceCell(ghost t: Tree, parent: Path, s: Slot, source: Expr)
      requires Quiet() && MountsIndexed(entries, stores.mounts) && Numbered(ns.View(), nextCell, nextDir)
      requires t.InStep() && |entries| < MAX_TREE_NODES && nextCell !in t.forest.cells && project(source).Some?
      requires s.parent in t.forest.dirs && s.parent in t.forest.paths && t.forest.paths[s.parent] == parent && s !in t.forest.children
      requires View() == t.(forest := t.forest.AddCell(nextCell, s))
      modifies this`entries, this`cells, this`sources, this`stored, this`sourceRevision
      ensures Valid() && sourceRevision == old(sourceRevision) + 1 && parent + [s.name] !in t.entries
      ensures t.GainsCell(View(), parent + [s.name], nextCell, source, sourceRevision)
    {
      hide Tree.InStep, MountsIndexed, Numbered, Forest.Sane, Forest.AddCell, SourcesOf;
      t.WithCellInStep(nextCell, s, source, sourceRevision + 1);
      RecordCell(parent + [s.name], source);
      assert View() == t.WithCell(nextCell, s, source, sourceRevision);
    }

    /** The last part of new_cell: index, cell record, store and calculator. */
    method RecordCell(path: Path, source: Expr)
      requires project(source).Some? && path !in entries && MountsIndexed(entries, stores.mounts)
      modifies this`entries, this`cells, this`sources, this`stored, this`sourceRevision
      ensures sourceRevision == old(sourceRevision) + 1
      ensures entries == old(entries)[path := Cell(nextCell)] && MountsIndexed(entries, stores.mounts)
      ensures cells == old(cells)[path := RuntimeCell(nextCell, source, sourceRevision)]
      ensures sources == old(sources)[path := source]
      ensures stored == old(stored)[nextCell := project(source).value]
    {
      sourceRevision := sourceRevision + 1;
      entries := entries[path := Cell(nextCell)];
      cells := cells[path := RuntimeCell(nextCell, source, sourceRevision)];
      stored := stored[nextCell := project(source).value];
      sources := sources[path := source];
    }

    /** The first part of create_dir: the namespace takes the directory. */
    method ClaimDir(parent: Path, name: Option<string>, mounting: bool) returns (r: Result<Slot, TreeError>)
      requires Valid()
      modifies this`nextDir, ns
      ensures Quiet() && MountsIndexed(entries, stores.mounts) && Numbered(ns.View(), nextCell, nextDir)
      ensures r.Err? ==> Valid() && View() == old(View()) && !r.error.StoreRefused?
      ensures r.Ok? ==>
                && |entries| < MAX_TREE_NODES && nextDir !in old(ns.dirs)
                && r.value.parent in old(ns.dirs) && r.value.parent in old(ns.paths) && old(ns.paths)[r.value.parent] == parent
                && r.value !in old(ns.children) && (mounting || !InsideTable(parent))
                && View() == old(View()).(forest := old(ns.View()).AddDir(nextDir, r.value, map[]))
      ensures r.Ok? <==> old(TakesChild(parent, name, DirName)) && (mounting || !InsideTable(parent))
      ensures r.Ok? ==> r.value == old(SlotFor(parent, name, DirName))
    {
      hide NameFor, NameIsFree, Tree.InStep, MountsIndexed, Numbered, Forest.Sane, Writable, InsideTable;
      if |entries| >= MAX_TREE_NODES {
        return Err(NodeLimit);
      }
      if !Writable(parent) {
        return Err(ReadOnlyMount);
      }
      if !mounting && InsideTable(parent) {
        return Err(TableLeaf);
      }
      var parentId := DirAt(parent);
      if parentId.Err? {
        return Err(parentId.error);
      }
      View().Entry(parent);
      ghost var f := ns.View();
      NumberedNext(f, nextCell, nextDir, Slot(parentId.value, ""));
      nextDir := nextDir + 1;
      var named := WriteDir(nextDir, parentId.value, name);
      if named.Err? {
        return Err(Refused(named.error));
      }
      NumberedNext(f, nextCell, nextDir - 1, Slot(parentId.value, named.value));
      return Ok(Slot(parentId.value, named.value));
    }

    method CreateDir(parent: Path, name: Option<string>, mounting: bool) returns (r: Result<Path, TreeError>)
      requires Valid()
      modifies this`nextDir, this`entries, ns
      ensures Valid()
      ensures r.Ok? ==>
                && r.value != [] && Parent(r.value) == parent && r.value !in old(entries)
                && old(View()).GainsDir(View(), r.value, nextDir) && !ns.View().HasChildren(nextDir)
                && entries == old(entries)[r.value := Dir(nextDir)]
      ensures AllLegal(old(entries)) ==> AllLegal(entries)
      ensures Kept(stores.mounts, old(View()), View())
      ensures r.Ok? <==> old(TakesChild(parent, name, DirName)) && (mounting || !InsideTable(parent))
      ensures r.Ok? ==> r.value == parent + [old(SlotFor(parent, name, DirName)).name]
      ensures r.Err? ==> View() == old(View()) && !r.error.StoreRefused?
    {
      hide SlotFor, TakesChild, Tree.InStep, MountsIndexed, Numbered, Forest.Sane, InsideTable, Forest.HasChildren, Forest.AddDir;
      hide Kept, Shielded, AllLegal, LegalSegment;
      ghost var t := View();
      NothingChanges(stores.mounts, t, t);
      OpenToChildren(parent, name, DirName);
      var claimed := ClaimDir(parent, name, mounting);
      if claimed.Err? {
        return Err(claimed.error);
      }
      var s := claimed.value;
      t.WithDirInStep(nextDir, s);
      var path := parent + [s.name];
      MountIsIndexed(entries, stores.mounts, path);
      hide M.Sound;
      MountsKept(entries, entries[path := Dir(nextDir)], stores.mounts, path);
      entries := entries[path := Dir(nextDir)];
      assert View() == t.WithDir(nextDir, s);
      assert t.GainsDir(View(), path, nextDir);
      if AllLegal(t.entries) {
        ChildLegal(t.entries, entries, parent, s.name);
      }
      DirKeeps(t, View(), stores.mounts, path, nextDir);
      hide Tree.GainsDir;
      return Ok(path);
    }

    method NewDir(parent: Path, name: Option<string>) returns (r: Result<Path, TreeError>)
      requires Valid()
      modifies this`nextDir, this`entries, ns
      ensures Valid()
      ensures r.Ok? ==>
                && r.value == parent + [old(SlotFor(parent, name, DirName)).name]
                && old(View()).GainsDir(View(), r.value, nextDir)
      ensures AllLegal(old(entries)) ==> AllLegal(entries)
      ensures Kept(stores.mounts, old(View()), View())
      ensures r.Ok? <==> old(TakesChild(parent, name, DirName)) && !InsideTable(parent)
      ensures r.Err? ==> View() == old(View())
    {
      hide SlotFor, TakesChild, Tree.InStep, MountsIndexed, Numbered, Forest.Sane, InsideTable, Forest.HasChildren, Tree.GainsDir, Kept, AllLegal;
      r := CreateDir(parent, name, false);
    }

    // ---- Mounting ----

    /** mount: a directory is made first and taken away again if the store refuses. */
    method Mount(target: Path, backend: M.Backend, resource: M.Resource, epoch: nat) returns (r: Result<Path, TreeError>)
      requires Valid()
      modifies this, ns, stores
      ensures Valid()
      ensures cells == old(cells) && sources == old(sources) && stored == old(stored) && orphans == old(orphans)
      ensures r.Ok? ==> r.value == target && target !in old(entries) && entries == old(entries)[target := Dir(nextDir)]
                        && stores.mounts == old(stores.mounts)[target := M.Mount(target, resource, backend, epoch)]
      ensures r.Err? ==> entries == old(entries) && stores.mounts == old(stores.mounts)
      ensures r.Ok? || (r.Err? && r.error.StoreRefused?) <==>
              target != [] && old(TakesChild(Parent(target), Some(target[|target| - 1]), DirName))
      ensures r.Err? && r.error.StoreRefused? ==> !M.Accepts(old(stores.mounts), M.Mount(target, resource, backend, epoch))
      ensures r.Ok? ==> M.Accepts(old(stores.mounts), M.Mount(target, resource, backend, epoch))
    {
      hide TakesChild, Tree.InStep, MountsIndexed, Numbered, M.Sound, Forest.Sane, Forest.HasChildren, Writable, InsideTable, M.Accepts, Kept, AllLegal;
      if target == [] {
        return Err(RootRejected);
      }
      MountIsIndexed(entries, stores.mounts, target);
      var created := CreateDir(Parent(target), Some(target[|target| - 1]), true);
      if created.Err? {
        return created;
      }
      MountIsIndexed(entries, stores.mounts, target);
      var mounted := stores.Mount(M.Mount(target, resource, backend, epoch));
      if mounted.Err? {
        var undone := DeleteEmptyDir(target);
        assert entries == old(entries);
        return Err(StoreRefused(mounted.error));
      }
      MountDir(entries, old(stores.mounts), M.Mount(target, resource, backend, epoch));
      return created;
    }

    /** delete_empty_dir: the namespace has the last word on emptiness. */
    method DeleteEmptyDir(path: Path) returns (r: Result<(), TreeError>)
      requires Valid() && path !in stores.mounts
      modifies this`entries, ns
      ensures Valid()
      ensures r.Ok? <==> path in old(entries) && old(entries)[path].Dir? && path != []
                         && !old(ns.View()).HasChildren(old(entries)[path].dir)
      ensures r.Ok? ==> old(entries)[path].dir in old(ns.dirs) && old(ns.dirs)[old(entries)[path].dir].parent.Some?
                        && View() == old(View()).WithoutDir(path)
      ensures r.Err? ==> View() == old(View())
    {
      hide Tree.InStep, MountsIndexed, Numbered, Forest.Sane, Forest.HasChildren;
      var id := DirAt(path);
      if id.Err? {
        return Err(id.error);
      }
      ghost var t := View();
      t.Entry(path);
      var dropped := WriteDelete(Dir(id.value));
      if dropped.Err? {
        return Err(Refused(dropped.error));
      }
      t.WithoutDirInStep(path);
      SmallerWithout(entries, path);
      NumberedStill(t.forest, ns.View(), nextCell, nextDir);
      MountsKept(entries, entries - {path}, stores.mounts, path);
      entries := entries - {path};
      assert View() == t.WithoutDir(path);
      return Ok(());
    }

    /** unmount.  An orphan cell below the mount point makes the last step fail
        after the mount is already gone. */
    method Unmount(target: Path) returns (r: Result<bool, TreeError>)
      requires Valid()
      modifies this`entries, ns, stores
      ensures Valid()
      ensures r.Ok? ==> r.value && entries == old(entries) - {target}
      ensures r.Err? ==> entries == old(entries)
      ensures stores.mounts == if old(Empty(target)) then old(stores.mounts) - {target} else old(stores.mounts)
      ensures r.Ok? <==> old(Empty(target)) && target in old(stores.mounts)
                         && target in old(entries) && old(entries)[target].Dir? && !old(ns.View()).HasChildren(old(entries)[target].dir)
    {
      hide Tree.InStep, Forest.Sane, Forest.HasChildren, Empty;
      if !Empty(target) {
        return Err(NotEmpty);
      }
      var removed := stores.Unmount(target);
      hide M.Sound;
      if removed.Err? {
        return Err(StoreRefused(removed.error));
      }
      var deleted := DeleteEmptyDir(target);
      if deleted.Err? {
        return Err(deleted.error);
      }
      return Ok(true);
    }

    // ---- Moving ----

    /** rekey_subtree: one key at a time, moving the calculator's source with it,
        except that the moved cell itself has been moved already. */
    method RekeySubtree(from: Path, to: Path) returns (r: Result<(), TreeError>)
      requires Apart(from, to) && FreeBelow(entries, to)
      requires cells.Keys <= entries.Keys
      requires sources == if from in cells then MovedSource(SourcesOf(cells), from, to) else SourcesOf(cells)
      requires |entries| <= MAX_TREE_NODES
      modifies this`entries, this`cells, this`sources
      ensures r.Ok?
      ensures entries == Rekeyed(old(entries), from, to) && |entries| == |old(entries)|
      ensures cells == Rekeyed(old(cells), from, to)
      ensures sources == SourcesOf(cells)
    {
      hide Rekeyed, SourcesOf, MovedSource, Midway, Rebase, FreeBelow, Apart;
      var descendants := AtOrBelow(entries.Keys, from);
      SubsetSmaller(entries.Keys, descendants);
      if |descendants| > MAX_TREE_NODES {
        return Err(SubtreeLimit);
      }
      ghost var e, c := entries, cells;
      FreeBelowPart(e, c, to);
      StartMidway(e, c, from, to);
      assert descendants - descendants == {};
      var rest := descendants;
      while rest != {}
        invariant rest <= descendants
        invariant Midway(e, c, descendants - rest, from, to, entries, cells, sources)
        decreases rest
      {
        var key :| key in rest;
        StepMidway(e, c, descendants - rest, from, to, entries, cells, sources, key);
        var renamed := Rebase(key, from, to);
        var identity := entries[key];
        entries := entries - {key};
        if key in cells {
          var cell := cells[key];
          cells := cells - {key};
          if key != from {
            sources := MovedSource(sources, key, renamed);
          }
          cells := cells[renamed := cell];
        }
        entries := entries[renamed := identity];
        assert descendants - rest + {key} == descendants - (rest - {key});
        rest := rest - {key};
      }
      assert descendants - rest == descendants;
      EndMidway(e, c, descendants, from, to, entries, cells, sources);
      MidwaySize(e, c, descendants, from, to, entries, cells, sources);
      return Ok(());
    }

    /** What move_entry checks before it touches anything. */
    function MoveRefusal(from: Path, to: Path): Option<TreeError>
      reads this, stores
    {
      if from == [] || to == [] then Some(RootRejected)
      else if !Writable(from) || !Writable(Parent(to)) then Some(ReadOnlyMount)
      else if DirAt(Parent(to)).Err? then Some(DirAt(Parent(to)).error)
      else if !LegalSegment(to[|to| - 1]) then Some(BadName)
      else if from !in entries then Some(MissingEntry)
      else if exists m | m in stores.mounts :: from <= m then Some(MountedSubtree)
      else if to in entries then Some(TargetExists)
      else None
    }

    /** move_entry is all or nothing.  Past its own checks it fails exactly when a
        directory would move below itself or an orphan holds the target name;
        otherwise the namespace is relinked and the index, the cells and the
        calculator's sources are rekeyed exactly. */
    method MoveEntry(from: Path, to: Path) returns (r: Result<Path, TreeError>)
      requires Valid()
      modifies this`entries, this`cells, this`sources, ns
      ensures Valid()
      ensures r.Ok? <==> old(MoveRefusal(from, to)).None? && !(old(entries)[from].Dir? && from <= Parent(to))
                         && !old(TakenByOrphan(DirAt(Parent(to)).value, to[|to| - 1]))
      ensures old(MoveRefusal(from, to)).Some? ==> r == Err(old(MoveRefusal(from, to)).value)
      ensures r.Ok? ==> r.value == to && Apart(from, to) && FreeBelow(old(entries), to)
                        && View() == old(View()).Moved(from, to, ns.View())
      ensures AllLegal(old(entries)) ==> AllLegal(entries)
      ensures Kept(stores.mounts, old(View()), View())
      ensures r.Err? ==> View() == old(View())
    {
      hide Tree.InStep, Numbered, MountsIndexed, Forest.Sane, Forest.HasChildren, Writable, Rekeyed, SourcesOf, MovedSource, Apart, FreeBelow, Rebase;
      hide Kept, Shielded, SameAt, AllLegal, LegalSegment;
      NothingChanges(stores.mounts, View(), View());
      WritableIsOpen(from);
      WritableIsOpen(Parent(to));
      MountsAreEntries(entries, stores.mounts);
      var refusal := MoveRefusal(from, to);
      if refusal.Some? {
        return Err(refusal.value);
      }
      var parentId := DirAt(Parent(to)).value;
      var name := to[|to| - 1];
      var identity := entries[from];
      ghost var t, s := View(), Slot(parentId, name);
      t.Entry(from);
      t.Entry(Parent(to));
      t.SlotTaken(s);
      t.SlotElsewhere(from, s);
      var moved := WriteMove(identity, parentId, name);
      if moved.Err? {
        return Err(Refused(moved.error));
      }
      t.RecordsOf();
      Rekey(t, from, to, s);
      if AllLegal(t.entries) {
        RekeyedLegal(t.entries, from, to);
      }
      MoveKeeps(stores.mounts, t, View(), from, to);
      return Ok(to);
    }

    /** The rest of move_entry, once the namespace holds the entry in its new place. */
    method Rekey(ghost t: Tree, from: Path, to: Path, ghost s: Slot)
      requires Quiet() && t.InStep() && MountsIndexed(entries, stores.mounts) && |entries| <= MAX_TREE_NODES
      requires Numbered(t.forest, nextCell, nextDir)
      requires from in entries && from != [] && forall m :: m in stores.mounts ==> !(from <= m)
      requires s.parent in t.forest.dirs && s !in t.forest.children
      requires t.forest.paths.Keys == t.forest.dirs.Keys && t.forest.paths[s.parent] + [s.name] == to
      requires entries[from].Dir? ==> !(from <= t.forest.paths[s.parent])
      requires entries[from].Cell? ==> entries[from].cell in t.forest.cells
      requires entries[from].Dir? ==> entries[from].dir in t.forest.dirs && t.forest.dirs[entries[from].dir].parent.Some?
      requires t.entries == entries && View() == t.(forest := t.Relinked(entries[from], s))
      modifies this`entries, this`cells, this`sources
      ensures Valid() && Apart(from, to) && FreeBelow(t.entries, to)
      ensures View() == t.Moved(from, to, ns.View())
    {
      hide Tree.InStep, Numbered, MountsIndexed, Forest.Sane, Rekeyed, SourcesOf, MovedSource, Apart, FreeBelow, Rebase;
      t.MovedInStep(from, to, s);
      t.Entry(from);
      t.RecordsOf();
      MountsStay(entries, stores.mounts, from, to);
      NumberedStill(t.forest, ns.View(), nextCell, nextDir);
      if entries[from].Cell? {
        sources := MovedSource(sources, from, to);
      }
      var rekeyed := RekeySubtree(from, to);
      assert View() == t.Moved(from, to, ns.View());
    }

    method RenameEntry(path: Path, name: string) returns (r: Result<Path, TreeError>)
      requires Valid()
      modifies this`entries, this`cells, this`sources, ns
      ensures Valid()
      ensures r.Ok? ==> path != [] && r.value == Parent(path) + [name] && View() == old(View()).Moved(path, r.value, ns.View())
      ensures AllLegal(old(entries)) ==> AllLegal(entries)
      ensures Kept(stores.mounts, old(View()), View())
      ensures r.Err? ==> View() == old(View())
    {
      hide Tree.InStep, MountsIndexed, Forest.Sane, Rekeyed, SourcesOf, Writable, Kept, AllLegal;
      NothingChanges(stores.mounts, View(), View());
      if path == [] {
        return Err(RootRejected);
      }
      if !LegalSegment(name) {
        return Err(BadName);
      }
      r := MoveEntry(path, Parent(path) + [name]);
    }

    // ---- Deletion and editing ----

    /** delete.  A directory the index shows as empty is kept if an orphan is in it. */
    method Delete(path: Path) returns (r: Result<bool, TreeError>)
      requires Valid()
      modifies this`entries, this`cells, this`sources, this`stored, ns
      ensures Valid()
      ensures r.Ok? <==> path in old(entries) && Writable(path)
                         && (old(entries)[path].Dir? ==> path != [] && path !in stores.mounts && !old(ns.View()).HasChildren(old(entries)[path].dir))
      ensures r.Ok? ==> r.value && entries == old(entries) - {path} && cells == old(cells) - {path} && sources == old(sources) - {path}
      ensures r.Ok? && old(entries)[path].Cell? ==> stored == old(stored) - {old(entries)[path].cell}
      ensures r.Ok? && old(entries)[path].Dir? ==> stored == old(stored)
      ensures Kept(stores.mounts, old(View()), View())
      ensures r.Err? ==> View() == old(View())
    {
      hide Tree.InStep, MountsIndexed, Numbered, Forest.Sane, Forest.HasChildren, Writable, SourcesOf, Empty;
      hide Kept, Shielded;
      NothingChanges(stores.mounts, View(), View());
      WritableIsOpen(path);
      if path !in entries {
        return Err(MissingEntry);
      }
      var identity := entries[path];
      if !Writable(path) {
        return Err(ReadOnlyMount);
      }
      ghost var t := View();
      match identity {
        case Cell(_) =>
          DeleteCellAt(path);
        case Dir(_) =>
          var deleted := DeleteDirAt(path);
          if deleted.Err? {
            return Err(deleted.error);
          }
      }
      OnePlaceChanges(stores.mounts, t, View(), path);
      return Ok(true);
    }

    method DeleteDirAt(path: Path) returns (r: Result<(), TreeError>)
      requires Valid() && path in entries && entries[path].Dir?
      modifies this`entries, ns
      ensures Valid()
      ensures r.Ok? <==> path != [] && path !in stores.mounts && !old(ns.View()).HasChildren(old(entries)[path].dir)
      ensures r.Ok? ==> entries == old(entries) - {path} && path !in cells && path !in sources
      ensures r.Err? ==> View() == old(View())
    {
      hide Tree.InStep, MountsIndexed, Numbered, Forest.Sane, Forest.HasChildren, SourcesOf, Empty;
      View().Entry(path);
      View().RecordsOf();
      if !ns.View().HasChildren(entries[path].dir) {
        EmptyIfChildless(path);
      }
      if !Empty(path) {
        return Err(NotEmpty);
      }
      if path in stores.mounts {
        return Err(MountedSubtree);
      }
      r := DeleteEmptyDir(path);
    }

    method DeleteCellAt(path: Path)
      requires Valid() && path in entries && entries[path].Cell?
      modifies this`entries, this`cells, this`sources, this`stored, ns
      ensures Valid()
      ensures entries == old(entries) - {path} && cells == old(cells) - {path} && sources == old(sources) - {path}
      ensures stored == old(stored) - {old(entries)[path].cell}
    {
      hide Tree.InStep, MountsIndexed, Numbered, Forest.Sane, M.Sound, Forest.HasChildren, SourcesOf;
      ghost var t := View();
      t.Entry(path);
      MountIsIndexed(entries, stores.mounts, path);
      var dropped := WriteDelete(entries[path]);
      t.WithoutCellInStep(path);
      SmallerWithout(entries, path);
      NumberedStill(t.forest, ns.View(), nextCell, nextDir);
      MountsKept(entries, entries - {path}, stores.mounts, path);
      sources := sources - {path};
      stored := stored - {entries[path].cell};
      entries := entries - {path};
      cells := cells - {path};
      assert View() == t.WithoutCell(path);
    }

    lemma EmptyIfChildless(path: Path)
      requires Valid() && path in entries && entries[path].Dir? && !ns.View().HasChildren(entries[path].dir)
      ensures Empty(path)
    {
      hide Tree.InStep, MountsIndexed, Numbered;
      View().NothingBelow(path);
    }

    method SetExpr(path: Path, source: Expr) returns (r: Result<Path, TreeError>)
      requires Valid()
      modifies this`cells, this`sources, this`stored, this`sourceRevision
      ensures Valid()
      ensures r == if !Writable(path) then Err(ReadOnlyMount)
                   else if project(source).None? then Err(ProjectionTooLong)
                   else if path !in old(cells) then Err(NotACell) else Ok(path)
      ensures r.Ok? ==> View() == old(View()).WithSource(path, source, old(sourceRevision) + 1)
      ensures Kept(stores.mounts, old(View()), View())
      ensures r.Err? ==> View() == old(View())
    {
      hide Tree.InStep, MountsIndexed, Forest.Sane, Writable;
      hide Kept, Shielded;
      NothingChanges(stores.mounts, View(), View());
      WritableIsOpen(path);
      if !Writable(path) {
        return Err(ReadOnlyMount);
      }
      var text := project(source);
      if text.None? {
        return Err(ProjectionTooLong);
      }
      if path !in cells {
        return Err(NotACell);
      }
      ghost var t := View();
      sourceRevision := sourceRevision + 1;
      t.WithSourceInStep(path, source, sourceRevision);
      var cell := RuntimeCell(cells[path].id, source, sourceRevision);
      cells := cells[path := cell];
      stored := stored[cell.id := text.value];
      sources := sources[path := source];
      assert View() == t.WithSource(path, source, sourceRevision);
      OnePlaceChanges(stores.mounts, t, View(), path);
      return Ok(path);
    }

    // ---- Listing ----

    function RowOf(p: Path): RowKind
      reads this, stores
      requires p in entries
    {
      if entries[p].Cell? then CellRow else if p in stores.mounts then MountRow else DirRow
    }

    /** list filters the flat index; it finds exactly the directory's children in
        the namespace, orphans aside. */
    method List(path: Path) returns (r: Result<map<Path, RowKind>, TreeError>)
      requires Valid()
      ensures path !in entries ==> r == Err(MissingEntry)
      ensures path in entries && entries[path].Cell? ==> r == Err(NotADirectory)
      ensures r.Ok? ==> |r.value| <= MAX_LIST_ITEMS && path in entries && entries[path].Dir?
      ensures r.Ok? ==> forall name :: path + [name] in r.value <==>
                          Slot(entries[path].dir, name) in ns.children && !TakenByOrphan(entries[path].dir, name)
      ensures r.Ok? ==> forall p :: p in r.value ==> p in entries && p != [] && Parent(p) == path
      ensures r.Ok? ==> forall p :: p in r.value ==>
                (r.value[p].CellRow? <==> entries[p].Cell?) && (r.value[p].MountRow? <==> entries[p].Dir? && p in stores.mounts)
    {
      hide Tree.InStep, MountsIndexed, Forest.Sane;
      var id := DirAt(path);
      if id.Err? {
        return Err(id.error);
      }
      var rows := map p | p in entries && p != [] && Parent(p) == path :: RowOf(p);
      if |rows| > MAX_LIST_ITEMS {
        return Err(ListLimit);
      }
      forall name ensures path + [name] in rows <==> Slot(entries[path].dir, name) in ns.children && !TakenByOrphan(entries[path].dir, name) {
        View().ChildRow(path, name);
      }
      return Ok(rows);
    }
  }
}
