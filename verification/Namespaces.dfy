/** A forest of named nodes. */
module Namespaces {
  // Directory and cell records with parent links, and a children map that must be
  // their exact inverse.

  import opened Syntax
  import opened Texts
  import opened Paths

  type DirId = nat

  type CellId = nat

  /** A local policy patch: the fields it sets. */
  type Patch = map<nat, nat>

  datatype DirRecord = DirRecord(parent: Option<DirId>, name: string, patch: Patch)

  datatype CellRecord = CellRecord(parent: DirId, name: string, patch: Patch)

  datatype NamespaceEntry = Dir(dir: DirId) | Cell(cell: CellId)

  datatype Slot = Slot(parent: DirId, name: string)

  datatype GeneratedKind = CellName | DirName {
    function Prefix(): string {
      if CellName? then "cell" else "dir"
    }
  }

  datatype WriterLane = WriterLane(epoch: nat)

  datatype NamespaceError =
    | IllegalName
    | MissingDir(dir: DirId)
    | MissingCell(cell: CellId)
    | MissingDirRecord(dir: DirId)
    | NameCollision(at: Slot)
    | MissingReservation(at: Slot)
    | CounterCorruption(at: Slot)
    | WriterAlreadyActive
    | InvalidWriterLane
    | RootDirCannotMove
    | DirMoveCycle(dir: DirId, newParent: DirId)
    | DirNotEmpty(dir: DirId)

  function GeneratedName(kind: GeneratedKind, n: nat): string {
    kind.Prefix() + "-" + Digits(n)
  }

  /** Generated names are legal, and no two numbers or kinds give the same one. */
  lemma GeneratedNames(kind: GeneratedKind, m: nat, other: GeneratedKind, n: nat)
    ensures LegalSegment(GeneratedName(kind, m))
    ensures GeneratedName(kind, m) == GeneratedName(other, n) ==> kind == other && m == n
  {
    DigitsParse(m);
    DigitsParse(n);
    var a, b := GeneratedName(kind, m), GeneratedName(other, n);
    if a == b {
      assert a[0] == kind.Prefix()[0] && b[0] == other.Prefix()[0];
      assert a[|kind.Prefix()| + 1..] == Digits(m) && b[|other.Prefix()| + 1..] == Digits(n);
    }
  }

  /** The records of a namespace as a value, with the path every directory has
      when parent links are followed to the root. */
  datatype Forest = Forest(
    root: DirId,
    dirs: map<DirId, DirRecord>,
    cells: map<CellId, CellRecord>,
    children: map<Slot, NamespaceEntry>,
    paths: map<DirId, Path>)
  {
    /** Parents exist, the children map inverts the records, and every directory
        has a finite path from the root. */
    ghost predicate Sane() {
      && root in dirs && dirs[root].parent.None?
      && paths.Keys == dirs.Keys && paths[root] == []
      && (forall d {:trigger DirLinked(d)} :: d in dirs && d != root ==> DirLinked(d))
      && (forall c {:trigger CellLinked(c)} :: c in cells ==> CellLinked(c))
      && (forall s {:trigger ChildLinked(s)} :: s in children ==> ChildLinked(s))
    }

    ghost predicate DirLinked(d: DirId)
      requires d in dirs && paths.Keys == dirs.Keys
    {
      && dirs[d].parent.Some? && dirs[d].parent.value in dirs
      && DirSlot(d) in children && children[DirSlot(d)] == Dir(d)
      && paths[d] == paths[dirs[d].parent.value] + [dirs[d].name]
    }

    ghost predicate CellLinked(c: CellId)
      requires c in cells
    {
      cells[c].parent in dirs && CellSlot(c) in children && children[CellSlot(c)] == Cell(c)
    }

    ghost predicate ChildLinked(s: Slot)
      requires s in children
    {
      match children[s]
      case Dir(d) => d in dirs && d != root && dirs[d].parent == Some(s.parent) && dirs[d].name == s.name
      case Cell(c) => c in cells && CellSlot(c) == s
    }

    function DirSlot(d: DirId): Slot
      requires d in dirs && dirs[d].parent.Some?
    {
      Slot(dirs[d].parent.value, dirs[d].name)
    }

    function CellSlot(c: CellId): Slot
      requires c in cells
    {
      Slot(cells[c].parent, cells[c].name)
    }

    ghost function CellPath(c: CellId): Path
      requires Sane() && c in cells
    {
      assert CellLinked(c);
      paths[cells[c].parent] + [cells[c].name]
    }

    /** Name-by-name resolution through the children map. */
    function Resolve(p: Path): Option<NamespaceEntry>
      decreases |p|
    {
      if p == [] then Some(Dir(root))
      else
        match Resolve(p[..|p| - 1])
        case Some(Dir(d)) =>
          var s := Slot(d, p[|p| - 1]);
          if s in children then Some(children[s]) else None
        case _ => None
    }

    /** The policy a directory inherits, defined from the root downwards. */
    ghost function Inherited(d: DirId): Patch
      requires Sane() && d in dirs
      decreases |paths[d]|
    {
      if d == root then dirs[d].patch
      else
        assert DirLinked(d);
        Inherited(dirs[d].parent.value) + dirs[d].patch
    }

    /** The directory is on the way from the root to d and sets the setting. */
    ghost predicate SetsFor(a: DirId, d: DirId, setting: nat) {
      a in dirs && a in paths && d in paths && paths[a] <= paths[d] && setting in dirs[a].patch
    }

    lemma AboveIsUp(a: DirId, d: DirId)
      requires Sane() && a in dirs && d in dirs
      ensures if d == root then (paths[a] <= paths[d] <==> a == d)
              else DirLinked(d) && dirs[d].parent.Some? && dirs[d].parent.value in paths
                   && |paths[dirs[d].parent.value]| < |paths[d]|
                   && (paths[a] <= paths[d] <==> a == d || paths[a] <= paths[dirs[d].parent.value])
                   && paths[dirs[d].parent.value] <= paths[d]
    {
      Basics();
      hide Forest.Sane;
      if d != root {
        assert DirLinked(d);
        PrefixOfChild(paths[a], paths[dirs[d].parent.value], dirs[d].name);
      }
      if paths[a] == paths[d] {
        PathsInjective(a, d);
      }
    }

    /** A setting is inherited exactly if a directory on the way from the root sets it,
        and from the nearest one that does. */
    lemma {:induction false} NearestPatchWins(d: DirId, setting: nat)
      requires Sane() && d in dirs
      ensures setting in Inherited(d) <==> exists a :: SetsFor(a, d, setting)
      ensures setting in Inherited(d) ==>
                exists a :: SetsFor(a, d, setting) && Inherited(d)[setting] == dirs[a].patch[setting]
                            && forall b :: SetsFor(b, d, setting) ==> paths[b] <= paths[a]
      decreases |paths[d]|
    {
      Basics();
      AboveIsUp(d, d);
      if d == root {
        forall a | SetsFor(a, d, setting) ensures a == root {
          AboveIsUp(a, d);
        }
        hide Forest.Sane;
        assert setting in dirs[root].patch ==> SetsFor(root, d, setting);
      } else {
        var up := dirs[d].parent.value;
        NearestPatchWins(up, setting);
        forall a ensures SetsFor(a, d, setting) <==> SetsFor(a, up, setting) || (a == d && setting in dirs[d].patch) {
          if a in dirs {
            AboveIsUp(a, d);
          }
        }
        hide Forest.Sane;
        if setting in dirs[d].patch {
          assert SetsFor(d, d, setting);
        } else if setting in Inherited(up) {
          var a :| SetsFor(a, up, setting);
          assert SetsFor(a, d, setting);
        }
      }
    }

    // ---- What an operation makes of the forest ----

    function AddCell(id: CellId, s: Slot): Forest {
      this.(children := children[s := Cell(id)], cells := cells[id := CellRecord(s.parent, s.name, map[])])
    }

    /** The records of a directory are put in place; its path is left open. */
    function PutDir(id: DirId, s: Slot, patch: Patch): Forest {
      this.(children := children[s := Dir(id)], dirs := dirs[id := DirRecord(Some(s.parent), s.name, patch)])
    }

    function WithPaths(other: map<DirId, Path>): Forest {
      this.(paths := other)
    }

    /** The records and the children are a forest under some assignment of paths. */
    ghost predicate HasPaths() {
      exists other :: WithPaths(other).Sane()
    }

    function AddDir(id: DirId, s: Slot, patch: Patch): Forest
      requires s.parent in paths
    {
      this.(children := children[s := Dir(id)], dirs := dirs[id := DirRecord(Some(s.parent), s.name, patch)],
            paths := paths[id := paths[s.parent] + [s.name]])
    }

    function RelinkCell(id: CellId, s: Slot): Forest
      requires id in cells
    {
      this.(children := (children - {CellSlot(id)})[Slot(s.parent, s.name) := Cell(id)],
            cells := cells[id := cells[id].(parent := s.parent, name := s.name)])
    }

    function RelinkDir(id: DirId, s: Slot): Forest
      requires id in dirs && dirs[id].parent.Some? && id in paths && s.parent in paths
    {
      this.(children := (children - {DirSlot(id)})[s := Dir(id)],
            dirs := dirs[id := dirs[id].(parent := Some(s.parent), name := s.name)],
            paths := map d | d in paths :: Rebase(paths[d], paths[id], paths[s.parent] + [s.name]))
    }

    function DropCell(id: CellId): Forest
      requires id in cells
    {
      this.(children := children - {CellSlot(id)}, cells := cells - {id})
    }

    function DropDir(id: DirId): Forest
      requires id in dirs && dirs[id].parent.Some?
    {
      this.(children := children - {DirSlot(id)}, dirs := dirs - {id}, paths := paths - {id})
    }

    predicate HasChildren(id: DirId) {
      exists s | s in children :: s.parent == id
    }

    // ---- What the invariant gives ----

    lemma Basics()
      requires Sane()
      ensures root in dirs && dirs[root].parent.None? && paths.Keys == dirs.Keys && paths[root] == []
      ensures forall d {:trigger DirLinked(d)} :: d in dirs && d != root ==> DirLinked(d)
      ensures forall c {:trigger CellLinked(c)} :: c in cells ==> CellLinked(c)
    {
    }

    /** No two directories have the same path. */
    lemma {:induction false} PathsInjective(d: DirId, e: DirId)
      requires Sane() && d in dirs && e in dirs && paths[d] == paths[e]
      ensures d == e
      decreases |paths[d]|
    {
      assert d != root ==> DirLinked(d);
      assert e != root ==> DirLinked(e);
      if d != root && e != root {
        var p, q := dirs[d].parent.value, dirs[e].parent.value;
        assert paths[p] == paths[d][..|paths[d]| - 1] == paths[e][..|paths[e]| - 1] == paths[q];
        PathsInjective(p, q);
        assert DirSlot(d) == DirSlot(e);
      }
    }

    /** The parent of a directory inside a subtree, other than its top, is inside. */
    lemma ParentInside(d: DirId, top: DirId)
      requires Sane() && d in dirs && top in dirs && d != root && d != top
      ensures DirLinked(d)
      ensures paths[top] <= paths[d] <==> paths[top] <= paths[dirs[d].parent.value]
    {
      assert DirLinked(d);
      if paths[top] <= paths[d] && |paths[top]| == |paths[d]| {
        PathsInjective(d, top);
      }
    }

    /** A directory resolves at its path. */
    lemma {:induction false} DirResolves(d: DirId)
      requires Sane() && d in dirs
      ensures Resolve(paths[d]) == Some(Dir(d))
      decreases |paths[d]|
    {
      if d != root {
        assert DirLinked(d);
        var p := paths[d];
        assert p[..|p| - 1] == paths[dirs[d].parent.value];
        DirResolves(dirs[d].parent.value);
      }
    }

    lemma CellResolves(c: CellId)
      requires Sane() && c in cells
      ensures Resolve(CellPath(c)) == Some(Cell(c))
    {
      assert CellLinked(c);
      var p := CellPath(c);
      assert p[..|p| - 1] == paths[cells[c].parent];
      DirResolves(cells[c].parent);
    }

    lemma ChildIsThere(d: DirId, name: string)
      requires Sane() && d in dirs && Slot(d, name) in children
      ensures match children[Slot(d, name)]
              case Dir(e) => e in dirs && paths[e] == paths[d] + [name]
              case Cell(c) => c in cells && CellPath(c) == paths[d] + [name]
    {
      assert ChildLinked(Slot(d, name));
      if children[Slot(d, name)].Dir? {
        assert DirLinked(children[Slot(d, name)].dir);
      }
    }

    /** A path resolves only to the node that has that path. */
    lemma {:induction false} ResolvedIsThere(p: Path)
      requires Sane()
      ensures match Resolve(p)
              case Some(Dir(d)) => d in dirs && paths[d] == p
              case Some(Cell(c)) => c in cells && CellPath(c) == p
              case None => true
      decreases |p|
    {
      if p != [] {
        var up, name := p[..|p| - 1], p[|p| - 1];
        ResolvedIsThere(up);
        assert p == up + [name];
        match Resolve(up)
        case Some(Dir(d)) =>
          if Slot(d, name) in children {
            ChildIsThere(d, name);
          }
        case _ =>
      }
    }

    // ---- Which operations keep it ----

    /** Adding a cell keeps the forest exactly if the parent exists and the id is new. */
    lemma AddCellSane(id: CellId, s: Slot)
      requires Sane() && s !in children
      ensures AddCell(id, s).Sane() <==> s.parent in dirs && id !in cells
    {
      var f := AddCell(id, s);
      if s.parent in dirs && id !in cells {
        forall d | d in f.dirs && d != root ensures f.DirLinked(d) { assert DirLinked(d); }
        forall c | c in f.cells ensures f.CellLinked(c) {
          if c != id { assert CellLinked(c); }
        }
        forall t | t in f.children ensures f.ChildLinked(t) {
          if t != s { assert ChildLinked(t); }
        }
      }
      if id in cells {
        assert CellLinked(id);
        assert !f.ChildLinked(CellSlot(id));
      } else if s.parent !in dirs {
        assert !f.CellLinked(id);
      }
    }

    /** Adding a directory leaves a forest, under any assignment of paths, exactly if
        the parent exists and the id is new. */
    lemma AddDirSane(id: DirId, s: Slot, patch: Patch)
      requires Sane() && s !in children
      ensures s.parent in dirs && id !in dirs ==> s.parent in paths && AddDir(id, s, patch).Sane()
      ensures PutDir(id, s, patch).HasPaths() <==> s.parent in dirs && id !in dirs
    {
      if s.parent in dirs && id !in dirs {
        AddedDirLinks(id, s, patch);
        assert PutDir(id, s, patch).WithPaths(AddDir(id, s, patch).paths) == AddDir(id, s, patch);
      } else {
        forall other ensures !PutDir(id, s, patch).WithPaths(other).Sane() {
          NoSuchForest(id, s, patch, other);
        }
      }
    }

    lemma AddedDirLinks(id: DirId, s: Slot, patch: Patch)
      requires Sane() && s !in children && s.parent in dirs && id !in dirs
      ensures AddDir(id, s, patch).Sane()
    {
      var f := AddDir(id, s, patch);
      forall d | d in f.dirs && d != root ensures f.DirLinked(d) {
        if d != id { assert DirLinked(d); }
      }
      forall c | c in f.cells ensures f.CellLinked(c) { assert CellLinked(c); }
      forall t | t in f.children ensures f.ChildLinked(t) {
        if t != s { assert ChildLinked(t); }
      }
    }

    /** A directory that was there keeps its old slot, and one whose parent is missing
        could only be its own parent. */
    lemma NoSuchForest(id: DirId, s: Slot, patch: Patch, other: map<DirId, Path>)
      requires Sane() && s !in children && (s.parent !in dirs || id in dirs)
      ensures !PutDir(id, s, patch).WithPaths(other).Sane()
    {
      var f := PutDir(id, s, patch).WithPaths(other);
      if id in dirs && id != root {
        assert DirLinked(id);
        assert !f.ChildLinked(DirSlot(id));
      } else if id != root && f.paths.Keys == f.dirs.Keys {
        assert !f.DirLinked(id);
      }
    }

    lemma PathsLeftOpen(other: map<DirId, Path>)
      ensures WithPaths(other).HasPaths() <==> HasPaths()
    {
      forall more ensures WithPaths(other).WithPaths(more) == WithPaths(more) {
      }
    }

    lemma RelinkCellSane(id: CellId, s: Slot)
      requires Sane() && id in cells && s.parent in dirs && (s in children ==> s == CellSlot(id))
      ensures RelinkCell(id, s).Sane()
    {
      var f := RelinkCell(id, s);
      assert CellLinked(id);
      forall d | d in f.dirs && d != root ensures f.DirLinked(d) { assert DirLinked(d); }
      forall c | c in f.cells ensures f.CellLinked(c) { assert CellLinked(c); }
      forall t | t in f.children ensures f.ChildLinked(t) {
        if t != s { assert ChildLinked(t); }
      }
    }

    lemma RebasedLink(id: DirId, s: Slot, d: DirId)
      requires Sane() && id in dirs && id != root && s.parent in dirs
      requires !(paths[id] <= paths[s.parent])
      requires DirLinked(id) && d in dirs && d != root
      ensures DirLinked(d)
      ensures var f := RelinkDir(id, s);
              f.dirs[d].parent.Some? && f.paths[d] == f.paths[f.dirs[d].parent.value] + [f.dirs[d].name]
    {
      var to := paths[s.parent] + [s.name];
      if d == id {
        assert Rebase(paths[id], paths[id], to) == to;
      } else {
        ParentInside(d, id);
        RebaseChild(paths[dirs[d].parent.value], dirs[d].name, paths[id], to);
      }
    }

    /** Reparenting a directory under one that is not below it keeps the forest:
        no cycle can close, and every path below it is rebased. */
    lemma RelinkDirSane(id: DirId, s: Slot)
      requires Sane() && id in dirs && id != root && s.parent in dirs
      requires !(paths[id] <= paths[s.parent])
      requires DirLinked(id) && (s in children ==> s == DirSlot(id))
      ensures RelinkDir(id, s).Sane()
    {
      var f := RelinkDir(id, s);
      assert f.paths[root] == [] by {
        if paths[id] <= [] {
          PathsInjective(id, root);
        }
      }
      forall d | d in f.dirs && d != root ensures f.DirLinked(d) {
        RebasedLink(id, s, d);
      }
      RelinkDirInverse(id, s);
    }

    lemma RelinkDirInverse(id: DirId, s: Slot)
      requires Sane() && id in dirs && id != root && s.parent in dirs
      requires DirLinked(id) && (s in children ==> s == DirSlot(id))
      ensures var f := RelinkDir(id, s);
              && (forall c :: c in f.cells ==> f.CellLinked(c))
              && (forall t :: t in f.children ==> f.ChildLinked(t))
    {
      hide Rebase;
      var f := RelinkDir(id, s);
      forall c | c in f.cells ensures f.CellLinked(c) { assert CellLinked(c); }
      forall t | t in f.children ensures f.ChildLinked(t) {
        if t != s { assert ChildLinked(t); }
      }
    }

    /** Reparenting a directory below itself would break it. */
    lemma CycleBreaksForest(id: DirId, s: Slot)
      requires Sane() && id in dirs && id != root && s.parent in dirs && paths[id] <= paths[s.parent]
      requires DirLinked(id)
      ensures forall other :: !RelinkDir(id, s).(paths := other).Sane()
    {
      forall other ensures !RelinkDir(id, s).(paths := other).Sane() {
        var f := RelinkDir(id, s).(paths := other);
        if f.Sane() {
          assert f.DirLinked(id);
          AncestorShorter(f, s.parent, id);
        }
      }
    }

    /** Following this forest's links from d up to an ancestor, in any forest that
        keeps the links in between, gives the ancestor a path no longer than d's. */
    lemma {:induction false} AncestorShorter(f: Forest, d: DirId, ancestor: DirId)
      requires Sane() && f.Sane() && f.root == root && f.dirs.Keys == dirs.Keys
      requires d in dirs && ancestor in dirs && paths[ancestor] <= paths[d]
      requires forall x :: x in dirs && x != ancestor ==> f.dirs[x] == dirs[x]
      ensures |f.paths[ancestor]| <= |f.paths[d]|
      decreases |paths[d]|
    {
      if d != ancestor {
        if d == root {
          PathsInjective(d, ancestor);
        } else {
          ParentInside(d, ancestor);
          assert f.DirLinked(d);
          AncestorShorter(f, dirs[d].parent.value, ancestor);
        }
      }
    }

    lemma DropCellSane(id: CellId)
      requires Sane() && id in cells
      ensures DropCell(id).Sane()
    {
      var f := DropCell(id);
      assert CellLinked(id);
      forall d | d in f.dirs && d != root ensures f.DirLinked(d) { assert DirLinked(d); }
      forall c | c in f.cells ensures f.CellLinked(c) { assert CellLinked(c); }
      forall t | t in f.children ensures f.ChildLinked(t) { assert ChildLinked(t); }
    }

    lemma DropDirSane(id: DirId)
      requires Sane() && id in dirs && id != root && !HasChildren(id)
      ensures DirLinked(id) && DropDir(id).Sane()
    {
      assert DirLinked(id);
      var f := DropDir(id);
      forall d | d in f.dirs && d != root ensures f.DirLinked(d) {
        assert DirLinked(d);
        assert DirSlot(d).parent != id;
      }
      forall c | c in f.cells ensures f.CellLinked(c) {
        assert CellLinked(c);
        assert CellSlot(c).parent != id;
      }
      forall t | t in f.children ensures f.ChildLinked(t) { assert ChildLinked(t); }
    }
  }

  class Namespace {
    const root: DirId
    var dirs: map<DirId, DirRecord>
    var cells: map<CellId, CellRecord>
    var children: map<Slot, NamespaceEntry>
    var reservations: set<Slot>
    var counters: map<(DirId, GeneratedKind), nat>
    var tick: nat
    var writerEpoch: nat
    var writerActive: bool
    ghost var paths: map<DirId, Path>

    ghost function View(): Forest
      reads this
    {
      Forest(root, dirs, cells, children, paths)
    }

    ghost predicate Valid()
      reads this
    {
      View().Sane()
    }

    constructor (root: DirId)
      ensures Valid()
      ensures View() == Forest(root, map[root := DirRecord(None, "", map[])], map[], map[], map[root := []])
      ensures reservations == {} && counters == map[] && !writerActive
    {
      this.root := root;
      dirs := map[root := DirRecord(None, "", map[])];
      cells, children, reservations, counters := map[], map[], {}, map[];
      tick, writerEpoch, writerActive := 0, 0, false;
      paths := map[root := []];
    }

    /** The walk of is_descendant: it reaches the ancestor exactly when the
        ancestor's path is a prefix. */
    method IsDescendant(candidate: DirId, ancestor: DirId) returns (r: bool)
      requires Valid() && candidate in dirs
      ensures r <==> ancestor in dirs && paths[ancestor] <= paths[candidate]
    {
      var cursor := candidate;
      while cursor != ancestor
        invariant cursor in dirs
        invariant ancestor in dirs ==> (paths[ancestor] <= paths[candidate] <==> paths[ancestor] <= paths[cursor])
        decreases |paths[cursor]|
      {
        if cursor == root {
          if ancestor in dirs && paths[ancestor] <= [] {
            View().PathsInjective(ancestor, root);
          }
          return false;
        }
        assert View().DirLinked(cursor);
        if ancestor in dirs {
          View().ParentInside(cursor, ancestor);
        }
        cursor := dirs[cursor].parent.value;
      }
      return true;
    }

    /** The upward walk of effective_dir_policy. */
    method Lineage(id: DirId) returns (lineage: seq<DirId>)
      requires Valid() && id in dirs
      ensures lineage != [] && lineage[0] == id && lineage[|lineage| - 1] == root
      ensures forall i :: 0 <= i < |lineage| ==> lineage[i] in dirs
      ensures forall i :: 0 <= i < |lineage| - 1 ==> lineage[i] != root && dirs[lineage[i]].parent == Some(lineage[i + 1])
    {
      View().Basics();
      hide Forest.Sane;
      var last := id;
      lineage := [id];
      while dirs[last].parent.Some?
        invariant lineage != [] && lineage[0] == id && lineage[|lineage| - 1] == last
        invariant forall i :: 0 <= i < |lineage| ==> lineage[i] in dirs
        invariant forall i :: 0 <= i < |lineage| - 1 ==> lineage[i] != root && dirs[lineage[i]].parent == Some(lineage[i + 1])
        decreases |paths[last]|
      {
        assert View().DirLinked(last);
        last := dirs[last].parent.value;
        lineage := lineage + [last];
      }
      assert last != root ==> View().DirLinked(last);
    }

    /** effective_dir_policy: collect the lineage upwards, apply it downwards. */
    method EffectiveDirPolicy(id: DirId) returns (r: Result<Patch, NamespaceError>)
      requires Valid()
      ensures r == if id in dirs then Ok(View().Inherited(id)) else Err(MissingDirRecord(id))
    {
      if id !in dirs {
        return Err(MissingDirRecord(id));
      }
      var lineage := Lineage(id);
      var i := |lineage| - 1;
      var effective := dirs[lineage[i]].patch;
      while i > 0
        invariant 0 <= i < |lineage|
        invariant effective == View().Inherited(lineage[i])
      {
        i := i - 1;
        assert View().DirLinked(lineage[i]) && dirs[lineage[i]].parent.value == lineage[i + 1];
        effective := effective + dirs[lineage[i]].patch;
      }
      return Ok(effective);
    }

    // ---- The writer lane ----

    method AcquireWriter() returns (r: Result<WriterLane, NamespaceError>)
      modifies this`writerActive, this`writerEpoch
      ensures old(writerActive) ==> r == Err(WriterAlreadyActive) && writerActive && writerEpoch == old(writerEpoch)
      ensures !old(writerActive) ==> r == Ok(WriterLane(writerEpoch)) && writerActive && writerEpoch == old(writerEpoch) + 1
    {
      if writerActive {
        return Err(WriterAlreadyActive);
      }
      writerActive := true;
      writerEpoch := writerEpoch + 1;
      return Ok(WriterLane(writerEpoch));
    }

    predicate Holds(lane: WriterLane)
      reads this`writerActive, this`writerEpoch
    {
      writerActive && lane.epoch == writerEpoch
    }

    method ReleaseWriter(lane: WriterLane) returns (r: Result<(), NamespaceError>)
      modifies this`writerActive
      ensures r == if old(Holds(lane)) then Ok(()) else Err(InvalidWriterLane)
      ensures writerActive == if r.Ok? then false else old(writerActive)
    {
      if !Holds(lane) {
        return Err(InvalidWriterLane);
      }
      writerActive := false;
      return Ok(());
    }

    // ---- Names ----

    predicate Available(s: Slot)
      reads this`children, this`reservations
    {
      s !in children && s !in reservations
    }

    method ReserveName(lane: WriterLane, parent: DirId, name: string) returns (r: Result<string, NamespaceError>)
      modifies this`reservations
      ensures r == if !Holds(lane) then Err(InvalidWriterLane)
                   else if parent !in dirs then Err(MissingDir(parent))
                   else if !old(Available(Slot(parent, name))) then Err(NameCollision(Slot(parent, name)))
                   else Ok(name)
      ensures reservations == if r.Ok? then old(reservations) + {Slot(parent, name)} else old(reservations)
    {
      if !Holds(lane) {
        return Err(InvalidWriterLane);
      }
      if parent !in dirs {
        return Err(MissingDir(parent));
      }
      if !Available(Slot(parent, name)) {
        return Err(NameCollision(Slot(parent, name)));
      }
      reservations := reservations + {Slot(parent, name)};
      return Ok(name);
    }

    /** The counter advances even when the generated name is taken. */
    method ReserveGeneratedName(lane: WriterLane, parent: DirId, kind: GeneratedKind) returns (r: Result<string, NamespaceError>)
      modifies this`reservations, this`counters
      ensures !Holds(lane) ==> r == Err(InvalidWriterLane) && reservations == old(reservations) && counters == old(counters)
      ensures Holds(lane) && parent !in dirs ==> r == Err(MissingDir(parent)) && reservations == old(reservations) && counters == old(counters)
      ensures Holds(lane) && parent in dirs ==>
                var n := (if (parent, kind) in old(counters) then old(counters)[(parent, kind)] else 0) + 1;
                var s := Slot(parent, GeneratedName(kind, n));
                && counters == old(counters)[(parent, kind) := n]
                && r == (if old(Available(s)) then Ok(s.name) else Err(CounterCorruption(s)))
                && reservations == if r.Ok? then old(reservations) + {s} else old(reservations)
    {
      if !Holds(lane) {
        return Err(InvalidWriterLane);
      }
      if parent !in dirs {
        return Err(MissingDir(parent));
      }
      var n := (if (parent, kind) in counters then counters[(parent, kind)] else 0) + 1;
      counters := counters[(parent, kind) := n];
      var s := Slot(parent, GeneratedName(kind, n));
      if !Available(s) {
        return Err(CounterCorruption(s));
      }
      reservations := reservations + {s};
      return Ok(s.name);
    }

    // ---- Creation ----

    /** What consuming a reservation answers. */
    function Consumed(lane: WriterLane, s: Slot): Result<(), NamespaceError>
      reads this
    {
      if !Holds(lane) then Err(InvalidWriterLane)
      else if s !in reservations then Err(MissingReservation(s))
      else if s in children then Err(NameCollision(s)) else Ok(())
    }

    /** create_cell consumes a reservation; it does not look at the parent or at
        whether the id is new, and the forest survives exactly if those are right. */
    method CreateCell(lane: WriterLane, id: CellId, parent: DirId, name: string) returns (r: Result<(), NamespaceError>)
      requires Valid()
      modifies this`reservations, this`children, this`cells, this`tick
      ensures r == old(Consumed(lane, Slot(parent, name)))
      ensures reservations == if Holds(lane) then old(reservations) - {Slot(parent, name)} else old(reservations)
      ensures View() == if r.Ok? then old(View()).AddCell(id, Slot(parent, name)) else old(View())
      ensures Valid() <==> (r.Ok? ==> parent in dirs && id !in old(cells))
    {
      if !Holds(lane) {
        return Err(InvalidWriterLane);
      }
      var s := Slot(parent, name);
      if s !in reservations {
        return Err(MissingReservation(s));
      }
      reservations := reservations - {s};
      if !Available(s) {
        return Err(NameCollision(s));
      }
      View().AddCellSane(id, s);
      tick := tick + 1;
      children := children[s := Cell(id)];
      cells := cells[id := CellRecord(parent, name, map[])];
      return Ok(());
    }

    method CreateDir(lane: WriterLane, id: DirId, parent: DirId, name: string, patch: Patch) returns (r: Result<(), NamespaceError>)
      requires Valid()
      modifies this`reservations, this`children, this`dirs, this`tick, this`paths
      ensures r == old(Consumed(lane, Slot(parent, name)))
      ensures reservations == if Holds(lane) then old(reservations) - {Slot(parent, name)} else old(reservations)
      ensures r.Err? ==> View() == old(View())
      ensures r.Ok? ==> children == old(children)[Slot(parent, name) := Dir(id)] && cells == old(cells)
                        && dirs == old(dirs)[id := DirRecord(Some(parent), name, patch)]
      ensures r.Ok? ==> (View().HasPaths() <==> parent in old(dirs) && id !in old(dirs))
      ensures r.Ok? && parent in old(dirs) && id !in old(dirs) ==>
                Valid() && View() == old(View()).AddDir(id, Slot(parent, name), patch)
    {
      View().Basics();
      hide Forest.Sane, Forest.HasPaths;
      if !Holds(lane) {
        return Err(InvalidWriterLane);
      }
      var s := Slot(parent, name);
      if s !in reservations {
        return Err(MissingReservation(s));
      }
      reservations := reservations - {s};
      if !Available(s) {
        return Err(NameCollision(s));
      }
      tick := tick + 1;
      ghost var before := View();
      children := children[s := Dir(id)];
      dirs := dirs[id := DirRecord(Some(parent), name, patch)];
      before.AddDirSane(id, s, patch);
      if parent in before.dirs && id !in before.dirs {
        paths := before.AddDir(id, s, patch).paths;
      }
      before.PutDir(id, s, patch).PathsLeftOpen(paths);
      assert View() == before.PutDir(id, s, patch).WithPaths(paths);
      return Ok(());
    }

    // ---- Moves ----

    method MoveCell(lane: WriterLane, id: CellId, newParent: DirId, newName: string) returns (r: Result<(), NamespaceError>)
      requires Valid()
      modifies this`children, this`cells, this`tick
      ensures Valid()
      ensures var s := Slot(newParent, newName);
              r == if !Holds(lane) then Err(InvalidWriterLane)
                   else if newParent !in dirs then Err(MissingDir(newParent))
                   else if id !in old(cells) then Err(MissingCell(id))
                   else if old(View()).CellSlot(id) != s && !old(Available(s)) then Err(NameCollision(s))
                   else Ok(())
      ensures View() == if r.Ok? then old(View()).RelinkCell(id, Slot(newParent, newName)) else old(View())
    {
      View().Basics();
      hide Forest.Sane;
      if !Holds(lane) {
        return Err(InvalidWriterLane);
      }
      if newParent !in dirs {
        return Err(MissingDir(newParent));
      }
      if id !in cells {
        return Err(MissingCell(id));
      }
      var from, to := Slot(cells[id].parent, cells[id].name), Slot(newParent, newName);
      if from != to && !Available(to) {
        return Err(NameCollision(to));
      }
      View().RelinkCellSane(id, to);
      children := (children - {from})[to := Cell(id)];
      cells := cells[id := cells[id].(parent := newParent, name := newName)];
      tick := tick + 1;
      return Ok(());
    }

    /** The record and child-map updates of move_dir. */
    method Relink(id: DirId, to: Slot)
      requires Valid() && id in dirs && id != root && to.parent in dirs
      requires !(paths[id] <= paths[to.parent])
      requires View().DirLinked(id) && (to in children ==> to == View().DirSlot(id))
      modifies this`children, this`dirs, this`tick, this`paths
      ensures Valid() && View() == old(View()).RelinkDir(id, to)
    {
      View().RelinkDirSane(id, to);
      hide Forest.Sane, Forest.DirLinked, Rebase;
      ghost var next := View().RelinkDir(id, to);
      children := (children - {Slot(dirs[id].parent.value, dirs[id].name)})[to := Dir(id)];
      dirs := dirs[id := dirs[id].(parent := Some(to.parent), name := to.name)];
      paths := next.paths;
      tick := tick + 1;
    }

    /** move_dir: the whole subtree follows, and no move can close a cycle. */
    method MoveDir(lane: WriterLane, id: DirId, newParent: DirId, newName: string) returns (r: Result<(), NamespaceError>)
      requires Valid()
      modifies this`children, this`dirs, this`tick, this`paths
      ensures Valid()
      ensures var s := Slot(newParent, newName);
              r == if !Holds(lane) then Err(InvalidWriterLane)
                   else if id == root then Err(RootDirCannotMove)
                   else if newParent !in old(dirs) then Err(MissingDir(newParent))
                   else if id in old(dirs) && old(paths)[id] <= old(paths)[newParent] then Err(DirMoveCycle(id, newParent))
                   else if id !in old(dirs) then Err(MissingDirRecord(id))
                   else if old(View()).DirLinked(id) && old(View()).DirSlot(id) != s && !old(Available(s)) then Err(NameCollision(s))
                   else Ok(())
      ensures r.Err? ==> View() == old(View())
      ensures r.Ok? ==> old(View()).DirLinked(id) && View() == old(View()).RelinkDir(id, Slot(newParent, newName))
    {
      View().Basics();
      hide Forest.Sane;
      if !Holds(lane) {
        return Err(InvalidWriterLane);
      }
      if id == root {
        return Err(RootDirCannotMove);
      }
      if newParent !in dirs {
        return Err(MissingDir(newParent));
      }
      var below := IsDescendant(newParent, id);
      if below {
        return Err(DirMoveCycle(id, newParent));
      }
      if id !in dirs {
        return Err(MissingDirRecord(id));
      }
      assert View().DirLinked(id);
      var from, to := Slot(dirs[id].parent.value, dirs[id].name), Slot(newParent, newName);
      if from != to && !Available(to) {
        return Err(NameCollision(to));
      }
      Relink(id, to);
      return Ok(());
    }

    // ---- Deletion ----

    method DeleteCell(lane: WriterLane, id: CellId) returns (r: Result<CellRecord, NamespaceError>)
      requires Valid()
      modifies this`children, this`cells, this`tick
      ensures Valid()
      ensures r == if !Holds(lane) then Err(InvalidWriterLane)
                   else if id !in old(cells) then Err(MissingCell(id)) else Ok(old(cells)[id])
      ensures View() == if r.Ok? then old(View()).DropCell(id) else old(View())
    {
      View().Basics();
      hide Forest.Sane;
      if !Holds(lane) {
        return Err(InvalidWriterLane);
      }
      if id !in cells {
        return Err(MissingCell(id));
      }
      View().DropCellSane(id);
      var record := cells[id];
      cells := cells - {id};
      children := children - {Slot(record.parent, record.name)};
      tick := tick + 1;
      return Ok(record);
    }

    method DeleteDir(lane: WriterLane, id: DirId) returns (r: Result<DirRecord, NamespaceError>)
      requires Valid()
      modifies this`children, this`dirs, this`tick, this`paths
      ensures Valid()
      ensures r == if !Holds(lane) then Err(InvalidWriterLane)
                   else if id == root then Err(RootDirCannotMove)
                   else if old(View()).HasChildren(id) then Err(DirNotEmpty(id))
                   else if id !in old(dirs) then Err(MissingDirRecord(id)) else Ok(old(dirs)[id])
      ensures r.Err? ==> View() == old(View())
      ensures r.Ok? ==> old(View()).DirLinked(id) && View() == old(View()).DropDir(id)
    {
      View().Basics();
      hide Forest.Sane;
      if !Holds(lane) {
        return Err(InvalidWriterLane);
      }
      if id == root {
        return Err(RootDirCannotMove);
      }
      if exists s | s in children :: s.parent == id {
        return Err(DirNotEmpty(id));
      }
      if id !in dirs {
        return Err(MissingDirRecord(id));
      }
      View().DropDirSane(id);
      var record := dirs[id];
      dirs := dirs - {id};
      paths := paths - {id};
      children := children - {Slot(record.parent.value, record.name)};
      tick := tick + 1;
      return Ok(record);
    }
  }
}
