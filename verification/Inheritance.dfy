/** What policies come to. */
module Inheritance {
  // The effective policy of a cell field by field, and its authority capability by
  // capability, said without the order in which the patches are applied.

  import opened Syntax
  import opened Paths
  import opened Policy
  import opened Evaluation

  /** The first n segments of the cell name a directory above it; the root directory is
      above the root path too. */
  predicate Above(cell: Path, n: nat) {
    n < |cell| || n == 0
  }

  ghost predicate SetBy<T>(field: CalcPatch -> Option<T>, dirs: map<Path, CalcPatch>, cell: Path, n: nat) {
    Above(cell, n) && n <= |cell| && cell[..n] in dirs && field(dirs[cell[..n]]).Some?
  }

  /** The n-th directory above the cell is the innermost one whose patch sets the field. */
  ghost predicate SetInnermost<T>(field: CalcPatch -> Option<T>, dirs: map<Path, CalcPatch>, cell: Path, n: nat) {
    SetBy(field, dirs, cell, n) && forall m: nat :: SetBy(field, dirs, cell, m) ==> m <= n
  }

  /** The value of one field: the innermost patch that sets it decides, from the cell's
      own outwards through the directories to the tree's, and then the default. */
  ghost predicate Inherits<T>(field: CalcPatch -> Option<T>, inp: Inputs, cell: Path, default: T, v: T) {
    if cell in inp.cellCalc && field(inp.cellCalc[cell]).Some? then v == field(inp.cellCalc[cell]).value
    else if exists n: nat :: SetBy(field, inp.dirCalc, cell, n)
    then exists n: nat :: SetInnermost(field, inp.dirCalc, cell, n) && v == field(inp.dirCalc[cell[..n]]).value
    else if field(inp.treeCalc).Some? then v == field(inp.treeCalc).value
    else v == default
  }

  /** A field of the policy that patches set or leave alone. */
  ghost predicate Patches<T>(field: CalcPatch -> Option<T>, get: CalcPolicy -> T) {
    forall p: CalcPatch, e: CalcPolicy {:trigger p.Apply(e)} :: get(p.Apply(e)) == if field(p).Some? then field(p).value else get(e)
  }

  lemma {:induction false} ApplyLast(e: CalcPolicy, dirs: seq<Path>, d: Path, patches: map<Path, CalcPatch>)
    ensures var before := ApplyDirectories(e, dirs, patches);
            ApplyDirectories(e, dirs + [d], patches) == if d in patches then patches[d].Apply(before) else before
    decreases |dirs|
  {
    if dirs == [] {
      assert [d][1..] == [];
    } else {
      assert (dirs + [d])[0] == dirs[0] && (dirs + [d])[1..] == dirs[1..] + [d];
      ApplyLast(if dirs[0] in patches then patches[dirs[0]].Apply(e) else e, dirs[1..], d, patches);
    }
  }

  /** The keys of the first directories above a cell, outermost first. */
  ghost function Outer(cell: Path, n: nat): seq<Path>
    requires n <= |cell| || n == 1
  {
    seq(n, i requires 0 <= i < n => cell[..i])
  }

  lemma AncestorsAreOuter(cell: Path)
    ensures Ancestors(cell) == Outer(cell, if cell == [] then 1 else |cell|)
  {
  }

  /** Of the first n directories the innermost that sets the field decides. */
  lemma {:induction false} DirectoriesInherit<T>(field: CalcPatch -> Option<T>, get: CalcPolicy -> T, e: CalcPolicy,
                                                  dirs: map<Path, CalcPatch>, cell: Path, n: nat)
    requires Patches(field, get) && (n <= |cell| || n == 1)
    ensures var v := get(ApplyDirectories(e, Outer(cell, n), dirs));
            if exists m: nat :: m < n && SetBy(field, dirs, cell, m)
            then exists m: nat :: m < n && SetBy(field, dirs, cell, m) && v == field(dirs[cell[..m]]).value
                                  && forall l: nat :: l < n && SetBy(field, dirs, cell, l) ==> l <= m
            else v == get(e)
  {
    if n == 0 {
      assert Outer(cell, 0) == [];
    } else {
      var last := cell[..n - 1];
      assert Outer(cell, n) == Outer(cell, n - 1) + [last];
      ApplyLast(e, Outer(cell, n - 1), last, dirs);
      DirectoriesInherit(field, get, e, dirs, cell, n - 1);
      if SetBy(field, dirs, cell, n - 1) {
        assert n - 1 < n;
      }
    }
  }

  lemma FieldInherits<T>(field: CalcPatch -> Option<T>, get: CalcPolicy -> T, inp: Inputs, cell: Path)
    requires Patches(field, get)
    ensures Inherits(field, inp, cell, get(DEFAULT_POLICY), get(inp.CalcPolicyOf(cell)))
  {
    AncestorsAreOuter(cell);
    var e, n := inp.treeCalc.Apply(DEFAULT_POLICY), if cell == [] then 1 else |cell|;
    DirectoriesInherit(field, get, e, inp.dirCalc, cell, n);
    assert forall m: nat :: SetBy(field, inp.dirCalc, cell, m) ==> m < n;
    var v := get(ApplyDirectories(e, Outer(cell, n), inp.dirCalc));
    if exists m: nat :: SetBy(field, inp.dirCalc, cell, m) {
      var m: nat :| m < n && SetBy(field, inp.dirCalc, cell, m) && v == field(inp.dirCalc[cell[..m]]).value
                    && forall l: nat :: l < n && SetBy(field, inp.dirCalc, cell, l) ==> l <= m;
      assert SetInnermost(field, inp.dirCalc, cell, m);
    }
  }

  /** Every field of the effective policy is set by the innermost patch that sets it. */
  lemma PolicyInherits(inp: Inputs, cell: Path)
    ensures var e := inp.CalcPolicyOf(cell);
            && Inherits((p: CalcPatch) => p.trigger, inp, cell, Automatic, e.trigger)
            && Inherits((p: CalcPatch) => p.errorMode, inp, cell, Continue, e.errorMode)
            && Inherits((p: CalcPatch) => p.cycleMode, inp, cell, FailCell, e.cycleMode)
            && Inherits((p: CalcPatch) => p.budget, inp, cell, Limits(1_000_000, 100_000, 64, 1_048_576), e.budget)
            && Inherits((p: CalcPatch) => p.priority, inp, cell, 0, e.priority)
            && Inherits((p: CalcPatch) => p.debounce, inp, cell, 0, e.debounce)
  {
    hide Inherits;
    FieldInherits((p: CalcPatch) => p.trigger, (e: CalcPolicy) => e.trigger, inp, cell);
    FieldInherits((p: CalcPatch) => p.errorMode, (e: CalcPolicy) => e.errorMode, inp, cell);
    FieldInherits((p: CalcPatch) => p.cycleMode, (e: CalcPolicy) => e.cycleMode, inp, cell);
    FieldInherits((p: CalcPatch) => p.budget, (e: CalcPolicy) => e.budget, inp, cell);
    FieldInherits((p: CalcPatch) => p.priority, (e: CalcPolicy) => e.priority, inp, cell);
    FieldInherits((p: CalcPatch) => p.debounce, (e: CalcPolicy) => e.debounce, inp, cell);
  }

  // ---- Authority ----

  /** A directory above the cell. */
  predicate IsAbove(dir: Path, cell: Path) {
    dir == [] || (dir <= cell && dir != cell)
  }

  predicate Lets(p: AuthorityPatch, c: Capability) {
    c !in p.deny && (p.allow.None? || c in p.allow.value)
  }

  lemma {:induction false} ChainHas(dirs: seq<Path>, patches: map<Path, AuthorityPatch>, p: AuthorityPatch)
    ensures p in DirectoryChain(dirs, patches) <==> exists i :: 0 <= i < |dirs| && dirs[i] in patches && patches[dirs[i]] == p
    decreases |dirs|
  {
    if dirs != [] {
      ChainHas(dirs[1..], patches, p);
      if i :| 0 <= i < |dirs[1..]| && dirs[1..][i] in patches && patches[dirs[1..][i]] == p {
        assert dirs[i + 1] in patches && patches[dirs[i + 1]] == p;
      }
      if i :| 0 <= i < |dirs| && dirs[i] in patches && patches[dirs[i]] == p {
        if i > 0 {
          assert dirs[1..][i - 1] in patches;
        }
      }
    }
  }

  /** The patches that reach a cell: the tree's, those of the directories above it, and
      its own. */
  ghost predicate Reaches(inp: Inputs, cell: Path, p: AuthorityPatch) {
    || p == inp.treeAuthority
    || (exists d :: d in inp.dirAuthority && IsAbove(d, cell) && inp.dirAuthority[d] == p)
    || (cell in inp.cellAuthority && inp.cellAuthority[cell] == p)
  }

  lemma ChainReaches(inp: Inputs, cell: Path, p: AuthorityPatch)
    ensures p in AuthorityChain(inp.treeAuthority, inp.dirAuthority, inp.cellAuthority, cell) <==> Reaches(inp, cell, p)
  {
    var dirs, patches := Ancestors(cell), inp.dirAuthority;
    ChainHas(dirs, patches, p);
    hide Ancestors, DirectoryChain;
    if i :| 0 <= i < |dirs| && dirs[i] in patches && patches[dirs[i]] == p {
      AncestorsArePrefixes(cell, dirs[i]);
    }
    if d :| d in patches && IsAbove(d, cell) && patches[d] == p {
      AncestorsArePrefixes(cell, d);
      var i :| 0 <= i < |dirs| && dirs[i] == d;
    }
  }

  /** A capability is held exactly if it is in the ceiling and let through by the tree,
      by every directory above the cell and by the cell; it is required, or counted as
      denied, exactly if one of these says so. */
  lemma AuthorityInherits(inp: Inputs, cell: Path, c: Capability)
    ensures var a := inp.AuthorityOf(cell);
            && (c in a.capabilities <==>
                  && c in inp.ceiling && Lets(inp.treeAuthority, c)
                  && (forall d :: d in inp.dirAuthority && IsAbove(d, cell) ==> Lets(inp.dirAuthority[d], c))
                  && (cell in inp.cellAuthority ==> Lets(inp.cellAuthority[cell], c)))
            && (c in a.required <==>
                  || c in inp.treeAuthority.required
                  || (exists d :: d in inp.dirAuthority && IsAbove(d, cell) && c in inp.dirAuthority[d].required)
                  || (cell in inp.cellAuthority && c in inp.cellAuthority[cell].required))
            && (c in a.denied <==>
                  || c in inp.treeAuthority.deny
                  || (exists d :: d in inp.dirAuthority && IsAbove(d, cell) && c in inp.dirAuthority[d].deny)
                  || (cell in inp.cellAuthority && c in inp.cellAuthority[cell].deny))
  {
    var chain := AuthorityChain(inp.treeAuthority, inp.dirAuthority, inp.cellAuthority, cell);
    forall p ensures p in chain <==> Reaches(inp, cell, p) {
      ChainReaches(inp, cell, p);
    }
    hide AuthorityChain;
    assert forall p :: Permits(p, c) <==> Lets(p, c);
  }
}
