/** Calculation and authority policy: field-by-field inheritance from the tree
    through the ancestor directories to one cell. */
module Policy {
  import opened Syntax
  import opened Paths

  datatype Trigger = Automatic | OnDemand | Manual | Frozen

  datatype ErrorMode = Continue | FailFast

  datatype CycleMode = FailCell | BlockCell

  datatype Limits = Limits(work: nat, observations: nat, depth: nat, output: nat)

  datatype CalcPatch = CalcPatch(
    trigger: Option<Trigger>,
    errorMode: Option<ErrorMode>,
    cycleMode: Option<CycleMode>,
    budget: Option<Limits>,
    priority: Option<int>,
    debounce: Option<nat>)
  {
    function Apply(e: CalcPolicy): CalcPolicy {
      CalcPolicy(
        if trigger.Some? then trigger.value else e.trigger,
        if errorMode.Some? then errorMode.value else e.errorMode,
        if cycleMode.Some? then cycleMode.value else e.cycleMode,
        if budget.Some? then budget.value else e.budget,
        if priority.Some? then priority.value else e.priority,
        if debounce.Some? then debounce.value else e.debounce)
    }
  }

  datatype CalcPolicy = CalcPolicy(
    trigger: Trigger,
    errorMode: ErrorMode,
    cycleMode: CycleMode,
    budget: Limits,
    priority: int,
    debounce: nat)

  const HARD_LIMITS := Limits(1_000_000, 100_000, 64, 1_048_576)

  const DEFAULT_POLICY := CalcPolicy(Automatic, Continue, FailCell, HARD_LIMITS, 0, 0)

  /** Capabilities are named by their rank in the stable name order. */
  type Capability = nat

  datatype AuthorityPatch = AuthorityPatch(
    allow: Option<set<Capability>>,
    deny: set<Capability>,
    required: set<Capability>)

  datatype Authority = Authority(
    capabilities: set<Capability>,
    required: set<Capability>,
    denied: set<Capability>)

  /** The directories whose patches reach a cell: the root, then every strict
      prefix.  The root directory is listed for the root path itself too. */
  function Ancestors(cell: Path): seq<Path> {
    [[]] + seq(if |cell| <= 1 then 0 else |cell| - 1, i requires 0 <= i < |cell| - 1 => cell[..i + 1])
  }

  function ApplyDirectories(e: CalcPolicy, dirs: seq<Path>, patches: map<Path, CalcPatch>): CalcPolicy
    decreases |dirs|
  {
    if dirs == [] then e
    else ApplyDirectories(if dirs[0] in patches then patches[dirs[0]].Apply(e) else e, dirs[1..], patches)
  }

  function EffectiveCalc(tree: CalcPatch, dirs: map<Path, CalcPatch>, cells: map<Path, CalcPatch>, cell: Path): CalcPolicy {
    var e := ApplyDirectories(tree.Apply(DEFAULT_POLICY), Ancestors(cell), dirs);
    if cell in cells then cells[cell].Apply(e) else e
  }

  /** The authority patches that reach a cell, outermost first. */
  function AuthorityChain(
    tree: AuthorityPatch, dirs: map<Path, AuthorityPatch>, cells: map<Path, AuthorityPatch>, cell: Path): seq<AuthorityPatch>
  {
    [tree] + DirectoryChain(Ancestors(cell), dirs) + if cell in cells then [cells[cell]] else []
  }

  function DirectoryChain(dirs: seq<Path>, patches: map<Path, AuthorityPatch>): seq<AuthorityPatch> {
    if dirs == [] then []
    else (if dirs[0] in patches then [patches[dirs[0]]] else []) + DirectoryChain(dirs[1..], patches)
  }

  /** What a chain of patches leaves of the ceiling, said without the order the
      patches are applied in: a capability survives exactly when no level denies
      it and every level with an allow-list lists it. */
  function Diminished(ceiling: set<Capability>, patches: seq<AuthorityPatch>): Authority {
    Authority(
      set c | c in ceiling && (forall p :: p in patches ==> Permits(p, c)),
      set p, c | p in patches && c in p.required :: c,
      set p, c | p in patches && c in p.deny :: c)
  }

  predicate Permits(p: AuthorityPatch, c: Capability) {
    c !in p.deny && (p.allow.Some? ==> c in p.allow.value)
  }

  /** EffectiveAuthority::derive: intersect, accumulate denials, remove them. */
  method Derive(ceiling: set<Capability>, patches: seq<AuthorityPatch>) returns (a: Authority)
    ensures a == Diminished(ceiling, patches)
  {
    var capabilities, required, denied := ceiling, {}, {};
    for i := 0 to |patches|
      invariant Authority(capabilities, required, denied) == Diminished(ceiling, patches[..i])
    {
      var patch := patches[i];
      assert patches[..i + 1] == patches[..i] + [patch];
      ghost var before := capabilities;
      if patch.allow.Some? {
        capabilities := capabilities * patch.allow.value;
      }
      denied := denied + patch.deny;
      required := required + patch.required;
      capabilities := set c | c in capabilities && c !in denied;
      assert forall c :: c in capabilities <==> c in before && Permits(patch, c);
      assert capabilities == Diminished(ceiling, patches[..i + 1]).capabilities;
      assert denied == Diminished(ceiling, patches[..i + 1]).denied;
      assert required == Diminished(ceiling, patches[..i + 1]).required;
    }
    assert patches[..|patches|] == patches;
    a := Authority(capabilities, required, denied);
  }

  predicate IsLeast(c: Capability, s: set<Capability>) {
    c in s && forall d :: d in s ==> c <= d
  }

  lemma {:induction false} LeastExists(s: set<Capability>)
    requires s != {}
    ensures exists c :: IsLeast(c, s)
    decreases s
  {
    var x :| x in s;
    if s == {x} {
      assert IsLeast(x, s);
    } else {
      LeastExists(s - {x});
      var y :| IsLeast(y, s - {x});
      var z := if x <= y then x else y;
      forall d | d in s ensures z <= d { assert d == x || d in s - {x}; }
      assert IsLeast(z, s);
    }
  }

  /** The first requirement, in name order, that the authority does not hold. */
  function FirstMissing(a: Authority): Option<Capability> {
    var missing := a.required - a.capabilities;
    if missing == {} then None
    else
      LeastExists(missing);
      assert exists c :: IsLeast(c, missing);
      var c :| c in missing && IsLeast(c, missing);
      Some(c)
  }

  /** Nothing is missing exactly if all that is required is held. */
  lemma FirstMissingIs(a: Authority)
    ensures FirstMissing(a).None? <==> a.required <= a.capabilities
    ensures FirstMissing(a).Some? ==> IsLeast(FirstMissing(a).value, a.required - a.capabilities)
  {
    assert a.required <= a.capabilities <==> a.required - a.capabilities == {} by {
      assert forall c :: c in a.required && c !in a.capabilities ==> c in a.required - a.capabilities;
    }
  }

  /** A patch set on a directory can only reach the cells at or below it. */
  lemma {:induction false} DirectoryReach(e: CalcPolicy, ancestors: seq<Path>, patches: map<Path, CalcPatch>, dir: Path, patch: CalcPatch)
    requires dir !in ancestors
    ensures ApplyDirectories(e, ancestors, patches[dir := patch]) == ApplyDirectories(e, ancestors, patches)
    decreases |ancestors|
  {
    if ancestors != [] {
      var e' := if ancestors[0] in patches then patches[ancestors[0]].Apply(e) else e;
      DirectoryReach(e', ancestors[1..], patches, dir, patch);
    }
  }

  lemma {:induction false} AuthorityReach(ancestors: seq<Path>, patches: map<Path, AuthorityPatch>, dir: Path, patch: AuthorityPatch)
    requires dir !in ancestors
    ensures DirectoryChain(ancestors, patches[dir := patch]) == DirectoryChain(ancestors, patches)
    decreases |ancestors|
  {
    if ancestors != [] {
      AuthorityReach(ancestors[1..], patches, dir, patch);
    }
  }

  lemma AncestorsArePrefixes(cell: Path, dir: Path)
    ensures dir in Ancestors(cell) <==> dir == [] || (dir <= cell && dir != cell)
  {
    var inner := seq(if |cell| <= 1 then 0 else |cell| - 1, i requires 0 <= i < |cell| - 1 => cell[..i + 1]);
    if dir != [] && dir <= cell && dir != cell {
      assert inner[|dir| - 1] == dir;
    }
  }
}
