/** One cell's evaluation. */
module Evaluation {
  // Which keys an evaluation observes, which cells it reads, and what it makes of
  // their answers.  It is written so that it can be resumed: given the answers to
  // the reads made so far it either asks for one more cell or is done.  The frame
  // records every key observed on the way, in order.

  import opened Syntax
  import opened Texts
  import opened Paths
  import opened Policy

  /** A result: plain data with a canonical form, or an object without one. */
  datatype Value = Data(expr: Expr) | Opaque(object: nat)

  datatype Failure =
    | Evaluation(message: string)
    | Cycle(trail: seq<Path>)
    | ExpressionDepth(limit: nat)
    | Blocked(path: Path, reason: string)
    | RequiredCapability(path: Path, capability: Capability)

  datatype Outcome = Success(value: Value) | Failed(failure: Failure)

  /** The parts of the host that the calculator calls and cannot see into:
      the fresh context's bindings, macro expansion, evaluation of a prepared
      form, and resolution of a textual reference against a directory. */
  datatype Kernel = Kernel(
    base: map<Symbol, Value>,
    expand: (Expr, set<Capability>) -> Result<Expr, string>,
    eval: (Expr, map<Symbol, Value>, set<Capability>) -> Result<Value, string>,
    resolve: (Path, string) -> Result<Path, string>)

  /** Everything an evaluation may depend on besides the kernel. */
  datatype Inputs = Inputs(
    cells: map<Path, Expr>,
    boundNames: set<string>,
    boundValues: map<Symbol, Value>,
    treeCalc: CalcPatch,
    dirCalc: map<Path, CalcPatch>,
    cellCalc: map<Path, CalcPatch>,
    ceiling: set<Capability>,
    treeAuthority: AuthorityPatch,
    dirAuthority: map<Path, AuthorityPatch>,
    cellAuthority: map<Path, AuthorityPatch>,
    codecRegistry: nat)
  {
    function CalcPolicyOf(cell: Path): CalcPolicy {
      EffectiveCalc(treeCalc, dirCalc, cellCalc, cell)
    }

    function AuthorityOf(cell: Path): Authority {
      Diminished(ceiling, AuthorityChain(treeAuthority, dirAuthority, cellAuthority, cell))
    }

    /** The calculator's own bindings; a bound value wins over a bound name. */
    function Bindings(): map<Symbol, Value> {
      (map n | n in boundNames :: Symbol(None, n) := Data(Str("bound:" + n))) + boundValues
    }
  }

  datatype Key =
    | Cell(cell: Path)
    | NameSlot(text: string)
    | LookupStep(step: Path)
    | Listing(dir: Path)
    | EffectivePolicy(cell: Path)
    | AuthorityPolicy(cell: Path)
    | CodecRegistry
    | AuthorityCeiling
    | ForceEpoch(cell: Path)

  /** What observing a key reveals of the inputs. */
  datatype Content =
    | SourceOf(source: Option<Expr>)
    | SlotOf(bound: map<Symbol, Value>, present: bool)
    | MembersOf(cells: set<Path>)
    | PolicyOf(policy: CalcPolicy)
    | AuthorityIs(authority: Authority)
    | RegistryAt(revision: nat)
    | CeilingIs(ceiling: set<Capability>)
    | Nothing

  function ContentOf(inp: Inputs, key: Key): Content {
    match key
    case Cell(c) => SourceOf(if c in inp.cells then Some(inp.cells[c]) else None)
    case NameSlot(t) =>
      SlotOf(map s | s in inp.Bindings() && s.Text() == t :: inp.Bindings()[s],
             exists p | p in inp.cells :: Paths.Key(p) == t)
    case LookupStep(_) => Nothing
    case Listing(d) => MembersOf(set p | p in inp.cells && Parent(p) == d)
    case EffectivePolicy(c) => PolicyOf(inp.CalcPolicyOf(c))
    case AuthorityPolicy(c) => AuthorityIs(inp.AuthorityOf(c))
    case CodecRegistry => RegistryAt(inp.codecRegistry)
    case AuthorityCeiling => CeilingIs(inp.ceiling)
    case ForceEpoch(_) => Nothing
  }

  /** One dependency read together with the answer it got. */
  datatype Read = Read(path: Path, outcome: Outcome)

  datatype Frame = Frame(deps: map<Symbol, Value>, index: nat, used: nat, keys: seq<Key>) {
    function See(more: seq<Key>): Frame {
      this.(keys := keys + more)
    }
  }

  datatype Step<+T> =
    | Go(value: T, frame: Frame)
    | Abort(failure: Failure, frame: Frame)
    | Wait(target: Path, frame: Frame)

  datatype Progress =
    | Done(outcome: Outcome, frame: Frame)
    | Need(target: Path, frame: Frame)

  const EXPR_TREE_REF := "expr-tree/ref"
  const MAX_EXPR_DEPTH := 128

  predicate IsBound(k: Kernel, inp: Inputs, deps: map<Symbol, Value>, s: Symbol) {
    s in deps || s in inp.Bindings() || s in k.base
  }

  function Binding(k: Kernel, inp: Inputs, deps: map<Symbol, Value>, s: Symbol): Value
    requires IsBound(k, inp, deps, s)
  {
    if s in deps then deps[s] else if s in inp.Bindings() then inp.Bindings()[s] else k.base[s]
  }

  // ---- Reading a dependency ----

  function Consume(target: Path, fr: Frame, answers: seq<Read>): (r: Step<Outcome>) {
    if fr.used < |answers| && answers[fr.used].path == target
    then Go(answers[fr.used].outcome, fr.(used := fr.used + 1))
    else Wait(target, fr)
  }

  function Missing(what: string): Outcome {
    Success(Data(Str("missing:" + what)))
  }

  function LookupSteps(target: Path): seq<Key> {
    seq(|target| + 1, i requires 0 <= i <= |target| => LookupStep(target[..i]))
  }

  /** resolve_target: an explicit reference names exactly one path. */
  function ResolveTarget(inp: Inputs, target: Path, fr: Frame, answers: seq<Read>): Step<Outcome> {
    var seen := fr.See([Listing(Parent(target))] + LookupSteps(target));
    if target in inp.cells then Consume(target, seen, answers)
    else Go(Missing(Paths.Key(target)), seen.See([NameSlot(Paths.Key(target))]))
  }

  datatype Lookup = Found(target: Path) | Unresolved | IllegalName

  datatype LookupTrace = LookupTrace(result: Lookup, keys: seq<Key>) {
    function After(earlier: seq<Key>): LookupTrace {
      LookupTrace(result, earlier + keys)
    }
  }

  /** Lexical lookup of a bare name: the directory itself, then each ancestor. */
  function LookupFrom(cells: set<Path>, dir: Path, name: string): LookupTrace
    decreases |dir|
  {
    var listed := [Listing(dir)];
    if !LegalSegment(name) then LookupTrace(IllegalName, listed)
    else
      var candidate := dir + [name];
      var stepped := listed + LookupSteps(candidate);
      if candidate in cells then LookupTrace(Found(candidate), stepped)
      else
        var absent := stepped + [NameSlot(Paths.Key(candidate))];
        if dir == [] then LookupTrace(Unresolved, absent)
        else
          LookupFrom(cells, Parent(dir), name).After(absent)
  }

  /** The loop of resolve_bare_symbol, up to the read it ends in. */
  method WalkAncestors(cells: set<Path>, caller: Path, name: string) returns (trace: LookupTrace)
    ensures trace == LookupFrom(cells, Parent(caller), name)
  {
    var dir := Parent(caller);
    var keys := [];
    while true
      invariant LookupFrom(cells, Parent(caller), name) == LookupFrom(cells, dir, name).After(keys)
      decreases |dir|
    {
      ghost var here := LookupFrom(cells, dir, name);
      var step := [Listing(dir)];
      if !LegalSegment(name) {
        return LookupTrace(IllegalName, keys + step);
      }
      var candidate := dir + [name];
      step := step + LookupSteps(candidate);
      if candidate in cells {
        return LookupTrace(Found(candidate), keys + step);
      }
      step := step + [NameSlot(Paths.Key(candidate))];
      if dir == [] {
        return LookupTrace(Unresolved, keys + step);
      }
      dir := Parent(dir);
      assert here == LookupFrom(cells, dir, name).After(step);
      assert keys + (step + LookupFrom(cells, dir, name).keys) == (keys + step) + LookupFrom(cells, dir, name).keys;
      keys := keys + step;
    }
  }

  function ResolveBare(inp: Inputs, caller: Path, s: Symbol, fr: Frame, answers: seq<Read>): Step<Outcome> {
    var trace := LookupFrom(inp.cells.Keys, Parent(caller), s.Text());
    var seen := fr.See(trace.keys);
    match trace.result
    case Found(target) => Consume(target, seen, answers)
    case Unresolved => Go(Missing(s.Text()), seen)
    case IllegalName => Abort(Evaluation("invalid bare cell name " + s.Text()), seen)
  }

  /** bind_dependency: a value becomes a fresh symbol, a failure aborts. */
  function BindDependency(answer: Step<Outcome>): Step<Expr> {
    match answer
    case Wait(t, fr) => Wait(t, fr)
    case Abort(f, fr) => Abort(f, fr)
    case Go(Failed(f), fr) => Abort(f, fr)
    case Go(Success(v), fr) =>
      var name := Symbol(Some("expr-tree-dependency"), "value-" + Digits(fr.index));
      Go(Sym(name), fr.(deps := fr.deps[name := v], index := fr.index + 1))
  }

  // ---- Preparing an expression ----

  function Paired(parts: seq<Expr>): (r: seq<Entry>)
    requires |parts| % 2 == 0
    ensures EntryParts(r) == parts
  {
    if parts == [] then [] else
      var rest := Paired(parts[2..]);
      var r := [Entry(parts[0], parts[1])] + rest;
      assert EntryParts(r) == parts[..2] + EntryParts(rest);
      r
  }

  /** The subexpressions that preparation descends into, left to right. */
  function Walked(e: Expr): (r: seq<Expr>)
    ensures forall i :: 0 <= i < |r| ==> r[i] < e
  {
    match e
    case List(items) => items
    case Vector(items) => items
    case Set(items) => items
    case Block(items) => items
    case Map(entries) =>
      var parts := EntryParts(entries);
      parts
    case Call(operator, args) => [operator] + args
    case Annotated(inner, _) => [inner]
    case _ => []
  }

  predicate IsWalked(e: Expr) {
    e.List? || e.Vector? || e.Set? || e.Block? || e.Map? || e.Call? || e.Annotated?
  }

  function Rebuild(e: Expr, parts: seq<Expr>): (r: Expr)
    requires IsWalked(e) && |parts| == |Walked(e)|
    ensures IsWalked(r) && Walked(r) == parts
  {
    match e
    case List(_) => List(parts)
    case Vector(_) => Vector(parts)
    case Set(_) => Set(parts)
    case Block(_) => Block(parts)
    case Map(_) => Map(Paired(parts))
    case Call(_, _) => Call(parts[0], parts[1..])
    case Annotated(_, annotations) => Annotated(parts[0], annotations)
  }

  predicate IsReference(e: Expr) {
    e.Call? && e.operator.Sym? && e.operator.symbol.Text() == EXPR_TREE_REF
  }

  function ExplicitReference(args: seq<Expr>): Result<string, Failure> {
    if |args| == 1 && args[0].Str? then Ok(args[0].text)
    else if |args| == 1 && args[0].Sym? then Ok(args[0].symbol.Text())
    else Err(Evaluation("expr-tree/ref requires exactly one string or symbol reference"))
  }

  function ResolveReference(k: Kernel, inp: Inputs, caller: Path, args: seq<Expr>, fr: Frame, answers: seq<Read>): Step<Outcome> {
    match ExplicitReference(args)
    case Err(f) => Abort(f, fr)
    case Ok(text) =>
      match k.resolve(Parent(caller), text)
      case Err(m) => Abort(Evaluation(m), fr)
      case Ok(target) => ResolveTarget(inp, target, fr, answers)
  }

  /** prepare_expr. */
  function Prepare(k: Kernel, inp: Inputs, caller: Path, e: Expr, depth: nat, fr: Frame, answers: seq<Read>): (r: Step<Expr>)
    decreases e
  {
    if depth > MAX_EXPR_DEPTH then Abort(ExpressionDepth(MAX_EXPR_DEPTH), fr)
    else if e.Sym? then
      var seen := fr.See([NameSlot(e.symbol.Text())]);
      if IsBound(k, inp, fr.deps, e.symbol) then Go(e, seen)
      else BindDependency(ResolveBare(inp, caller, e.symbol, seen, answers))
    else if IsReference(e) then
      BindDependency(ResolveReference(k, inp, caller, e.args, fr, answers))
    else if IsWalked(e) then
      match PrepareItems(k, inp, caller, e, Walked(e), depth + 1, fr, answers)
      case Go(parts, out) => Go(Rebuild(e, parts), out)
      case Abort(f, out) => Abort(f, out)
      case Wait(t, out) => Wait(t, out)
    else Go(e, fr)
  }

  /** prepare_items. */
  function PrepareItems(k: Kernel, inp: Inputs, caller: Path, ghost context: Expr, items: seq<Expr>, depth: nat, fr: Frame, answers: seq<Read>): (r: Step<seq<Expr>>)
    requires forall i :: 0 <= i < |items| ==> items[i] < context
    ensures r.Go? ==> |r.value| == |items|
    decreases context, |items|
  {
    if items == [] then Go([], fr)
    else
      match Prepare(k, inp, caller, items[0], depth, fr, answers)
      case Abort(f, out) => Abort(f, out)
      case Wait(t, out) => Wait(t, out)
      case Go(first, mid) =>
        match PrepareItems(k, inp, caller, context, items[1..], depth, mid, answers)
        case Go(rest, out) => Go([first] + rest, out)
        case Abort(f, out) => Abort(f, out)
        case Wait(t, out) => Wait(t, out)
  }

  // ---- Evaluating a cell ----

  /** The symbols a prepared form names in the positions preparation visits. */
  function Names(e: Expr): set<Symbol>
    decreases e
  {
    if e.Sym? then {e.symbol}
    else if IsWalked(e) then NamesOf(e, Walked(e))
    else {}
  }

  function NamesOf(ghost context: Expr, items: seq<Expr>): set<Symbol>
    requires forall i :: 0 <= i < |items| ==> items[i] < context
    decreases context, |items|
  {
    if items == [] then {} else Names(items[0]) + NamesOf(context, items[1..])
  }

  /** The bindings the evaluator is shown: those of the given names. */
  function Environment(k: Kernel, inp: Inputs, deps: map<Symbol, Value>, names: set<Symbol>): map<Symbol, Value> {
    map s | s in names && IsBound(k, inp, deps, s) :: Binding(k, inp, deps, s)
  }

  const FROZEN_REASON := "frozen policy forbids new calculation work"
  const ON_DEMAND_REASON := "on-demand cells do not run from automatic mutation"
  const MANUAL_REASON := "manual cells require an explicit directed root"
  const DEPENDENCY_REASON := "manual dependency was not an explicitly directed root"
  const CYCLE_REASON := "dynamic dependency cycle"

  /** blocked_by_trigger. */
  function BlockReason(trigger: Trigger, automatic: bool, directed: bool): Option<string> {
    match trigger
    case Automatic => None
    case OnDemand => if automatic then Some(ON_DEMAND_REASON) else None
    case Manual =>
      if automatic then Some(MANUAL_REASON)
      else if !directed then Some(DEPENDENCY_REASON)
      else None
    case Frozen => Some(FROZEN_REASON)
  }

  /** apply_cycle_policy. */
  function ApplyCyclePolicy(o: Outcome, mode: CycleMode, cell: Path): Outcome {
    if mode == BlockCell && o.Failed? && o.failure.Cycle? then Failed(Blocked(cell, CYCLE_REASON)) else o
  }

  function RuntimeContext(cell: Path): seq<Key> {
    [EffectivePolicy(cell), AuthorityPolicy(cell), CodecRegistry, AuthorityCeiling, ForceEpoch(cell), Cell(cell)]
  }

  /** evaluate_cell on a source that is present. */
  function Evaluate(k: Kernel, inp: Inputs, cell: Path, source: Expr, fr: Frame, answers: seq<Read>): Progress {
    var capabilities := inp.AuthorityOf(cell).capabilities;
    match k.expand(source, capabilities)
    case Err(m) => Done(Failed(Evaluation(m)), fr)
    case Ok(expanded) =>
      match Prepare(k, inp, cell, expanded, 0, fr, answers)
      case Wait(t, out) => Need(t, out)
      case Abort(f, out) => Done(Failed(f), out)
      case Go(prepared, out) =>
        match k.eval(prepared, Environment(k, inp, out.deps, Names(prepared)), capabilities)
        case Err(m) => Done(Failed(Evaluation(m)), out)
        case Ok(v) => Done(Success(v), out)
  }

  /** The query registered for a cell, on the answers to its reads so far. */
  function Body(k: Kernel, inp: Inputs, automatic: bool, directed: bool, cell: Path, answers: seq<Read>): Progress {
    var fr := Frame(map[], 0, 0, RuntimeContext(cell));
    var policy := inp.CalcPolicyOf(cell);
    var blocked := BlockReason(policy.trigger, automatic, directed);
    var missing := FirstMissing(inp.AuthorityOf(cell));
    if blocked.Some? then Done(Failed(Blocked(cell, blocked.value)), fr)
    else if missing.Some? then Done(Failed(RequiredCapability(cell, missing.value)), fr)
    else if cell !in inp.cells then Done(Missing(Paths.Key(cell)), fr)
    else
      match Evaluate(k, inp, cell, inp.cells[cell], fr, answers)
      case Need(t, out) => Need(t, out)
      case Done(o, out) => Done(ApplyCyclePolicy(o, policy.cycleMode, cell), out)
  }
}
