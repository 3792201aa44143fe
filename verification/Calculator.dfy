/** The incremental calculator. */
module Calculator {
  // Sources, bindings and policies that change in place, and requests that verify
  // cells against them.  The class invariant is that every memo is trustworthy, so
  // what a request ensures holds on every run.

  import opened Syntax
  import opened Paths
  import opened Policy
  import opened Evaluation
  import opened Engine
  import opened EngineComplete
  import opened EngineProgress
  import opened Freshness
  import opened Ledger
  import opened Forcing

  datatype RequestMode = Verification | ForceRoots | ForceRecursive

  datatype CalcResult = Calculated(value: Value) | CellError(failure: Failure) | Interrupted | UnknownQuery

  function Report(o: Outcome): CalcResult {
    match o
    case Success(v) => Calculated(v)
    case Failed(f) => CellError(f)
  }

  /** The result is this outcome: its value, or its failure. */
  predicate Tells(r: CalcResult, o: Outcome) {
    (r.Calculated? && o == Success(r.value)) || (r.CellError? && o == Failed(r.failure))
  }

  predicate IsFailure(r: CalcResult) {
    !r.Calculated?
  }

  /** The result is final and does not hang on the request that asked for it. */
  predicate Definite(r: CalcResult) {
    r.Calculated? || (r.CellError? && !Contextual(Failed(r.failure)))
  }

  /** What a result says about the inputs: a definite one is derived from scratch;
      where nothing the cell reads is blocked, its derivation leaves no other, and
      with the depth and work that takes it is given. */
  ghost predicate Faithful(k: Kernel, inp: Inputs, request: Request, depth: nat, work: nat, cell: Path, r: CalcResult) {
    && (Definite(r) && cell in inp.cells ==>
         exists d :: Justified(k, inp, d) && d.cell == cell && Tells(r, d.outcome))
    && (forall d :: Justified(k, inp, d) && d.cell == cell && OpenIn(Run(k, inp, map[], request, depth), d) ==>
         && (r.Interrupted? || Tells(r, d.outcome))
         && (Height(d) <= depth && Cost(d) <= work ==> Tells(r, d.outcome)))
  }

  lemma VerifyAnswers(w: Run, g: Graph, cell: Path, work: nat)
    requires AtRest(w.kernel, w.inputs, w.revisions, g)
    ensures var t := Verify(w, g, cell, [], work);
            && Tidy(w, t.graph)
            && Faithful(w.kernel, w.inputs, w.request, w.depthLimit, work, cell,
                       if t.answer.Some? then Report(t.answer.value.outcome) else Interrupted)
  {
    var t := Verify(w, g, cell, [], work);
    var r := if t.answer.Some? then Report(t.answer.value.outcome) else Interrupted;
    var d := RestedVerify(w, g, cell, work);
    hide AtRest, Verify, Body;
    if Definite(r) && cell in w.inputs.cells {
      assert Justified(w.kernel, w.inputs, d) && d.cell == cell && Tells(r, d.outcome);
    }
    var anyRevisions := Run(w.kernel, w.inputs, map[], w.request, w.depthLimit);
    forall e | Justified(w.kernel, w.inputs, e) && e.cell == cell && OpenIn(anyRevisions, e)
      ensures r.Interrupted? || Tells(r, e.outcome)
      ensures Height(e) <= w.depthLimit && Cost(e) <= work ==> Tells(r, e.outcome)
    {
      OpenAtAnyRevision(anyRevisions, w, e);
      RestedVerifyComplete(w, g, cell, work, e);
      if Height(e) <= w.depthLimit && Cost(e) <= work {
        EnoughBudgetAnswers(w, g, cell, work, e);
      }
    }
  }

  /** What the calculator shows of its cells without calculating. */
  datatype Shown = Shown(current: map<Path, CalcResult>, lastGood: map<Path, Value>, volatile: set<Path>) {
    function Without(cells: set<Path>): Shown {
      Shown(current - cells, lastGood, volatile - cells)
    }

    lemma StillSettled(failed: set<Path>, cells: set<Path>)
      requires Settled(failed)
      ensures Without(cells).Settled(failed)
    {
    }

    /** A cell shown as current is a failed one exactly if it shows a failure, a
        value shown is the last good one, and exactly the opaque ones are volatile. */
    ghost predicate Settled(failed: set<Path>) {
      && (forall c :: c in current ==> (c in failed <==> IsFailure(current[c])))
      && (forall c :: c in current && current[c].Calculated? ==> c in lastGood && lastGood[c] == current[c].value)
      && (forall c :: c in volatile <==> c in current && current[c].Calculated? && current[c].value.Opaque?)
    }
  }

  class ExprTreeCalc {
    const kernel: Kernel
    var state: Inputs
    var revisions: map<Key, nat>
    var graph: Graph
    var registered: set<Path>
    var failed: set<Path>
    var shown: Shown
    var receipts: map<Path, Outcome>

    ghost predicate Valid()
      reads this
    {
      AtRest(kernel, state, revisions, graph) && state.cells.Keys <= registered && shown.Settled(failed)
    }

    constructor (kernel: Kernel, ceiling: set<Capability>)
      ensures Valid()
      ensures this.kernel == kernel && state.cells == map[] && state.ceiling == ceiling && graph == FRESH
      ensures shown == Shown(map[], map[], {}) && failed == {}
    {
      this.kernel := kernel;
      var nothing := CalcPatch(None, None, None, None, None, None);
      state := Inputs(map[], {}, map[], nothing, map[], map[], ceiling, AuthorityPatch(None, {}, {}), map[], map[], 0);
      revisions := map[];
      graph := FRESH;
      registered := {};
      failed := {};
      shown := Shown(map[], map[], {});
      receipts := map[];
    }

    // ---- Invalidation ----

    method Invalidate(key: Key)
      modifies this`revisions
      ensures Raised(old(revisions), revisions, {key})
    {
      revisions := revisions[key := Revision(revisions, key) + 1];
    }

    method InvalidateAll(keys: set<Key>)
      modifies this`revisions
      ensures Raised(old(revisions), revisions, keys)
    {
      var rest := keys;
      while rest != {}
        invariant rest <= keys && Raised(old(revisions), revisions, keys - rest)
        decreases rest
      {
        var key :| key in rest;
        Invalidate(key);
        rest := rest - {key};
      }
    }

    /** invalidate_cell_source. */
    method InvalidateCellSource(p: Path, namespaceChanged: bool)
      modifies this`revisions
      ensures Raised(old(revisions), revisions, if namespaceChanged then NamespaceKeys(p) else {Cell(p)})
    {
      Invalidate(Cell(p));
      if namespaceChanged {
        Invalidate(NameSlot(Paths.Key(p)));
        Invalidate(Listing(Parent(p)));
      }
    }

    method InvalidateSourceAnd(p: Path, namespaceChanged: bool, failures: set<Key>)
      modifies this`revisions
      ensures Raised(old(revisions), revisions, (if namespaceChanged then NamespaceKeys(p) else {Cell(p)}) + failures)
    {
      hide Raised, NamespaceKeys;
      InvalidateCellSource(p, namespaceChanged);
      ghost var one := revisions;
      InvalidateAll(failures);
      RaisedBoth(old(revisions), one, revisions, if namespaceChanged then NamespaceKeys(p) else {Cell(p)}, failures);
    }

    /** Cells that failed as roots, as keys. */
    function FailedKeys(): (keys: set<Key>)
      reads this`failed
      ensures forall c :: c in failed ==> Cell(c) in keys
    {
      set c | c in failed :: Cell(c)
    }

    // ---- Sources and bindings ----

    method SetCell(p: Path, source: Expr)
      requires Valid()
      modifies this
      ensures Valid()
      ensures state == old(state).(cells := old(state).cells[p := source])
      ensures Raised(old(revisions), revisions, StoringKeys(old(state), p) + old(FailedKeys()))
      ensures forall c :: c in old(failed) ==> Revision(old(revisions), Cell(c)) < Revision(revisions, Cell(c))
      ensures graph == old(graph) && registered == old(registered) + {p} && failed == old(failed) && receipts == old(receipts)
      ensures shown == old(shown).Without({p})
    {
      var replaced := p in state.cells;
      StoringCovers(state, p, source);
      state := state.(cells := state.cells[p := source]);
      shown.StillSettled(failed, {p});
      shown := shown.Without({p});
      var failures := FailedKeys();
      registered := registered + {p};
      hide Raised, AtRest, Covers, NamespaceKeys, FailedKeys, Shown.Settled, Shown.Without;
      InvalidateSourceAnd(p, !replaced, failures);
      Rested(old(state), old(revisions), StoringKeys(old(state), p), StoringKeys(old(state), p) + failures);
    }

    method RemoveCell(p: Path)
      requires Valid()
      modifies this
      ensures Valid()
      ensures state == old(state).(cells := old(state).cells - {p})
      ensures Raised(old(revisions), revisions, NamespaceKeys(p) + old(FailedKeys()))
      ensures forall c :: c in old(failed) ==> Revision(old(revisions), Cell(c)) < Revision(revisions, Cell(c))
      ensures graph == old(graph) && registered == old(registered) + {p} && failed == old(failed) && receipts == old(receipts)
      ensures shown == old(shown).Without({p})
    {
      RemovingCovers(state, p);
      state := state.(cells := state.cells - {p});
      shown.StillSettled(failed, {p});
      shown := shown.Without({p});
      var failures := FailedKeys();
      registered := registered + {p};
      hide Raised, AtRest, Covers, NamespaceKeys, FailedKeys, Shown.Settled, Shown.Without;
      InvalidateSourceAnd(p, true, failures);
      Rested(old(state), old(revisions), NamespaceKeys(p), NamespaceKeys(p) + failures);
    }

    method MoveCell(from: Path, to: Path)
      requires Valid()
      modifies this
      ensures Valid()
      ensures state == old(state).(cells := Moved(old(state).cells, from, to))
      ensures Raised(old(revisions), revisions, NamespaceKeys(from) + NamespaceKeys(to) + old(FailedKeys()))
      ensures forall c :: c in old(failed) ==> Revision(old(revisions), Cell(c)) < Revision(revisions, Cell(c))
      ensures graph == old(graph) && failed == old(failed) && receipts == old(receipts) && shown == old(shown).Without({from, to})
      ensures registered == old(registered) + {from} + if from in old(state).cells then {to} else {}
    {
      ghost var keys := NamespaceKeys(from) + NamespaceKeys(to);
      hide Raised, AtRest, Covers, NamespaceKeys, FailedKeys, Shown.Settled, Shown.Without;
      MovingCovers(state, from, to);
      var failures := FailedKeys();
      shown.StillSettled(failed, {from, to});
      shown := shown.Without({from, to});
      if from in state.cells {
        registered := registered + {to};
      }
      registered := registered + {from};
      state := state.(cells := Moved(state.cells, from, to));
      InvalidatePlaces(from, to, failures);
      Rested(old(state), old(revisions), keys, keys + failures);
    }

    method InvalidatePlaces(from: Path, to: Path, failures: set<Key>)
      modifies this`revisions
      ensures Raised(old(revisions), revisions, NamespaceKeys(from) + NamespaceKeys(to) + failures)
      ensures forall key :: key in failures ==> Revision(old(revisions), key) < Revision(revisions, key)
    {
      hide NamespaceKeys;
      InvalidateCellSource(from, true);
      ghost var one := revisions;
      InvalidateCellSource(to, true);
      RaisedBoth(old(revisions), one, revisions, NamespaceKeys(from), NamespaceKeys(to));
      ghost var two := revisions;
      InvalidateAll(failures);
      RaisedBoth(old(revisions), two, revisions, NamespaceKeys(from) + NamespaceKeys(to), failures);
    }

    method BindName(name: string)
      requires Valid()
      modifies this`state, this`revisions
      ensures Valid()
      ensures state == old(state).(boundNames := old(state).boundNames + {name})
      ensures Raised(old(revisions), revisions, {NameSlot(name)})
    {
      BindingNameCovers(state, name);
      state := state.(boundNames := state.boundNames + {name});
      Invalidate(NameSlot(name));
      Rested(old(state), old(revisions), {NameSlot(name)}, {NameSlot(name)});
    }

    method BindValue(name: Symbol, value: Value)
      requires Valid()
      modifies this`state, this`revisions
      ensures Valid()
      ensures state == old(state).(boundValues := old(state).boundValues[name := value])
      ensures Raised(old(revisions), revisions, {NameSlot(name.Text())})
    {
      BindingValueCovers(state, name, value);
      state := state.(boundValues := state.boundValues[name := value]);
      Invalidate(NameSlot(name.Text()));
      Rested(old(state), old(revisions), {NameSlot(name.Text())}, {NameSlot(name.Text())});
    }

    // ---- Policies ----

    method SetTreeCalcPolicy(patch: CalcPatch)
      requires Valid()
      modifies this`state, this`revisions
      ensures Valid() && state == old(state).(treeCalc := patch)
      ensures shown == old(shown) && graph == old(graph)
      ensures Raised(old(revisions), revisions, CalcKeys(state.cells.Keys))
    {
      TreeCalcCovers(state, patch);
      state := state.(treeCalc := patch);
      InvalidateAll(CalcKeys(state.cells.Keys));
      Rested(old(state), old(revisions), CalcKeys(state.cells.Keys), CalcKeys(state.cells.Keys));
    }

    method SetDirCalcPolicy(dir: Path, patch: CalcPatch)
      requires Valid()
      modifies this`state, this`revisions
      ensures Valid() && state == old(state).(dirCalc := old(state).dirCalc[dir := patch])
      ensures shown == old(shown) && graph == old(graph)
      ensures Raised(old(revisions), revisions, CalcKeys(Below(state.cells.Keys, dir)))
    {
      DirCalcCovers(state, dir, patch);
      state := state.(dirCalc := state.dirCalc[dir := patch]);
      InvalidateAll(CalcKeys(Below(state.cells.Keys, dir)));
      Rested(old(state), old(revisions), CalcKeys(Below(state.cells.Keys, dir)), CalcKeys(Below(state.cells.Keys, dir)));
    }

    method SetCellCalcPolicy(cell: Path, patch: CalcPatch)
      requires Valid()
      modifies this`state, this`revisions
      ensures Valid() && state == old(state).(cellCalc := old(state).cellCalc[cell := patch])
      ensures shown == old(shown) && graph == old(graph)
      ensures Raised(old(revisions), revisions, {EffectivePolicy(cell)})
    {
      CellCalcCovers(state, cell, patch);
      state := state.(cellCalc := state.cellCalc[cell := patch]);
      Invalidate(EffectivePolicy(cell));
      Rested(old(state), old(revisions), {EffectivePolicy(cell)}, {EffectivePolicy(cell)});
    }

    method SetTreeAuthorityPolicy(patch: AuthorityPatch)
      requires Valid()
      modifies this`state, this`revisions
      ensures Valid() && state == old(state).(treeAuthority := patch)
      ensures Raised(old(revisions), revisions, AuthorityKeys(state.cells.Keys))
    {
      TreeAuthorityCovers(state, patch);
      state := state.(treeAuthority := patch);
      InvalidateAll(AuthorityKeys(state.cells.Keys));
      Rested(old(state), old(revisions), AuthorityKeys(state.cells.Keys), AuthorityKeys(state.cells.Keys));
    }

    method SetDirAuthorityPolicy(dir: Path, patch: AuthorityPatch)
      requires Valid()
      modifies this`state, this`revisions
      ensures Valid() && state == old(state).(dirAuthority := old(state).dirAuthority[dir := patch])
      ensures Raised(old(revisions), revisions, AuthorityKeys(Below(state.cells.Keys, dir)))
    {
      DirAuthorityCovers(state, dir, patch);
      state := state.(dirAuthority := state.dirAuthority[dir := patch]);
      InvalidateAll(AuthorityKeys(Below(state.cells.Keys, dir)));
      Rested(old(state), old(revisions), AuthorityKeys(Below(state.cells.Keys, dir)), AuthorityKeys(Below(state.cells.Keys, dir)));
    }

    method SetCellAuthorityPolicy(cell: Path, patch: AuthorityPatch)
      requires Valid()
      modifies this`state, this`revisions
      ensures Valid() && state == old(state).(cellAuthority := old(state).cellAuthority[cell := patch])
      ensures Raised(old(revisions), revisions, {AuthorityPolicy(cell)})
    {
      CellAuthorityCovers(state, cell, patch);
      state := state.(cellAuthority := state.cellAuthority[cell := patch]);
      Invalidate(AuthorityPolicy(cell));
      Rested(old(state), old(revisions), {AuthorityPolicy(cell)}, {AuthorityPolicy(cell)});
    }

    method SetCodecRegistryRevision(revision: nat)
      requires Valid()
      modifies this`state, this`revisions
      ensures Valid() && state == old(state).(codecRegistry := revision)
      ensures Raised(old(revisions), revisions, {CodecRegistry})
    {
      RegistryCovers(state, revision);
      state := state.(codecRegistry := revision);
      Invalidate(CodecRegistry);
      Rested(old(state), old(revisions), {CodecRegistry}, {CodecRegistry});
    }

    /** The invariant after a change whose keys have been raised. */
    lemma Rested(before: Inputs, earlier: map<Key, nat>, changed: set<Key>, raised: set<Key>)
      requires AtRest(kernel, before, earlier, graph)
      requires Covers(before, state, changed) && changed <= raised
      requires Raised(earlier, revisions, raised)
      ensures AtRest(kernel, state, revisions, graph)
    {
      assert Covers(before, state, raised);
      ChangeKeepsRest(kernel, before, state, earlier, revisions, raised, graph);
    }

    // ---- Requests ----

    /** commit_receipts: the attempts of the request are taken, each cell's last one
        is its receipt, and every blocked one has its force epoch raised. */
    method CommitReceipts()
      modifies this`graph, this`revisions, this`receipts
      ensures graph == old(graph).(attempts := [])
      ensures receipts == Receipted(old(receipts), old(graph).attempts)
      ensures Raised(old(revisions), revisions, ForceKeys(BlockedCells(old(graph).attempts)))
    {
      var attempts := graph.attempts;
      graph := graph.(attempts := []);
      NothingTaken(receipts, attempts, revisions);
      for i := 0 to |attempts|
        invariant graph == old(graph).(attempts := [])
        invariant receipts == Receipted(old(receipts), attempts[..i])
        invariant Raised(old(revisions), revisions, ForceKeys(BlockedCells(attempts[..i])))
      {
        hide Raised, ForceKeys, BlockedCells, Receipted;
        AttemptTaken(old(receipts), attempts, i);
        receipts := receipts[attempts[i].cell := attempts[i].outcome];
        if IsBlocking(attempts[i].outcome) {
          ghost var before := revisions;
          Invalidate(ForceEpoch(attempts[i].cell));
          RaisedBoth(old(revisions), before, revisions, ForceKeys(BlockedCells(attempts[..i])), {ForceEpoch(attempts[i].cell)});
        }
      }
      assert attempts[..|attempts|] == attempts;
    }

    /** commit_current_result: the result is shown, a success becomes the last good
        value, and a failure never does. */
    method CommitResult(cell: Path, result: CalcResult)
      modifies this`failed, this`shown
      ensures failed == if IsFailure(result) then old(failed) + {cell} else old(failed) - {cell}
      ensures shown.current == old(shown).current[cell := result]
      ensures shown.lastGood == if result.Calculated? then old(shown).lastGood[cell := result.value] else old(shown).lastGood
      ensures old(shown.Settled(failed)) ==> shown.Settled(failed)
    {
      match result
      case Calculated(value) =>
        var volatile := if value.Opaque? then shown.volatile + {cell} else shown.volatile - {cell};
        shown := Shown(shown.current[cell := result], shown.lastGood[cell := value], volatile);
        failed := failed - {cell};
      case _ =>
        shown := Shown(shown.current[cell := result], shown.lastGood, shown.volatile - {cell});
        failed := failed + {cell};
    }

    /** execute_root without a continuation; work and depth are the budget. */
    method ExecuteRoot(cell: Path, request: Request, depth: nat, work: nat) returns (result: CalcResult)
      requires Valid()
      modifies this`graph, this`revisions, this`failed, this`shown, this`receipts
      ensures Valid()
      ensures result.UnknownQuery? <==> cell !in registered
      ensures cell in registered ==> Faithful(kernel, state, request, depth, work, cell, result)
      ensures cell in state.cells && depth > 0 && work > 1 ==>
                (Tells(result, FrozenBlock(cell)) <==> state.CalcPolicyOf(cell).trigger.Frozen?)
      ensures forall c :: c in graph.nodes && (c in old(graph).nodes ==> graph.nodes[c] != old(graph).nodes[c]) ==>
                c in receipts && receipts[c] == graph.nodes[c].memo.outcome
      ensures NotLowered(old(revisions), revisions) && Updated(old(revisions), old(graph), graph)
      ensures !result.Interrupted? && !result.UnknownQuery? ==> UpToDate(old(revisions), graph, cell)
      ensures failed == if IsFailure(result) then old(failed) + {cell} else old(failed) - {cell}
      ensures shown.current == old(shown).current[cell := result]
      ensures shown.lastGood == if result.Calculated? then old(shown).lastGood[cell := result.value] else old(shown).lastGood
    {
      hide Faithful, AtRest, Shown.Settled, FrozenBlock, Updated, UpToDate;
      if cell !in registered {
        result := UnknownQuery;
        NothingUpdated(revisions, graph);
      } else {
        result := VerifyRoot(cell, request, depth, work);
      }
      CommitResult(cell, result);
    }

    /** The engine's part of it: verify, then commit the receipts. */
    method VerifyRoot(cell: Path, request: Request, depth: nat, work: nat) returns (result: CalcResult)
      requires Valid()
      modifies this`graph, this`revisions, this`receipts
      ensures Valid() && !result.UnknownQuery?
      ensures Faithful(kernel, state, request, depth, work, cell, result)
      ensures cell in state.cells && depth > 0 && work > 1 ==>
                (Tells(result, FrozenBlock(cell)) <==> state.CalcPolicyOf(cell).trigger.Frozen?)
      ensures forall c :: c in graph.nodes && (c in old(graph).nodes ==> graph.nodes[c] != old(graph).nodes[c]) ==>
                c in receipts && receipts[c] == graph.nodes[c].memo.outcome
      ensures NotLowered(old(revisions), revisions) && Updated(old(revisions), old(graph), graph)
      ensures !result.Interrupted? ==> UpToDate(old(revisions), graph, cell)
    {
      assert graph.attempts == [];
      hide Faithful, AtRest, Tidy, Verify, Raised, FrozenBlock, Shown.Settled, Receipted;
      var w := Run(kernel, state, revisions, request, depth);
      RequestEnds(w, graph, cell, work, receipts);
      hide Updated, UpToDate, NotLowered, ForceKeys, BlockedCells, Current;
      var turn := Verify(w, graph, cell, [], work);
      graph := turn.graph;
      CommitReceipts();
      ReceiptsRestoreRest(w, turn.graph, revisions);
      RaisedIsNotLowered(w.revisions, revisions, ForceKeys(BlockedCells(turn.graph.attempts)));
      result := if turn.answer.Some? then Report(turn.answer.value.outcome) else Interrupted;
    }

    /** calculate_cells over the ordered roots.  The cells that a recursive force
        adds to the roots are what the engine's snapshot reaches. */
    method CalculateCells(roots: seq<Path>, mode: RequestMode, reached: set<Path>, limits: Limits) returns (results: seq<CalcResult>)
      requires Valid()
      modifies this`graph, this`revisions, this`failed, this`shown, this`receipts
      ensures Valid()
      ensures var request := Request(false, (set r | r in roots) + if mode.ForceRecursive? then reached else {});
              |results| <= |roots|
              && forall i :: 0 <= i < |results| ==> Answered(kernel, state, registered, request, limits, roots[i], results[i])
      ensures forall i :: 0 <= i < |results| - 1 ==> results[i].Calculated? || state.CalcPolicyOf(roots[i]).errorMode == Continue
      ensures |results| < |roots| ==>
                results != [] && !results[|results| - 1].Calculated?
                && state.CalcPolicyOf(roots[|results| - 1]).errorMode == FailFast
      ensures ForcedSince(old(revisions), revisions, Forced(mode, roots, reached))
      ensures forall i :: 0 <= i < |results| && Settles(mode, results[i]) ==> Redone(old(revisions), graph, roots[i])
    {
      hide Answered, Raised, Current, Faithful, Shown.Settled, AtRest;
      var directed := (set r | r in roots) + if mode.ForceRecursive? then reached else {};
      match mode {
        case Verification =>
        case ForceRoots =>
          Force(Forced(mode, roots, reached));
        case ForceRecursive =>
          Force(Forced(mode, roots, reached));
      }
      ForcedNow(old(revisions), revisions, Forced(mode, roots, reached));
      hide Valid, Redone, Revision, Updated, UpToDate, NotLowered, Forced, ForcedSince;
      results := [];
      for i := 0 to |roots|
        invariant Valid() && |results| == i
        invariant forall j :: 0 <= j < i ==> Answered(kernel, state, registered, Request(false, directed), limits, roots[j], results[j])
        invariant forall j :: 0 <= j < i ==> !Stops(state, roots[j], results[j])
        invariant ForcedSince(old(revisions), revisions, Forced(mode, roots, reached))
        invariant forall j :: 0 <= j < i && Settles(mode, results[j]) ==> Redone(old(revisions), graph, roots[j])
      {
        ghost var asked, before := revisions, graph;
        var result := CalculateRoot(roots[i], Request(false, directed), limits);
        results := results + [result];
        Rests();
        StillRedone(kernel, state, mode, roots, reached, old(revisions), asked, revisions, before, graph, results);
        if Stops(state, roots[i], result) {
          return;
        }
      }
    }

    lemma Rests()
      requires Valid()
      ensures AtRest(kernel, state, revisions, graph)
    {
    }

    method CalculateRoot(root: Path, request: Request, limits: Limits) returns (result: CalcResult)
      requires Valid()
      modifies this`graph, this`revisions, this`failed, this`shown, this`receipts
      ensures Valid() && Answered(kernel, state, registered, request, limits, root, result)
      ensures NotLowered(old(revisions), revisions) && Updated(old(revisions), old(graph), graph)
      ensures !result.Interrupted? && !result.UnknownQuery? ==> UpToDate(old(revisions), graph, root)
    {
      hide Faithful, Updated, UpToDate, NotLowered;
      result := ExecuteRoot(root, request, Depth(state, root, limits), Work(state, root, limits));
    }

    method Force(cells: set<Path>)
      requires Valid()
      modifies this`revisions
      ensures Valid()
      ensures Raised(old(revisions), revisions, ForceKeys(cells))
      ensures forall c :: c in cells && c in graph.nodes ==> !Current(revisions, graph.nodes[c])
    {
      ForcedIsStale(kernel, state, revisions, graph, cells);
      hide AtRest, Current;
      assert Covers(state, state, {});
      InvalidateAll(ForceKeys(cells));
      Rested(state, old(revisions), ForceKeys(cells), ForceKeys(cells));
    }
  }

  /** The receipts after some attempts: a later attempt on a cell replaces an
      earlier one. */
  function Receipted(receipts: map<Path, Outcome>, attempts: seq<Attempt>): map<Path, Outcome> {
    if attempts == [] then receipts
    else
      var last := attempts[|attempts| - 1];
      Receipted(receipts, attempts[..|attempts| - 1])[last.cell := last.outcome]
  }

  lemma NothingTaken(receipts: map<Path, Outcome>, attempts: seq<Attempt>, revisions: map<Key, nat>)
    ensures Receipted(receipts, attempts[..0]) == receipts
    ensures Raised(revisions, revisions, ForceKeys(BlockedCells(attempts[..0])))
  {
  }

  lemma AttemptTaken(receipts: map<Path, Outcome>, attempts: seq<Attempt>, i: nat)
    requires i < |attempts|
    ensures var before, after, last := attempts[..i], attempts[..i + 1], attempts[i];
            && Receipted(receipts, after) == Receipted(receipts, before)[last.cell := last.outcome]
            && ForceKeys(BlockedCells(after))
               == ForceKeys(BlockedCells(before)) + if IsBlocking(last.outcome) then {ForceEpoch(last.cell)} else {}
  {
    var before, after, last := attempts[..i], attempts[..i + 1], attempts[i];
    assert after[..i] == before;
    assert forall a :: a in after <==> a in before || a == last;
    assert BlockedCells(after) == BlockedCells(before) + if IsBlocking(last.outcome) then {last.cell} else {};
  }

  /** A receipt is that of the last attempt on its cell, or an earlier request's. */
  lemma {:induction false} ReceiptIsLast(receipts: map<Path, Outcome>, attempts: seq<Attempt>, cell: Path)
    ensures var now := Receipted(receipts, attempts);
            if forall i :: 0 <= i < |attempts| ==> attempts[i].cell != cell
            then (cell in now <==> cell in receipts) && (cell in now ==> now[cell] == receipts[cell])
            else exists i :: 0 <= i < |attempts| && attempts[i].cell == cell && cell in now && now[cell] == attempts[i].outcome
                             && forall j :: i < j < |attempts| ==> attempts[j].cell != cell
  {
    if attempts != [] {
      var front, last := attempts[..|attempts| - 1], attempts[|attempts| - 1];
      ReceiptIsLast(receipts, front, cell);
      assert Receipted(receipts, attempts) == Receipted(receipts, front)[last.cell := last.outcome];
      hide Receipted;
      if last.cell == cell {
        assert attempts[|attempts| - 1].cell == cell;
      } else if i :| 0 <= i < |front| && front[i].cell == cell && cell in Receipted(receipts, front)
                     && Receipted(receipts, front)[cell] == front[i].outcome && forall j :: i < j < |front| ==> front[j].cell != cell {
        assert attempts[i].cell == cell;
      }
    }
  }

  /** The receipt of every cell whose node changed is the outcome it is left with. */
  lemma LatestReceipts(receipts: map<Path, Outcome>, g: Graph, h: Graph)
    requires g.attempts == [] && Entered(g, h)
    ensures forall c :: c in h.nodes && (c in g.nodes ==> h.nodes[c] != g.nodes[c]) ==>
              c in Receipted(receipts, h.attempts) && Receipted(receipts, h.attempts)[c] == h.nodes[c].memo.outcome
  {
    hide Receipted;
    assert h.attempts[|g.attempts|..] == h.attempts;
    forall c | c in h.nodes && (c in g.nodes ==> h.nodes[c] != g.nodes[c])
      ensures c in Receipted(receipts, h.attempts) && Receipted(receipts, h.attempts)[c] == h.nodes[c].memo.outcome
    {
      assert EnteredAt(g, h, h.attempts[|g.attempts|..], c);
      ReceiptIsLast(receipts, h.attempts, c);
      LastIsOne(h.attempts, c, h.nodes[c].memo.outcome, Receipted(receipts, h.attempts)[c]);
    }
  }

  lemma RequestReceipts(w: Run, g: Graph, cell: Path, work: nat, receipts: map<Path, Outcome>)
    requires g.attempts == []
    ensures var h := Verify(w, g, cell, [], work).graph;
            forall c :: c in h.nodes && (c in g.nodes ==> h.nodes[c] != g.nodes[c]) ==>
              c in Receipted(receipts, h.attempts) && Receipted(receipts, h.attempts)[c] == h.nodes[c].memo.outcome
  {
    hide Verify, Entered, Receipted;
    VerifyEnters(w, g, cell, [], work);
    LatestReceipts(receipts, g, Verify(w, g, cell, [], work).graph);
  }

  lemma LastIsOne(attempts: seq<Attempt>, cell: Path, a: Outcome, b: Outcome)
    requires LastIs(attempts, cell, a)
    requires exists i :: 0 <= i < |attempts| && attempts[i].cell == cell && attempts[i].outcome == b && forall j :: i < j < |attempts| ==> attempts[j].cell != cell
    ensures a == b
  {
    var i :| 0 <= i < |attempts| && attempts[i] == Attempt(cell, a) && forall j :: i < j < |attempts| ==> attempts[j].cell != cell;
    var k :| 0 <= k < |attempts| && attempts[k].cell == cell && attempts[k].outcome == b && forall j :: k < j < |attempts| ==> attempts[j].cell != cell;
    assert i == k;
  }

  /** A registered root is answered faithfully within its budget. */
  ghost predicate Answered(k: Kernel, inp: Inputs, registered: set<Path>, request: Request, limits: Limits, root: Path, r: CalcResult) {
    if root in registered then Faithful(k, inp, request, Depth(inp, root, limits), Work(inp, root, limits), root, r)
    else r.UnknownQuery?
  }

  /** The cells whose force epoch a request in this mode raises. */
  function Forced(mode: RequestMode, roots: seq<Path>, reached: set<Path>): set<Path> {
    match mode
    case Verification => {}
    case ForceRoots => set r | r in roots
    case ForceRecursive => (set r | r in roots) + reached
  }

  ghost predicate ForcedSince(before: map<Key, nat>, after: map<Key, nat>, cells: set<Path>) {
    forall c :: c in cells ==> Revision(before, ForceEpoch(c)) < Revision(after, ForceEpoch(c))
  }

  /** A forced root that was evaluated, with whatever outcome. */
  predicate Settles(mode: RequestMode, result: CalcResult) {
    !mode.Verification? && !result.Interrupted? && !result.UnknownQuery?
  }

  lemma ForcedNow(before: map<Key, nat>, after: map<Key, nat>, cells: set<Path>)
    ensures Raised(before, after, ForceKeys(cells)) ==> ForcedSince(before, after, cells)
    ensures ForcedSince(before, after, {})
  {
    assert forall c :: c in cells ==> ForceEpoch(c) in ForceKeys(cells);
    hide Revision;
  }

  /** One more root answered keeps the forced roots before it evaluated again. */
  lemma StillRedone(k: Kernel, inp: Inputs, mode: RequestMode, roots: seq<Path>, reached: set<Path>, before: map<Key, nat>,
                    asked: map<Key, nat>, revisions: map<Key, nat>, g: Graph, h: Graph, results: seq<CalcResult>)
    requires AtRest(k, inp, revisions, h) && Updated(asked, g, h) && NotLowered(asked, revisions)
    requires ForcedSince(before, asked, Forced(mode, roots, reached)) && 0 < |results| <= |roots|
    requires forall j :: 0 <= j < |results| - 1 && Settles(mode, results[j]) ==> Redone(before, g, roots[j])
    requires Settles(mode, results[|results| - 1]) ==> UpToDate(asked, h, roots[|results| - 1])
    ensures ForcedSince(before, revisions, Forced(mode, roots, reached))
    ensures forall j :: 0 <= j < |results| && Settles(mode, results[j]) ==> Redone(before, h, roots[j])
  {
    forall j | 0 <= j < |results| && Settles(mode, results[j]) ensures Redone(before, h, roots[j]) {
      assert roots[j] in Forced(mode, roots, reached);
      hide AtRest, Updated, UpToDate, Redone, Forced, Revision, NotLowered;
      if j == |results| - 1 {
        RedoneNow(k, inp, before, asked, revisions, h, roots[j]);
      } else {
        RedoneStays(k, inp, before, asked, revisions, g, h, roots[j]);
      }
    }
    hide AtRest, Updated, UpToDate, Redone, Forced, Revision;
    forall c | c in Forced(mode, roots, reached) ensures Revision(before, ForceEpoch(c)) < Revision(revisions, ForceEpoch(c)) {
      assert Revision(asked, ForceEpoch(c)) <= Revision(revisions, ForceEpoch(c));
    }
  }

  lemma NothingUpdated(revisions: map<Key, nat>, g: Graph)
    ensures NotLowered(revisions, revisions) && Updated(revisions, g, g)
  {
  }

  /** All that one verification answers and leaves behind. */
  lemma RequestEnds(w: Run, g: Graph, cell: Path, work: nat, receipts: map<Path, Outcome>)
    requires AtRest(w.kernel, w.inputs, w.revisions, g)
    ensures var t := Verify(w, g, cell, [], work);
            var r := if t.answer.Some? then Report(t.answer.value.outcome) else Interrupted;
            var h := t.graph.(attempts := []);
            && Tidy(w, t.graph) && Faithful(w.kernel, w.inputs, w.request, w.depthLimit, work, cell, r)
            && (cell in w.inputs.cells && w.depthLimit > 0 && work > 1 ==>
                  (Tells(r, FrozenBlock(cell)) <==> w.inputs.CalcPolicyOf(cell).trigger.Frozen?))
            && Updated(w.revisions, g, h) && (t.answer.Some? ==> UpToDate(w.revisions, h, cell))
            && (forall c :: c in h.nodes && (c in g.nodes ==> h.nodes[c] != g.nodes[c]) ==>
                  c in Receipted(receipts, t.graph.attempts) && Receipted(receipts, t.graph.attempts)[c] == h.nodes[c].memo.outcome)
  {
    hide Faithful, AtRest, Tidy, Verify, FrozenBlock, Receipted, Updated, UpToDate;
    VerifyAnswers(w, g, cell, work);
    if cell in w.inputs.cells && w.depthLimit > 0 && work > 1 {
      FrozenExactly(w, g, cell, work);
    }
    AtRestIsQuiet(w, g);
    RequestReceipts(w, g, cell, work, receipts);
    VerifyLeaves(w, g, cell, work);
  }

  lemma AtRestIsQuiet(w: Run, g: Graph)
    requires AtRest(w.kernel, w.inputs, w.revisions, g)
    ensures g.attempts == []
  {
  }

  lemma VerifyLeaves(w: Run, g: Graph, cell: Path, work: nat)
    ensures var t := Verify(w, g, cell, [], work);
            && Updated(w.revisions, g, t.graph.(attempts := []))
            && (t.answer.Some? ==> UpToDate(w.revisions, t.graph.(attempts := []), cell))
  {
    VerifyUpdates(w, g, cell, [], work);
    hide Current, Verify;
  }

  lemma RaisedIsNotLowered(before: map<Key, nat>, after: map<Key, nat>, keys: set<Key>)
    requires Raised(before, after, keys)
    ensures NotLowered(before, after)
  {
  }

  predicate Stops(inp: Inputs, root: Path, result: CalcResult) {
    IsFailure(result) && inp.CalcPolicyOf(root).errorMode == FailFast
  }

  function Work(inp: Inputs, root: Path, limits: Limits): nat {
    Least(limits.work, inp.CalcPolicyOf(root).budget.work, HARD_LIMITS.work)
  }

  function Depth(inp: Inputs, root: Path, limits: Limits): nat {
    Least(limits.depth, inp.CalcPolicyOf(root).budget.depth, HARD_LIMITS.depth)
  }

  /** No root runs with more work or depth than the caller, its policy or the hard
      ceiling allows, nor with less than the tightest of them. */
  lemma BudgetIsTightest(inp: Inputs, root: Path, limits: Limits)
    ensures var work, own := Work(inp, root, limits), inp.CalcPolicyOf(root).budget;
            work <= limits.work && work <= own.work && work <= 1_000_000 && (work == limits.work || work == own.work || work == 1_000_000)
    ensures var depth, own := Depth(inp, root, limits), inp.CalcPolicyOf(root).budget;
            depth <= limits.depth && depth <= own.depth && depth <= 64 && (depth == limits.depth || depth == own.depth || depth == 64)
  {
  }

  /** The limits a caller asks for are cut to the policy's and the hard ceiling. */
  function Least(a: nat, b: nat, c: nat): nat {
    if a <= b && a <= c then a else if b <= c then b else c
  }
}
