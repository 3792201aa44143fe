/** Why a memo may be trusted. */
module Freshness {
  // What every change of the inputs must invalidate, what every request leaves
  // behind, and what follows for the answers.

  import opened Syntax
  import opened Paths
  import opened Policy
  import opened Evaluation
  import opened EvaluationFacts
  import opened Engine
  import opened EngineComplete
  import opened EngineProgress
  import opened BlockOrigins
  import opened CycleOrigins

  /** Exactly the given keys have moved to a later revision. */
  ghost predicate Raised(before: map<Key, nat>, after: map<Key, nat>, keys: set<Key>) {
    forall key :: if key in keys then Revision(before, key) < Revision(after, key) else Revision(before, key) == Revision(after, key)
  }

  function ForceKeys(cells: set<Path>): set<Key> {
    set c | c in cells :: ForceEpoch(c)
  }

  lemma RaisedBoth(before: map<Key, nat>, between: map<Key, nat>, after: map<Key, nat>, first: set<Key>, second: set<Key>)
    requires Raised(before, between, first) && Raised(between, after, second)
    ensures Raised(before, after, first + second)
  {
    forall key
      ensures if key in first + second then Revision(before, key) < Revision(after, key) else Revision(before, key) == Revision(after, key)
    {
      assert Revision(before, key) <= Revision(between, key) <= Revision(after, key);
    }
  }

  /** Between requests the graph is tidy and no attempt is pending. */
  ghost predicate AtRest(k: Kernel, inp: Inputs, revisions: map<Key, nat>, g: Graph) {
    g.attempts == [] && Tidy(Run(k, inp, revisions, Request(false, {}), 0), g)
  }

  /** A policy key of a cell that is not stored; nothing but that cell's own
      query observes it. */
  predicate OfUnstored(inp: Inputs, key: Key) {
    (key.EffectivePolicy? || key.AuthorityPolicy?) && key.cell !in inp.cells
  }

  /** Invalidation completeness: every key whose content differs is raised. */
  ghost predicate Covers(a: Inputs, b: Inputs, keys: set<Key>) {
    forall key :: key !in keys && !OfUnstored(a, key) ==> ContentOf(a, key) == ContentOf(b, key)
  }

  lemma RequestIrrelevant(v: Run, w: Run, g: Graph)
    requires v.kernel == w.kernel && v.inputs == w.inputs && v.revisions == w.revisions
    requires Tidy(v, g)
    ensures Tidy(w, g)
  {
    forall c | c in g.nodes ensures NodeTidy(w, g, c, g.nodes[c]) {
      assert NodeTidy(v, g, c, g.nodes[c]);
    }
  }

  // ---- A change of the inputs ----

  lemma CurrentBefore(before: map<Key, nat>, after: map<Key, nat>, keys: set<Key>, cell: Path, node: Node)
    requires Raised(before, after, keys) && StampsOk(before, cell, node) && Current(after, node)
    ensures Current(before, node)
    ensures forall key :: Sees(node, key) ==> key !in keys
  {
    forall s | s in node.seen ensures s.revision == Revision(before, s.key) && s.key !in keys {
      assert Revision(before, s.key) <= Revision(after, s.key);
    }
    forall key | Sees(node, key) ensures key !in keys {
      var i :| 0 <= i < |node.seen| && node.seen[i].key == key;
      assert node.seen[i] in node.seen;
    }
  }

  lemma StillGrounded(k: Kernel, a: Inputs, b: Inputs, keys: set<Key>, cell: Path, node: Node)
    requires Covers(a, b, keys) && cell in a.cells && Grounded(k, a, cell, node)
    requires forall key :: Sees(node, key) ==> key !in keys
    ensures Grounded(k, b, cell, node)
  {
    var r := Body(k, a, false, true, cell, Plain(node.deps));
    BodyKeys(k, a, false, true, cell, Plain(node.deps));
    forall key | key in r.frame.keys ensures ContentOf(a, key) == ContentOf(b, key) {
      var i :| 0 <= i < |r.frame.keys| && r.frame.keys[i] == key;
      if i < |RuntimeContext(cell)| {
        assert key == RuntimeContext(cell)[i];
      } else {
        assert Lexical(key);
      }
      assert Sees(node, key);
    }
    ObservationsDecide(k, a, b, false, true, cell, Plain(node.deps));
  }

  lemma NodeKept(v: Run, w: Run, keys: set<Key>, g: Graph, c: Path, node: Node)
    requires v.kernel == w.kernel && Covers(v.inputs, w.inputs, keys) && Raised(v.revisions, w.revisions, keys)
    requires NodeTidy(v, g, c, node)
    ensures NodeTidy(w, g, c, node)
  {
    assert StampsOk(w.revisions, c, node) by {
      forall s | s in node.seen ensures s.revision <= Revision(w.revisions, s.key) {
        assert Revision(v.revisions, s.key) <= Revision(w.revisions, s.key);
      }
    }
    if Current(w.revisions, node) {
      CurrentBefore(v.revisions, w.revisions, keys, c, node);
      hide Grounded, Covers, StampsOk, MemosOk, Raised;
      if c in w.inputs.cells && !GateBlocked(node.memo.outcome) {
        StoredBefore(v.inputs, w.inputs, keys, c);
        StillGrounded(w.kernel, v.inputs, w.inputs, keys, c, node);
      }
    }
  }

  lemma StoredBefore(a: Inputs, b: Inputs, keys: set<Key>, c: Path)
    requires Covers(a, b, keys) && Cell(c) !in keys && c in b.cells
    ensures c in a.cells
  {
    assert ContentOf(a, Cell(c)) == ContentOf(b, Cell(c));
  }

  /** Changing the inputs and raising every key whose content changed keeps every
      memo trustworthy. */
  lemma ChangeKeepsRest(k: Kernel, a: Inputs, b: Inputs, before: map<Key, nat>, after: map<Key, nat>, keys: set<Key>, g: Graph)
    requires AtRest(k, a, before, g) && Covers(a, b, keys) && Raised(before, after, keys)
    ensures AtRest(k, b, after, g)
  {
    var v, w := Run(k, a, before, Request(false, {}), 0), Run(k, b, after, Request(false, {}), 0);
    hide Covers, Raised, NodeTidy;
    forall c | c in g.nodes ensures NodeTidy(w, g, c, g.nodes[c]) {
      NodeKept(v, w, keys, g, c, g.nodes[c]);
    }
  }

  // ---- The end of a request ----

  /** Raising the force epoch of every blocked cell leaves no block reusable. */
  lemma ReceiptsRestoreRest(w: Run, g: Graph, after: map<Key, nat>)
    requires Tidy(w, g)
    requires Raised(w.revisions, after, ForceKeys(BlockedCells(g.attempts)))
    ensures AtRest(w.kernel, w.inputs, after, g.(attempts := []))
  {
    var keys := ForceKeys(BlockedCells(g.attempts));
    var h := g.(attempts := []);
    var v := Run(w.kernel, w.inputs, after, Request(false, {}), 0);
    forall c | c in h.nodes ensures NodeTidy(v, h, c, h.nodes[c]) {
      var node := h.nodes[c];
      assert NodeTidy(w, g, c, node);
      assert StampsOk(after, c, node) by {
        forall s | s in node.seen ensures s.revision <= Revision(after, s.key) {
          assert Revision(w.revisions, s.key) <= Revision(after, s.key);
        }
      }
      if Current(after, node) {
        CurrentBefore(w.revisions, after, keys, c, node);
        assert ForceEpoch(c) !in keys;
      }
    }
  }

  // ---- Consequences for the answers ----

  lemma RestIsClean(w: Run, g: Graph)
    requires AtRest(w.kernel, w.inputs, w.revisions, g)
    ensures Clean(w, g)
  {
    RequestIrrelevant(Run(w.kernel, w.inputs, w.revisions, Request(false, {}), 0), w, g);
    forall c | c in g.nodes && c in w.inputs.cells && Current(w.revisions, g.nodes[c])
      ensures Grounded(w.kernel, w.inputs, c, g.nodes[c])
    {
      assert NodeTidy(w, g, c, g.nodes[c]);
    }
  }

  /** Between requests no block is a current memo, so the next request that asks
      for the cell evaluates it again. */
  lemma BlockIsNeverReused(w: Run, g: Graph, cell: Path, work: nat)
    requires AtRest(w.kernel, w.inputs, w.revisions, g)
    requires cell in g.nodes && IsBlocking(g.nodes[cell].memo.outcome)
    requires work > 0 && w.depthLimit > 0
    ensures Verify(w, g, cell, [], work) == Execute(w, g, cell, [], [], work - 1)
  {
    assert NodeTidy(Run(w.kernel, w.inputs, w.revisions, Request(false, {}), 0), g, cell, g.nodes[cell]);
  }

  /** Once its force epoch is raised, no memo of the cell is current. */
  lemma ForcedIsStale(k: Kernel, inp: Inputs, revisions: map<Key, nat>, g: Graph, cells: set<Path>)
    requires AtRest(k, inp, revisions, g)
    ensures forall after: map<Key, nat> :: Raised(revisions, after, ForceKeys(cells)) ==>
              forall c :: c in cells && c in g.nodes ==> !Current(after, g.nodes[c])
  {
    forall after: map<Key, nat>, c | Raised(revisions, after, ForceKeys(cells)) && c in cells && c in g.nodes
      ensures !Current(after, g.nodes[c])
    {
      assert NodeTidy(Run(k, inp, revisions, Request(false, {}), 0), g, c, g.nodes[c]);
      assert Sees(g.nodes[c], ForceEpoch(c));
      assert ForceEpoch(c) in ForceKeys(cells);
    }
  }

  /** No block is answered that is not a block of this request: the cell it names
      is blocked by its trigger here, with the reason given, or by its cycle policy. */
  lemma BlocksAreExplained(w: Run, g: Graph, cell: Path, work: nat)
    requires AtRest(w.kernel, w.inputs, w.revisions, g)
    ensures var answer := Verify(w, g, cell, [], work).answer; answer.Some? ==> Explained(w, answer.value.outcome)
  {
    forall c | c in g.nodes && Current(w.revisions, g.nodes[c]) ensures Explained(w, g.nodes[c].memo.outcome) {
      assert NodeTidy(Run(w.kernel, w.inputs, w.revisions, Request(false, {}), 0), g, c, g.nodes[c]);
    }
    VerifyExplained(w, g, cell, [], work);
  }

  /** No cycle is answered that is not there: the cells it lists are stored, each asks
      for the next on some answers to its earlier reads, and the last is among the
      others, whatever earlier requests left behind. */
  lemma CyclesAreReal(w: Run, g: Graph, cell: Path, work: nat)
    requires AtRest(w.kernel, w.inputs, w.revisions, g) && cell in w.inputs.cells
    ensures var answer := Verify(w, g, cell, [], work).answer;
            answer.Some? && answer.value.outcome.Failed? && answer.value.outcome.failure.Cycle? ==>
              var trail := answer.value.outcome.failure.trail;
              && |trail| > 1 && trail[|trail| - 1] in trail[..|trail| - 1]
              && forall i :: 0 < i < |trail| ==> AsksFor(w, trail[i - 1], trail[i]) && trail[i] in w.inputs.cells
  {
    TidyIsWired(Run(w.kernel, w.inputs, w.revisions, Request(false, {}), 0), w, g);
    VerifyReal(w, g, cell, [], work);
    var answer := Verify(w, g, cell, [], work).answer;
    hide Verify, AsksFor;
    if answer.Some? && answer.value.outcome.Failed? && answer.value.outcome.failure.Cycle? {
      var trail := answer.value.outcome.failure.trail;
      forall i | 0 < i < |trail| ensures AsksFor(w, trail[i - 1], trail[i]) && trail[i] in w.inputs.cells {
        AskedIsStored(w, trail[i - 1], trail[i]);
      }
    }
  }

  // ---- Frozen cells ----

  function FrozenBlock(cell: Path): Outcome {
    Failed(Blocked(cell, FROZEN_REASON))
  }

  /** The memo of a frozen cell is never current: freezing raised its policy key, and
      what was calculated since is a block. */
  lemma FrozenIsStale(w: Run, g: Graph, cell: Path)
    requires AtRest(w.kernel, w.inputs, w.revisions, g)
    requires cell in w.inputs.cells && cell in g.nodes && w.inputs.CalcPolicyOf(cell).trigger.Frozen?
    ensures !Current(w.revisions, g.nodes[cell])
  {
    assert NodeTidy(Run(w.kernel, w.inputs, w.revisions, Request(false, {}), 0), g, cell, g.nodes[cell]);
  }

  /** Asking for a frozen cell never answers its committed memo: it answers the
      block, and stores it over the memo. */
  lemma FrozenIsBlocked(w: Run, g: Graph, cell: Path, work: nat)
    requires AtRest(w.kernel, w.inputs, w.revisions, g)
    requires cell in w.inputs.cells && w.inputs.CalcPolicyOf(cell).trigger.Frozen? && w.depthLimit > 0 && work > 1
    ensures var t := Verify(w, g, cell, [], work);
            && t.answer.Some? && t.answer.value.outcome == FrozenBlock(cell)
            && cell in t.graph.nodes && t.graph.nodes[cell].memo.outcome == FrozenBlock(cell)
            && t.graph.nodes - {cell} == g.nodes - {cell}
  {
    if cell in g.nodes {
      FrozenIsStale(w, g, cell);
    }
    FrozenRuns(w, cell);
    hide AtRest, Tidy, Current, BodyIn, Body, Reuse, Revalidate;
    assert Verify(w, g, cell, [], work) == Execute(w, g, cell, [], [], work - 1);
    hide Verify;
  }

  lemma FrozenRuns(w: Run, cell: Path)
    requires w.inputs.CalcPolicyOf(cell).trigger.Frozen?
    ensures BodyIn(w, cell, []).Done? && BodyIn(w, cell, []).outcome == FrozenBlock(cell)
  {
  }

  /** A stored cell asked for with some budget is answered its frozen block exactly
      if it is frozen; then, and only then, whatever was committed is lost to it. */
  lemma FrozenExactly(w: Run, g: Graph, cell: Path, work: nat)
    requires AtRest(w.kernel, w.inputs, w.revisions, g) && cell in w.inputs.cells && w.depthLimit > 0 && work > 1
    ensures var answer := Verify(w, g, cell, [], work).answer;
            answer.Some? && answer.value.outcome == FrozenBlock(cell) <==> w.inputs.CalcPolicyOf(cell).trigger.Frozen?
  {
    if w.inputs.CalcPolicyOf(cell).trigger.Frozen? {
      FrozenIsBlocked(w, g, cell, work);
    } else {
      BlocksAreExplained(w, g, cell, work);
      FrozenReasonIsFrozen(w.inputs.CalcPolicyOf(cell).trigger, w.request.automatic, Directed(w, cell));
    }
  }

  lemma FrozenReasonIsFrozen(trigger: Trigger, automatic: bool, directed: bool)
    ensures BlockReason(trigger, automatic, directed) == Some(FROZEN_REASON) <==> trigger.Frozen?
    ensures FROZEN_REASON != CYCLE_REASON
  {
    assert |FROZEN_REASON| == 42 && |CYCLE_REASON| == 24 && |ON_DEMAND_REASON| == 50 && |MANUAL_REASON| == 46 && |DEPENDENCY_REASON| == 53;
  }

  /** What a request answers about a stored cell. */
  lemma RestedVerify(w: Run, g: Graph, cell: Path, work: nat) returns (d: Derivation)
    requires AtRest(w.kernel, w.inputs, w.revisions, g)
    ensures TurnSound(w, g, cell, Verify(w, g, cell, [], work), d)
  {
    RestIsClean(w, g);
    d := VerifySound(w, g, cell, [], work);
  }

  lemma RestedVerifyComplete(w: Run, g: Graph, cell: Path, work: nat, d: Derivation)
    requires AtRest(w.kernel, w.inputs, w.revisions, g)
    requires Justified(w.kernel, w.inputs, d) && d.cell == cell && OpenIn(w, d)
    ensures var t := Verify(w, g, cell, [], work); t.answer.Some? ==> t.answer.value.outcome == d.outcome
  {
    RestIsClean(w, g);
    VerifyComplete(w, g, cell, [], work, d, []);
  }

  /** Total correctness: with the work and depth its derivation needs, a cell is
      answered, and with the derived outcome, whatever is memoised. */
  lemma EnoughBudgetAnswers(w: Run, g: Graph, cell: Path, work: nat, d: Derivation)
    requires AtRest(w.kernel, w.inputs, w.revisions, g)
    requires Justified(w.kernel, w.inputs, d) && d.cell == cell && OpenIn(w, d)
    requires Height(d) <= w.depthLimit && Cost(d) <= work
    ensures var answer := Verify(w, g, cell, [], work).answer; answer.Some? && answer.value.outcome == d.outcome
  {
    RestIsClean(w, g);
    VerifyProgress(w, g, cell, [], work, d, []);
  }

  /** Two answers about one cell that do not depend on the request that met them are
      equal: whatever is memoised, requested or blocked, at whatever revisions. */
  lemma DefiniteAnswersAgree(v: Run, f: Graph, w: Run, g: Graph, cell: Path, work: nat, otherWork: nat)
    requires v.kernel == w.kernel && v.inputs == w.inputs && cell in w.inputs.cells
    requires AtRest(v.kernel, v.inputs, v.revisions, f) && AtRest(w.kernel, w.inputs, w.revisions, g)
    ensures var one := Verify(v, f, cell, [], work).answer;
            var other := Verify(w, g, cell, [], otherWork).answer;
            one.Some? && other.Some? && !Contextual(one.value.outcome) && !Contextual(other.value.outcome) ==>
              one.value.outcome == other.value.outcome
  {
    var d := RestedVerify(v, f, cell, work);
    var e := RestedVerify(w, g, cell, otherWork);
    var one := Verify(v, f, cell, [], work).answer;
    var other := Verify(w, g, cell, [], otherWork).answer;
    if one.Some? && other.Some? && !Contextual(one.value.outcome) && !Contextual(other.value.outcome) {
      DerivationsAgree(w.kernel, w.inputs, d, e);
    }
  }

  const FRESH := Graph(map[], [], [])

  /** Incremental equals from scratch.  Whatever the calculator has memoised, an
      answer about a cell that is not blocked, and reads no blocked cell, is the
      answer a calculator with the same sources, bindings and policies but no memos
      would give, unless both meet a cycle or one is stopped by its budget. */
  lemma IncrementalEqualsFresh(w: Run, g: Graph, cell: Path, work: nat, otherRevisions: map<Key, nat>, otherWork: nat)
    requires AtRest(w.kernel, w.inputs, w.revisions, g) && cell in w.inputs.cells
    requires forall d :: Justified(w.kernel, w.inputs, d) && d.cell == cell ==> OpenIn(w, d)
    ensures var mine := Verify(w, g, cell, [], work).answer;
            var anew := Verify(w.(revisions := otherRevisions), FRESH, cell, [], otherWork).answer;
            mine.Some? && anew.Some? && !(Contextual(mine.value.outcome) && Contextual(anew.value.outcome)) ==>
              mine.value.outcome == anew.value.outcome
  {
    var v := w.(revisions := otherRevisions);
    assert AtRest(v.kernel, v.inputs, v.revisions, FRESH);
    var d := RestedVerify(w, g, cell, work);
    var e := RestedVerify(v, FRESH, cell, otherWork);
    var mine := Verify(w, g, cell, [], work).answer;
    var anew := Verify(v, FRESH, cell, [], otherWork).answer;
    if mine.Some? && anew.Some? {
      if !Contextual(anew.value.outcome) {
        RestedVerifyComplete(w, g, cell, work, e);
      } else if !Contextual(mine.value.outcome) {
        OpenAtAnyRevision(w, v, d);
        RestedVerifyComplete(v, FRESH, cell, otherWork, d);
      }
    }
  }

  lemma {:induction false} OpenAtAnyRevision(w: Run, v: Run, d: Derivation)
    requires v.inputs == w.inputs && v.request == w.request && OpenIn(w, d)
    ensures OpenIn(v, d)
    decreases d
  {
    forall i | 0 <= i < |d.subs| ensures OpenIn(v, d.subs[i]) {
      OpenAtAnyRevision(w, v, d.subs[i]);
    }
  }

  // ---- Each kind of change covers itself ----

  /** The keys a change at one path invalidates when the set of names changes. */
  function NamespaceKeys(p: Path): set<Key> {
    {Cell(p), NameSlot(Paths.Key(p)), Listing(Parent(p))}
  }

  function StoringKeys(inp: Inputs, p: Path): set<Key> {
    if p in inp.cells then {Cell(p)} else NamespaceKeys(p)
  }

  lemma StoringCovers(inp: Inputs, p: Path, source: Expr)
    ensures Covers(inp, inp.(cells := inp.cells[p := source]), StoringKeys(inp, p))
  {
    var b := inp.(cells := inp.cells[p := source]);
    assert b.Bindings() == inp.Bindings();
    forall key | key !in StoringKeys(inp, p) ensures ContentOf(inp, key) == ContentOf(b, key) {
      if key.Listing? {
        assert ContentOf(inp, key).cells == ContentOf(b, key).cells;
      } else if key.NameSlot? {
        assert p in inp.cells || Paths.Key(p) != key.text;
      }
    }
  }

  lemma RemovingCovers(inp: Inputs, p: Path)
    ensures Covers(inp, inp.(cells := inp.cells - {p}), NamespaceKeys(p))
  {
    var b := inp.(cells := inp.cells - {p});
    assert b.Bindings() == inp.Bindings();
    forall key | key !in NamespaceKeys(p) ensures ContentOf(inp, key) == ContentOf(b, key) {
      if key.Listing? {
        assert ContentOf(inp, key).cells == ContentOf(b, key).cells;
      } else if key.NameSlot? {
        assert Paths.Key(p) != key.text;
      }
    }
  }

  lemma CoversBoth(a: Inputs, b: Inputs, c: Inputs, first: set<Key>, second: set<Key>)
    requires Covers(a, b, first) && Covers(b, c, second)
    requires forall key :: OfUnstored(b, key) ==> ContentOf(b, key) == ContentOf(c, key)
    ensures Covers(a, c, first + second)
  {
    forall key | key !in first + second && !OfUnstored(a, key) ensures ContentOf(a, key) == ContentOf(c, key) {
      assert ContentOf(a, key) == ContentOf(b, key);
    }
  }

  function Moved<T>(cells: map<Path, T>, from: Path, to: Path): map<Path, T> {
    if from in cells then (cells - {from})[to := cells[from]] else cells
  }

  lemma MovingCovers(inp: Inputs, from: Path, to: Path)
    ensures Covers(inp, inp.(cells := Moved(inp.cells, from, to)), NamespaceKeys(from) + NamespaceKeys(to))
  {
    if from in inp.cells {
      var emptied := inp.(cells := inp.cells - {from});
      RemovingCovers(inp, from);
      StoringCovers(emptied, to, inp.cells[from]);
      CoversBoth(inp, emptied, inp.(cells := Moved(inp.cells, from, to)), NamespaceKeys(from), StoringKeys(emptied, to));
    }
  }

  lemma BindingNameCovers(inp: Inputs, name: string)
    ensures Covers(inp, inp.(boundNames := inp.boundNames + {name}), {NameSlot(name)})
  {
    hide EffectiveCalc, Diminished, AuthorityChain;
    var b := inp.(boundNames := inp.boundNames + {name});
    var x, y := inp.Bindings(), b.Bindings();
    assert forall s :: s != Symbol(None, name) ==> (s in x <==> s in y) && (s in x ==> x[s] == y[s]);
    forall key | key != NameSlot(name) ensures ContentOf(inp, key) == ContentOf(b, key) {
      if key.NameSlot? {
        assert forall s: Symbol :: s.Text() == key.text ==> s != Symbol(None, name);
        assert ContentOf(inp, key).bound == ContentOf(b, key).bound;
      }
    }
  }

  lemma BindingValueCovers(inp: Inputs, s: Symbol, v: Value)
    ensures Covers(inp, inp.(boundValues := inp.boundValues[s := v]), {NameSlot(s.Text())})
  {
    hide EffectiveCalc, Diminished, AuthorityChain;
    var b := inp.(boundValues := inp.boundValues[s := v]);
    forall key | key != NameSlot(s.Text()) ensures ContentOf(inp, key) == ContentOf(b, key) {
      if key.NameSlot? {
        assert ContentOf(inp, key).bound == ContentOf(b, key).bound;
      }
    }
  }

  function CalcKeys(cells: set<Path>): set<Key> {
    set c | c in cells :: EffectivePolicy(c)
  }

  function AuthorityKeys(cells: set<Path>): set<Key> {
    set c | c in cells :: AuthorityPolicy(c)
  }

  function Below(cells: set<Path>, dir: Path): set<Path> {
    set c | c in cells && dir <= c
  }

  lemma TreeCalcCovers(inp: Inputs, patch: CalcPatch)
    ensures Covers(inp, inp.(treeCalc := patch), CalcKeys(inp.cells.Keys))
  {
    assert inp.(treeCalc := patch).Bindings() == inp.Bindings();
  }

  lemma DirCalcCovers(inp: Inputs, dir: Path, patch: CalcPatch)
    ensures Covers(inp, inp.(dirCalc := inp.dirCalc[dir := patch]), CalcKeys(Below(inp.cells.Keys, dir)))
  {
    var b := inp.(dirCalc := inp.dirCalc[dir := patch]);
    assert b.Bindings() == inp.Bindings();
    forall c | c in inp.cells && !(dir <= c) ensures inp.CalcPolicyOf(c) == b.CalcPolicyOf(c) {
      AncestorsArePrefixes(c, dir);
      DirectoryReach(inp.treeCalc.Apply(DEFAULT_POLICY), Ancestors(c), inp.dirCalc, dir, patch);
    }
  }

  lemma CellCalcCovers(inp: Inputs, cell: Path, patch: CalcPatch)
    ensures Covers(inp, inp.(cellCalc := inp.cellCalc[cell := patch]), {EffectivePolicy(cell)})
  {
    assert inp.(cellCalc := inp.cellCalc[cell := patch]).Bindings() == inp.Bindings();
  }

  lemma TreeAuthorityCovers(inp: Inputs, patch: AuthorityPatch)
    ensures Covers(inp, inp.(treeAuthority := patch), AuthorityKeys(inp.cells.Keys))
  {
    assert inp.(treeAuthority := patch).Bindings() == inp.Bindings();
  }

  lemma DirAuthorityCovers(inp: Inputs, dir: Path, patch: AuthorityPatch)
    ensures Covers(inp, inp.(dirAuthority := inp.dirAuthority[dir := patch]), AuthorityKeys(Below(inp.cells.Keys, dir)))
  {
    var b := inp.(dirAuthority := inp.dirAuthority[dir := patch]);
    assert b.Bindings() == inp.Bindings();
    forall c | c in inp.cells && !(dir <= c) ensures inp.AuthorityOf(c) == b.AuthorityOf(c) {
      AncestorsArePrefixes(c, dir);
      AuthorityReach(Ancestors(c), inp.dirAuthority, dir, patch);
    }
  }

  lemma CellAuthorityCovers(inp: Inputs, cell: Path, patch: AuthorityPatch)
    ensures Covers(inp, inp.(cellAuthority := inp.cellAuthority[cell := patch]), {AuthorityPolicy(cell)})
  {
    assert inp.(cellAuthority := inp.cellAuthority[cell := patch]).Bindings() == inp.Bindings();
  }

  lemma RegistryCovers(inp: Inputs, revision: nat)
    ensures Covers(inp, inp.(codecRegistry := revision), {CodecRegistry})
  {
    assert inp.(codecRegistry := revision).Bindings() == inp.Bindings();
  }
}
