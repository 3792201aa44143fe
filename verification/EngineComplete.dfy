/** The engine is complete. */
module EngineComplete {
  // A cell that has a derivation is never answered with anything else, unless a
  // trigger blocks the cell itself or a cell it reads.

  import opened Syntax
  import opened Paths
  import opened Policy
  import opened Evaluation
  import opened EvaluationFacts
  import opened Engine

  /** The cell's trigger does not block it in this request. */
  predicate Open(w: Run, cell: Path) {
    BlockReason(w.inputs.CalcPolicyOf(cell).trigger, w.request.automatic, Directed(w, cell)).None?
  }

  /** No cell of the derivation is blocked: neither its own nor one it reads. */
  predicate OpenIn(w: Run, d: Derivation)
    decreases d
  {
    Open(w, d.cell) && forall i :: 0 <= i < |d.subs| ==> OpenIn(w, d.subs[i])
  }

  /** Tidy, and no stored cell's current memo is a block. */
  ghost predicate Clean(w: Run, g: Graph) {
    && Tidy(w, g)
    && forall c :: c in g.nodes && c in w.inputs.cells && Current(w.revisions, g.nodes[c]) ==>
         Grounded(w.kernel, w.inputs, c, g.nodes[c])
  }

  /** Every cell on the stack has a derivation that properly contains d. */
  ghost predicate Within(w: Run, stack: seq<Path>, ds: seq<Derivation>, d: Derivation) {
    && |ds| == |stack|
    && forall i :: 0 <= i < |ds| ==> Justified(w.kernel, w.inputs, ds[i]) && ds[i].cell == stack[i] && d < ds[i]
  }

  ghost predicate TurnComplete(w: Run, g: Graph, t: Turn, outcome: Outcome) {
    && Clean(w, t.graph) && Extends(g, t.graph)
    && (t.answer.Some? ==> MemoOk(t.graph.issued, t.answer.value) && t.answer.value.outcome == outcome)
  }

  /** The answers so far are those of the first subtrees. */
  ghost predicate Follows(deps: seq<Dependency>, n: nat, d: Derivation) {
    n <= |deps| && n <= |d.subs| && forall i :: 0 <= i < n ==> Plain(deps)[i] == Answers(d.subs)[i]
  }

  lemma OpenBody(w: Run, cell: Path, deps: seq<Dependency>)
    requires Open(w, cell) && cell in w.inputs.cells
    ensures BodyIn(w, cell, deps) == Body(w.kernel, w.inputs, false, true, cell, Plain(deps))
  {
  }

  /** A run that follows a derivation asks for its next subtree, or is done. */
  lemma RunFollows(w: Run, deps: seq<Dependency>, d: Derivation)
    requires Justified(w.kernel, w.inputs, d) && Follows(deps, |deps|, d)
    ensures var r := Body(w.kernel, w.inputs, false, true, d.cell, Plain(deps));
            if |deps| < |d.subs| then r.Need? && r.target == d.subs[|deps|].cell && r.frame.used == |deps|
            else r.Done? && r.outcome == d.outcome && r.frame.used == |deps|
  {
    SubtreesInOrder(w.kernel, w.inputs, d, |deps|);
    assert Plain(deps) == Answers(d.subs)[..|deps|];
    if |deps| == |d.subs| {
      assert Answers(d.subs)[..|deps|] == Answers(d.subs);
    }
  }

  lemma OpenRunFollows(w: Run, deps: seq<Dependency>, d: Derivation)
    requires Justified(w.kernel, w.inputs, d) && OpenIn(w, d) && Follows(deps, |deps|, d)
    ensures var r := BodyIn(w, d.cell, deps);
            if |deps| < |d.subs| then r.Need? && r.target == d.subs[|deps|].cell && r.frame.used == |deps|
            else r.Done? && r.outcome == d.outcome && r.frame.used == |deps|
  {
    OpenBody(w, d.cell, deps);
    RunFollows(w, deps, d);
  }

  /** A memo grounded in the present reads, where it has followed the derivation
      so far, the derivation's next subtree. */
  lemma NextReadMatches(w: Run, deps: seq<Dependency>, n: nat, d: Derivation)
    requires Justified(w.kernel, w.inputs, d) && Follows(deps, n, d) && n < |deps|
    requires Body(w.kernel, w.inputs, false, true, d.cell, Plain(deps)).frame.used == |deps|
    ensures n < |d.subs| && deps[n].path == d.subs[n].cell
  {
    BodyCut(w.kernel, w.inputs, false, true, d.cell, Plain(deps), n);
    SubtreesInOrder(w.kernel, w.inputs, d, n);
    assert Plain(deps)[..n] == Answers(d.subs)[..n];
  }

  /** Answering the next subtree's read keeps following the derivation. */
  lemma NextAnswer(g: Graph, h: Graph, deps: seq<Dependency>, d: Derivation, m: Memo)
    requires DepsOk(g.issued, deps) && Extends(g, h) && MemoOk(h.issued, m)
    requires Follows(deps, |deps|, d) && |deps| < |d.subs| && m.outcome == d.subs[|deps|].outcome
    ensures var more := deps + [Dependency(d.subs[|deps|].cell, m)];
            DepsOk(h.issued, more) && Follows(more, |more|, d)
  {
  }

  lemma WithinSubtree(w: Run, stack: seq<Path>, ds: seq<Derivation>, d: Derivation, i: nat)
    requires Justified(w.kernel, w.inputs, d) && Within(w, stack, ds, d) && i < |d.subs|
    ensures Within(w, stack + [d.cell], ds + [d], d.subs[i])
    ensures Justified(w.kernel, w.inputs, d.subs[i])
  {
  }

  /** A cell with a derivation is not among the cells that wait for it. */
  lemma NoFalseCycle(w: Run, stack: seq<Path>, ds: seq<Derivation>, d: Derivation)
    requires Justified(w.kernel, w.inputs, d) && Within(w, stack, ds, d)
    ensures d.cell !in stack
  {
    if d.cell in stack {
      var i :| 0 <= i < |stack| && stack[i] == d.cell;
      DerivationsAgree(w.kernel, w.inputs, d, ds[i]);
      assert false;
    }
  }

  lemma CommitClean(w: Run, g: Graph, cell: Path, deps: seq<Dependency>)
    requires Clean(w, g) && Open(w, cell) && cell in w.inputs.cells && DepsOk(g.issued, deps)
    requires BodyIn(w, cell, deps).Done? && BodyIn(w, cell, deps).frame.used == |deps|
    ensures var r := BodyIn(w, cell, deps);
            var h := Commit(w, g, cell, r.outcome, r.frame.keys, deps);
            Clean(w, h) && Extends(g, h) && MemoOk(h.issued, Seal(r.outcome, g.issued))
  {
    CommitTidy(w, g, cell, deps);
    OpenBody(w, cell, deps);
    CommittedIsGrounded(w, g, cell, deps);
  }

  lemma CommittedIsGrounded(w: Run, g: Graph, cell: Path, deps: seq<Dependency>)
    requires var r := Body(w.kernel, w.inputs, false, true, cell, Plain(deps)); r.Done? && r.frame.used == |deps|
    ensures var r := Body(w.kernel, w.inputs, false, true, cell, Plain(deps));
            Grounded(w.kernel, w.inputs, cell, Commit(w, g, cell, r.outcome, r.frame.keys, deps).nodes[cell])
  {
    var r := Body(w.kernel, w.inputs, false, true, cell, Plain(deps));
    CommittedSees(w, g, cell, r.outcome, r.frame.keys, deps);
    hide Body, Sees;
  }

  lemma {:induction false} VerifyComplete(w: Run, g: Graph, cell: Path, stack: seq<Path>, fuel: nat, d: Derivation, ds: seq<Derivation>)
    requires Clean(w, g) && OpenIn(w, d)
    requires Justified(w.kernel, w.inputs, d) && d.cell == cell && Within(w, stack, ds, d)
    ensures TurnComplete(w, g, Verify(w, g, cell, stack, fuel), d.outcome)
    decreases fuel, 2
  {
    hide Clean, Within, Body, BodyIn, Reuse, Execute, Revalidate, Justified;
    NoFalseCycle(w, stack, ds, d);
    if fuel == 0 || |stack| >= w.depthLimit {
    } else if cell in g.nodes && Current(w.revisions, g.nodes[cell]) {
      ReuseComplete(w, g, stack, fuel - 1, d, ds);
    } else {
      ExecuteComplete(w, g, stack, [], fuel - 1, d, ds);
    }
  }

  lemma {:induction false} ReuseComplete(w: Run, g: Graph, stack: seq<Path>, fuel: nat, d: Derivation, ds: seq<Derivation>)
    requires Clean(w, g) && OpenIn(w, d)
    requires Justified(w.kernel, w.inputs, d) && Within(w, stack, ds, d)
    requires d.cell in g.nodes && Current(w.revisions, g.nodes[d.cell])
    ensures TurnComplete(w, g, Reuse(w, g, d.cell, stack, fuel), d.outcome)
    decreases fuel, 4
  {
    hide Within, Body, Execute, Verify, Revalidate;
    var node := g.nodes[d.cell];
    assert Grounded(w.kernel, w.inputs, d.cell, node);
    assert MemosOk(g.issued, node) by { assert NodeTidy(w, g, d.cell, node); }
    RevalidateComplete(w, g, node.deps, 0, stack, fuel, d, ds);
    var check := Revalidate(w, g, node.deps, stack + [d.cell], fuel);
    assert node.deps[0..] == node.deps;
    if check.same == Some(true) {
      RunFollows(w, node.deps, d);
    } else if check.same == Some(false) {
      ExecuteComplete(w, check.graph, stack, [], check.fuel, d, ds);
      ExtendsTransitively(g, check.graph, Execute(w, check.graph, d.cell, stack, [], check.fuel).graph);
    }
  }

  lemma {:induction false} RevalidateComplete(w: Run, g: Graph, deps: seq<Dependency>, n: nat, stack: seq<Path>, fuel: nat, d: Derivation, ds: seq<Derivation>)
    requires Clean(w, g) && OpenIn(w, d) && DepsOk(g.issued, deps)
    requires Justified(w.kernel, w.inputs, d) && Within(w, stack, ds, d)
    requires Follows(deps, n, d)
    requires Body(w.kernel, w.inputs, false, true, d.cell, Plain(deps)).frame.used == |deps|
    ensures var c := Revalidate(w, g, deps[n..], stack + [d.cell], fuel);
            Clean(w, c.graph) && Extends(g, c.graph) && (c.same == Some(true) ==> Follows(deps, |deps|, d))
    decreases fuel, 3
  {
    if n < |deps| {
      NextReadMatches(w, deps, n, d);
      WithinSubtree(w, stack, ds, d, n);
      var turn := Verify(w, g, deps[n].path, stack + [d.cell], fuel);
      VerifyComplete(w, g, deps[n].path, stack + [d.cell], fuel, d.subs[n], ds + [d]);
      assert deps[n..][0] == deps[n] && deps[n..][1..] == deps[n + 1..];
      if turn.answer.Some? && turn.answer.value.identity == deps[n].memo.identity {
        assert MemoOk(turn.graph.issued, deps[n].memo);
        RevalidateComplete(w, turn.graph, deps, n + 1, stack, turn.fuel, d, ds);
        ExtendsTransitively(g, turn.graph, Revalidate(w, turn.graph, deps[n + 1..], stack + [d.cell], turn.fuel).graph);
      }
    }
  }

  lemma {:induction false} ExecuteComplete(w: Run, g: Graph, stack: seq<Path>, deps: seq<Dependency>, fuel: nat, d: Derivation, ds: seq<Derivation>)
    requires Clean(w, g) && OpenIn(w, d) && DepsOk(g.issued, deps)
    requires Justified(w.kernel, w.inputs, d) && Within(w, stack, ds, d)
    requires Follows(deps, |deps|, d)
    ensures TurnComplete(w, g, Execute(w, g, d.cell, stack, deps, fuel), d.outcome)
    decreases fuel, 3
  {
    OpenRunFollows(w, deps, d);
    var n := |deps|;
    hide Clean, Within, Body, BodyIn, Reuse, Verify, Revalidate, Follows, DepsOk, MemoOk;
    if n < |d.subs| {
      WithinSubtree(w, stack, ds, d, n);
      var turn := Verify(w, g, d.subs[n].cell, stack + [d.cell], fuel);
      VerifyComplete(w, g, d.subs[n].cell, stack + [d.cell], fuel, d.subs[n], ds + [d]);
      if turn.answer.Some? {
        var more := deps + [Dependency(d.subs[n].cell, turn.answer.value)];
        NextAnswer(g, turn.graph, deps, d, turn.answer.value);
        ExecuteComplete(w, turn.graph, stack, more, turn.fuel, d, ds);
        ExtendsTransitively(g, turn.graph, Execute(w, turn.graph, d.cell, stack, more, turn.fuel).graph);
      }
    } else if fuel > 0 {
      CommitClean(w, g, d.cell, deps);
    }
  }
}
