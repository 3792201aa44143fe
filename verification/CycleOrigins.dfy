/** Where a cycle comes from. */
module CycleOrigins {
  // A cycle that a request answers is one of the present inputs: every cell on it is
  // stored and asks for the next one, and the last one is on it already.

  import opened Syntax
  import opened Paths
  import opened Policy
  import opened Evaluation
  import opened EvaluationFacts
  import opened Engine
  import opened BlockOrigins

  /** As an explicitly directed root, and answered this much, the cell asks for the target. */
  ghost predicate Asks(w: Run, cell: Path, answers: seq<Read>, target: Path) {
    var r := Body(w.kernel, w.inputs, false, true, cell, answers);
    r.Need? && r.target == target
  }

  /** On some answers to what it read before, the cell asks for the target. */
  ghost predicate AsksFor(w: Run, cell: Path, target: Path) {
    exists answers: seq<Read> :: Asks(w, cell, answers, target)
  }

  ghost predicate Chained(w: Run, path: seq<Path>) {
    forall i :: 0 < i < |path| ==> AsksFor(w, path[i - 1], path[i])
  }

  /** Cells that ask for one another in a row, the last of them met before. */
  ghost predicate ClosesUp(w: Run, path: seq<Path>) {
    |path| > 1 && Chained(w, path) && path[|path| - 1] in path[..|path| - 1]
  }

  ghost predicate Real(w: Run, o: Outcome) {
    o.Failed? && o.failure.Cycle? ==> ClosesUp(w, o.failure.trail)
  }

  /** The identity of a failure is the failure. */
  predicate Named(m: Memo) {
    m.identity.Failing? == m.outcome.Failed? && (m.outcome.Failed? ==> m.identity.failure == m.outcome.failure)
  }

  /** The cell asks for each of these, and they are named. */
  ghost predicate Asked(w: Run, cell: Path, deps: seq<Dependency>) {
    forall i :: 0 <= i < |deps| ==> AsksFor(w, cell, deps[i].path) && Named(deps[i].memo)
  }

  /** A cycle among the outcomes of a node is one of those it read. */
  ghost predicate IsRead(o: Outcome, deps: seq<Dependency>) {
    o.Failed? && o.failure.Cycle? ==> exists i :: 0 <= i < |deps| && deps[i].memo.outcome == o
  }

  ghost predicate Wired(w: Run, g: Graph) {
    forall c :: c in g.nodes && c in w.inputs.cells && Current(w.revisions, g.nodes[c]) ==> WiredAt(w, c, g.nodes[c])
  }

  ghost predicate WiredAt(w: Run, cell: Path, node: Node) {
    Named(node.memo) && Asked(w, cell, node.deps) && IsRead(node.memo.outcome, node.deps)
  }

  ghost predicate AllReal(w: Run, deps: seq<Dependency>) {
    forall i :: 0 <= i < |deps| ==> Real(w, deps[i].memo.outcome)
  }

  /** A cell ends in a cycle only if a read answered it. */
  lemma BodyMakesNoCycle(w: Run, cell: Path, deps: seq<Dependency>)
    ensures var r := BodyIn(w, cell, deps); r.Done? ==> IsRead(r.outcome, deps)
  {
    forall e, fr ensures BlockIsAnswer(Prepare(w.kernel, w.inputs, cell, e, 0, fr, Plain(deps)), Plain(deps)) {
      PrepareMakesNoBlock(w.kernel, w.inputs, cell, e, 0, fr, Plain(deps));
    }
    hide Prepare, Environment, Names;
  }

  lemma AskedIsStored(w: Run, cell: Path, target: Path)
    requires AsksFor(w, cell, target)
    ensures target in w.inputs.cells
  {
    var answers: seq<Read> :| Asks(w, cell, answers, target);
    BodyWaits(w.kernel, w.inputs, false, true, cell, answers);
  }

  lemma OneMoreChained(w: Run, stack: seq<Path>, cell: Path)
    requires Chained(w, stack) && (stack != [] ==> AsksFor(w, stack[|stack| - 1], cell))
    ensures Chained(w, stack + [cell])
  {
    hide AsksFor;
  }

  lemma {:induction false} VerifyReal(w: Run, g: Graph, cell: Path, stack: seq<Path>, fuel: nat)
    requires Wired(w, g) && cell in w.inputs.cells && Chained(w, stack + [cell])
    ensures var t := Verify(w, g, cell, stack, fuel);
            Wired(w, t.graph) && (t.answer.Some? ==> Named(t.answer.value) && Real(w, t.answer.value.outcome))
    decreases fuel, 2
  {
    hide BodyIn, Reuse, Execute, AsksFor, Wired, Chained;
    if fuel > 0 && |stack| < w.depthLimit {
      if cell in stack {
        assert (stack + [cell])[..|stack|] == stack;
      } else if cell in g.nodes && Current(w.revisions, g.nodes[cell]) {
        ReuseReal(w, g, cell, stack, fuel - 1);
      } else {
        ExecuteReal(w, g, cell, stack, [], fuel - 1);
      }
    }
  }

  lemma {:induction false} ReuseReal(w: Run, g: Graph, cell: Path, stack: seq<Path>, fuel: nat)
    requires Wired(w, g) && cell in w.inputs.cells && Chained(w, stack + [cell])
    requires cell in g.nodes && Current(w.revisions, g.nodes[cell])
    ensures var t := Reuse(w, g, cell, stack, fuel);
            Wired(w, t.graph) && (t.answer.Some? ==> Named(t.answer.value) && Real(w, t.answer.value.outcome))
    decreases fuel, 4
  {
    assert WiredAt(w, cell, g.nodes[cell]);
    hide BodyIn, Execute, Verify, Revalidate, AsksFor, Wired, Chained, ClosesUp;
    RevalidateReal(w, g, cell, g.nodes[cell].deps, stack, fuel);
    var check := Revalidate(w, g, g.nodes[cell].deps, stack + [cell], fuel);
    if check.same == Some(false) {
      ExecuteReal(w, check.graph, cell, stack, [], check.fuel);
    }
  }

  lemma {:induction false} RevalidateReal(w: Run, g: Graph, cell: Path, deps: seq<Dependency>, stack: seq<Path>, fuel: nat)
    requires Wired(w, g) && Chained(w, stack + [cell]) && Asked(w, cell, deps)
    ensures var c := Revalidate(w, g, deps, stack + [cell], fuel);
            Wired(w, c.graph) && (c.same == Some(true) ==> AllReal(w, deps))
    decreases fuel, 3
  {
    hide BodyIn, Execute, Reuse, AsksFor, Wired, Chained, Verify, ClosesUp;
    if deps != [] {
      AskedIsStored(w, cell, deps[0].path);
      OneMoreChained(w, stack + [cell], deps[0].path);
      VerifyReal(w, g, deps[0].path, stack + [cell], fuel);
      var turn := Verify(w, g, deps[0].path, stack + [cell], fuel);
      if turn.answer.Some? && turn.answer.value.identity == deps[0].memo.identity {
        RevalidateReal(w, turn.graph, cell, deps[1..], stack, turn.fuel);
      }
    }
  }

  lemma {:induction false} ExecuteReal(w: Run, g: Graph, cell: Path, stack: seq<Path>, deps: seq<Dependency>, fuel: nat)
    requires Wired(w, g) && cell in w.inputs.cells && Chained(w, stack + [cell]) && Asked(w, cell, deps) && AllReal(w, deps)
    ensures var t := Execute(w, g, cell, stack, deps, fuel);
            Wired(w, t.graph) && (t.answer.Some? ==> Named(t.answer.value) && Real(w, t.answer.value.outcome))
    decreases fuel, 3
  {
    BodyMakesNoCycle(w, cell, deps);
    var r := BodyIn(w, cell, deps);
    if r.Need? {
      GateIsOpen(w, cell, deps);
      assert Asks(w, cell, Plain(deps), r.target);
      hide BodyIn, Reuse, Revalidate, Verify, AsksFor, Wired, Chained, ClosesUp;
      AskedIsStored(w, cell, r.target);
      OneMoreChained(w, stack + [cell], r.target);
      VerifyReal(w, g, r.target, stack + [cell], fuel);
      var turn := Verify(w, g, r.target, stack + [cell], fuel);
      if turn.answer.Some? {
        ExecuteReal(w, turn.graph, cell, stack, deps + [Dependency(r.target, turn.answer.value)], turn.fuel);
      }
    } else {
      hide BodyIn, AsksFor, Chained, ClosesUp;
    }
  }

  /** What a memo that the present inputs ground has read, the cell asks for. */
  lemma GroundedIsWired(w: Run, g: Graph, cell: Path, node: Node)
    requires Grounded(w.kernel, w.inputs, cell, node) && MemosOk(g.issued, node)
    ensures WiredAt(w, cell, node)
  {
    forall i | 0 <= i < |node.deps| ensures AsksFor(w, cell, node.deps[i].path) && Named(node.deps[i].memo) {
      BodyCut(w.kernel, w.inputs, false, true, cell, Plain(node.deps), i);
      assert Asks(w, cell, Plain(node.deps)[..i], node.deps[i].path);
    }
    BodyMakesNoCycle(w.(request := Request(false, {cell})), cell, node.deps);
    hide Body;
  }

  /** Between requests every reusable memo is wired. */
  lemma TidyIsWired(v: Run, w: Run, g: Graph)
    requires v.kernel == w.kernel && v.inputs == w.inputs && v.revisions == w.revisions
    requires Tidy(v, g) && g.attempts == []
    ensures Wired(w, g)
  {
    hide WiredAt, Grounded, MemosOk;
    forall c | c in g.nodes && c in w.inputs.cells && Current(w.revisions, g.nodes[c]) ensures WiredAt(w, c, g.nodes[c]) {
      assert NodeTidy(v, g, c, g.nodes[c]);
      GroundedIsWired(w, g, c, g.nodes[c]);
    }
  }
}
