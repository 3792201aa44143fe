/** The engine makes progress. */
module EngineProgress {
  // How much work and depth verifying a cell takes at most, by its derivation and
  // whatever is memoised.  A memo that turns out stale costs its reads twice.

  import opened Syntax
  import opened Paths
  import opened Policy
  import opened Evaluation
  import opened EvaluationFacts
  import opened Engine
  import opened EngineComplete

  /** How deep verifying a derived cell goes. */
  function Height(d: Derivation): nat
    decreases d
  {
    1 + HeightFrom(d, |d.subs|)
  }

  /** The greatest height among the first n subtrees. */
  function HeightFrom(d: Derivation, n: nat): nat
    requires n <= |d.subs|
    decreases d, n
  {
    if n == 0 then 0
    else
      var before, last := HeightFrom(d, n - 1), Height(d.subs[n - 1]);
      if before < last then last else before
  }

  /** How much work it takes at most. */
  function Cost(d: Derivation): nat
    decreases d, |d.subs| + 1
  {
    2 + 2 * CostFrom(d, 0)
  }

  /** The work for the subtrees from the n-th on, each verified once. */
  function CostFrom(d: Derivation, n: nat): nat
    requires n <= |d.subs|
    decreases d, |d.subs| - n
  {
    if n == |d.subs| then 0 else Cost(d.subs[n]) + CostFrom(d, n + 1)
  }

  lemma {:induction false} SubtreeLower(d: Derivation, n: nat, i: nat)
    requires i < n <= |d.subs|
    ensures Height(d.subs[i]) <= HeightFrom(d, n)
  {
    if i < n - 1 {
      SubtreeLower(d, n - 1, i);
    }
  }

  /** What the n-th subtree takes of the whole. */
  lemma SubtreeWork(d: Derivation, n: nat)
    requires n < |d.subs|
    ensures Height(d.subs[n]) < Height(d) && CostFrom(d, n) == Cost(d.subs[n]) + CostFrom(d, n + 1)
  {
    SubtreeLower(d, |d.subs|, n);
  }

  lemma OpenSubtree(w: Run, d: Derivation, i: nat)
    requires OpenIn(w, d) && i < |d.subs|
    ensures OpenIn(w, d.subs[i])
  {
  }

  /** A run that waits for a read verifies it and goes on with the answer. */
  lemma ExecuteAsks(w: Run, g: Graph, cell: Path, stack: seq<Path>, deps: seq<Dependency>, fuel: nat)
    requires BodyIn(w, cell, deps).Need?
    ensures var target := BodyIn(w, cell, deps).target;
            var turn := Verify(w, g, target, stack + [cell], fuel);
            turn.answer.Some? ==>
              Execute(w, g, cell, stack, deps, fuel) == Execute(w, turn.graph, cell, stack, deps + [Dependency(target, turn.answer.value)], turn.fuel)
  {
    hide BodyIn, Verify;
  }

  lemma ExecuteEnds(w: Run, g: Graph, cell: Path, stack: seq<Path>, deps: seq<Dependency>, fuel: nat)
    requires BodyIn(w, cell, deps).Done? && fuel > 0
    ensures var t := Execute(w, g, cell, stack, deps, fuel); t.answer.Some? && t.fuel == fuel - 1
  {
    hide BodyIn;
  }

  lemma {:induction false} VerifyProgress(w: Run, g: Graph, cell: Path, stack: seq<Path>, fuel: nat, d: Derivation, ds: seq<Derivation>)
    requires Clean(w, g) && OpenIn(w, d)
    requires Justified(w.kernel, w.inputs, d) && d.cell == cell && Within(w, stack, ds, d)
    requires |stack| + Height(d) <= w.depthLimit && Cost(d) <= fuel
    ensures var t := Verify(w, g, cell, stack, fuel);
            t.answer.Some? && fuel <= t.fuel + Cost(d) && TurnComplete(w, g, t, d.outcome)
    decreases d, |d.subs| + 3
  {
    hide Clean, Within, Body, BodyIn, Reuse, Execute, Revalidate, Justified, OpenIn;
    VerifyComplete(w, g, cell, stack, fuel, d, ds);
    NoFalseCycle(w, stack, ds, d);
    if cell in g.nodes && Current(w.revisions, g.nodes[cell]) {
      ReuseProgress(w, g, stack, fuel - 1, d, ds);
    } else {
      ExecuteProgress(w, g, stack, [], fuel - 1, d, ds);
    }
  }

  lemma {:induction false} ReuseProgress(w: Run, g: Graph, stack: seq<Path>, fuel: nat, d: Derivation, ds: seq<Derivation>)
    requires Clean(w, g) && OpenIn(w, d)
    requires Justified(w.kernel, w.inputs, d) && Within(w, stack, ds, d)
    requires |stack| + Height(d) <= w.depthLimit && 1 + 2 * CostFrom(d, 0) <= fuel
    requires d.cell in g.nodes && Current(w.revisions, g.nodes[d.cell])
    ensures var t := Reuse(w, g, d.cell, stack, fuel); t.answer.Some? && fuel <= t.fuel + 1 + 2 * CostFrom(d, 0)
    decreases d, |d.subs| + 2
  {
    hide Within, Body, Execute, Verify, Revalidate, OpenIn;
    var node := g.nodes[d.cell];
    assert Grounded(w.kernel, w.inputs, d.cell, node);
    assert MemosOk(g.issued, node) by { assert NodeTidy(w, g, d.cell, node); }
    RevalidateProgress(w, g, node.deps, 0, stack, fuel, d, ds);
    RevalidateComplete(w, g, node.deps, 0, stack, fuel, d, ds);
    var check := Revalidate(w, g, node.deps, stack + [d.cell], fuel);
    assert node.deps[0..] == node.deps;
    if check.same == Some(false) {
      ExecuteProgress(w, check.graph, stack, [], check.fuel, d, ds);
    }
  }

  lemma {:induction false} RevalidateProgress(w: Run, g: Graph, deps: seq<Dependency>, n: nat, stack: seq<Path>, fuel: nat, d: Derivation, ds: seq<Derivation>)
    requires Clean(w, g) && OpenIn(w, d) && DepsOk(g.issued, deps)
    requires Justified(w.kernel, w.inputs, d) && Within(w, stack, ds, d)
    requires Follows(deps, n, d)
    requires Body(w.kernel, w.inputs, false, true, d.cell, Plain(deps)).frame.used == |deps|
    requires |stack| + Height(d) <= w.depthLimit && CostFrom(d, n) <= fuel
    ensures var c := Revalidate(w, g, deps[n..], stack + [d.cell], fuel); c.same.Some? && fuel <= c.fuel + CostFrom(d, n)
    decreases d, |d.subs| - n
  {
    hide Clean, Within, Body, Reuse, Execute, Verify, Justified, OpenIn, Height, HeightFrom, Cost, CostFrom;
    if n < |deps| {
      NextReadMatches(w, deps, n, d);
      OpenSubtree(w, d, n);
      WithinSubtree(w, stack, ds, d, n);
      SubtreeWork(d, n);
      var turn := Verify(w, g, deps[n].path, stack + [d.cell], fuel);
      VerifyProgress(w, g, deps[n].path, stack + [d.cell], fuel, d.subs[n], ds + [d]);
      assert deps[n..][0] == deps[n] && deps[n..][1..] == deps[n + 1..];
      if turn.answer.value.identity == deps[n].memo.identity {
        assert MemoOk(turn.graph.issued, deps[n].memo);
        RevalidateProgress(w, turn.graph, deps, n + 1, stack, turn.fuel, d, ds);
      }
    }
  }

  lemma {:induction false} ExecuteProgress(w: Run, g: Graph, stack: seq<Path>, deps: seq<Dependency>, fuel: nat, d: Derivation, ds: seq<Derivation>)
    requires Clean(w, g) && OpenIn(w, d) && DepsOk(g.issued, deps)
    requires Justified(w.kernel, w.inputs, d) && Within(w, stack, ds, d)
    requires Follows(deps, |deps|, d)
    requires |stack| + Height(d) <= w.depthLimit && 1 + CostFrom(d, |deps|) <= fuel
    ensures var t := Execute(w, g, d.cell, stack, deps, fuel); t.answer.Some? && fuel <= t.fuel + 1 + CostFrom(d, |deps|)
    decreases d, |d.subs| - |deps|
  {
    OpenRunFollows(w, deps, d);
    var n := |deps|;
    assert n <= |d.subs|;
    hide Clean, Within, Body, BodyIn, Reuse, Verify, Revalidate, Execute, Follows, DepsOk, MemoOk, Justified, OpenIn, Commit, Seal, Plain;
    hide Height, HeightFrom, Cost, CostFrom;
    if n < |d.subs| {
      OpenSubtree(w, d, n);
      WithinSubtree(w, stack, ds, d, n);
      SubtreeWork(d, n);
      var turn := Verify(w, g, d.subs[n].cell, stack + [d.cell], fuel);
      VerifyProgress(w, g, d.subs[n].cell, stack + [d.cell], fuel, d.subs[n], ds + [d]);
      ExecuteAsks(w, g, d.cell, stack, deps, fuel);
      NextAnswer(g, turn.graph, deps, d, turn.answer.value);
      ExecuteProgress(w, turn.graph, stack, deps + [Dependency(d.subs[n].cell, turn.answer.value)], turn.fuel, d, ds);
    } else {
      ExecuteEnds(w, g, d.cell, stack, deps, fuel);
    }
  }
}
