/** Where a block comes from. */
module BlockOrigins {
  // A block that a request answers is always one of this very request: it names a
  // cell that its own trigger blocks here, or a cycle under a policy that blocks.

  import opened Syntax
  import opened Paths
  import opened Policy
  import opened Evaluation
  import opened EvaluationFacts
  import opened Engine

  /** A block is explained by the policy of the cell it names. */
  predicate Explained(w: Run, o: Outcome) {
    o.Failed? && o.failure.Blocked? ==>
      var cell := o.failure.path;
      || BlockReason(w.inputs.CalcPolicyOf(cell).trigger, w.request.automatic, Directed(w, cell)) == Some(o.failure.reason)
      || (o.failure.reason == CYCLE_REASON && w.inputs.CalcPolicyOf(cell).cycleMode == BlockCell)
  }

  ghost predicate AllExplained(w: Run, g: Graph) {
    forall c :: c in g.nodes && Current(w.revisions, g.nodes[c]) ==> Explained(w, g.nodes[c].memo.outcome)
  }

  ghost predicate AnswersExplained(w: Run, deps: seq<Dependency>) {
    forall i :: 0 <= i < |deps| ==> Explained(w, deps[i].memo.outcome)
  }

  /** Preparation makes up no block and no cycle: one it ends in is the answer to a read. */
  ghost predicate BlockIsAnswer<T>(r: Step<T>, answers: seq<Read>) {
    r.Abort? && (r.failure.Blocked? || r.failure.Cycle?) ==> exists i :: 0 <= i < |answers| && answers[i].outcome == Failed(r.failure)
  }

  lemma {:induction false} PrepareMakesNoBlock(k: Kernel, inp: Inputs, caller: Path, e: Expr, depth: nat, fr: Frame, answers: seq<Read>)
    ensures BlockIsAnswer(Prepare(k, inp, caller, e, depth, fr, answers), answers)
    decreases e
  {
    if depth <= MAX_EXPR_DEPTH && !e.Sym? && !IsReference(e) && IsWalked(e) {
      ItemsMakeNoBlock(k, inp, caller, e, Walked(e), depth + 1, fr, answers);
    }
  }

  lemma {:induction false} ItemsMakeNoBlock(k: Kernel, inp: Inputs, caller: Path, context: Expr, items: seq<Expr>, depth: nat, fr: Frame, answers: seq<Read>)
    requires forall i :: 0 <= i < |items| ==> items[i] < context
    ensures BlockIsAnswer(PrepareItems(k, inp, caller, context, items, depth, fr, answers), answers)
    decreases context, |items|
  {
    if items != [] {
      PrepareMakesNoBlock(k, inp, caller, items[0], depth, fr, answers);
      var first := Prepare(k, inp, caller, items[0], depth, fr, answers);
      if first.Go? {
        ItemsMakeNoBlock(k, inp, caller, context, items[1..], depth, first.frame, answers);
      }
    }
  }

  /** What a cell's evaluation ends in is explained if its answers are. */
  lemma BodyExplained(w: Run, cell: Path, deps: seq<Dependency>)
    requires AnswersExplained(w, deps)
    ensures var r := BodyIn(w, cell, deps); r.Done? ==> Explained(w, r.outcome)
  {
    forall e, fr ensures BlockIsAnswer(Prepare(w.kernel, w.inputs, cell, e, 0, fr, Plain(deps)), Plain(deps)) {
      PrepareMakesNoBlock(w.kernel, w.inputs, cell, e, 0, fr, Plain(deps));
    }
    hide Prepare, Environment, Names;
  }

  lemma {:induction false} VerifyExplained(w: Run, g: Graph, cell: Path, stack: seq<Path>, fuel: nat)
    requires AllExplained(w, g)
    ensures var t := Verify(w, g, cell, stack, fuel); AllExplained(w, t.graph) && (t.answer.Some? ==> Explained(w, t.answer.value.outcome))
    decreases fuel, 2
  {
    hide BodyIn, Reuse, Execute;
    if fuel > 0 && |stack| < w.depthLimit && cell !in stack {
      if cell in g.nodes && Current(w.revisions, g.nodes[cell]) {
        ReuseExplained(w, g, cell, stack, fuel - 1);
      } else {
        ExecuteExplained(w, g, cell, stack, [], fuel - 1);
      }
    }
  }

  lemma {:induction false} ReuseExplained(w: Run, g: Graph, cell: Path, stack: seq<Path>, fuel: nat)
    requires AllExplained(w, g) && cell in g.nodes && Current(w.revisions, g.nodes[cell])
    ensures var t := Reuse(w, g, cell, stack, fuel); AllExplained(w, t.graph) && (t.answer.Some? ==> Explained(w, t.answer.value.outcome))
    decreases fuel, 4
  {
    hide BodyIn, Execute, Verify;
    RevalidateExplained(w, g, g.nodes[cell].deps, stack + [cell], fuel);
    var check := Revalidate(w, g, g.nodes[cell].deps, stack + [cell], fuel);
    if check.same == Some(false) {
      ExecuteExplained(w, check.graph, cell, stack, [], check.fuel);
    }
  }

  lemma {:induction false} RevalidateExplained(w: Run, g: Graph, deps: seq<Dependency>, stack: seq<Path>, fuel: nat)
    requires AllExplained(w, g)
    ensures AllExplained(w, Revalidate(w, g, deps, stack, fuel).graph)
    decreases fuel, 3
  {
    hide BodyIn, Execute, Reuse;
    if deps != [] {
      VerifyExplained(w, g, deps[0].path, stack, fuel);
      var turn := Verify(w, g, deps[0].path, stack, fuel);
      if turn.answer.Some? && turn.answer.value.identity == deps[0].memo.identity {
        RevalidateExplained(w, turn.graph, deps[1..], stack, turn.fuel);
      }
    }
  }

  lemma {:induction false} ExecuteExplained(w: Run, g: Graph, cell: Path, stack: seq<Path>, deps: seq<Dependency>, fuel: nat)
    requires AllExplained(w, g) && AnswersExplained(w, deps)
    ensures var t := Execute(w, g, cell, stack, deps, fuel); AllExplained(w, t.graph) && (t.answer.Some? ==> Explained(w, t.answer.value.outcome))
    decreases fuel, 3
  {
    BodyExplained(w, cell, deps);
    hide BodyIn, Reuse, Revalidate, Explained;
    var r := BodyIn(w, cell, deps);
    if r.Need? {
      VerifyExplained(w, g, r.target, stack + [cell], fuel);
      var turn := Verify(w, g, r.target, stack + [cell], fuel);
      if turn.answer.Some? {
        ExecuteExplained(w, turn.graph, cell, stack, deps + [Dependency(r.target, turn.answer.value)], turn.fuel);
      }
    }
  }
}
