/** What forcing makes a request do. */
module Forcing {
  // A request leaves every memo as it was or up to date, and what it answers is from an
  // up-to-date memo: a forced cell that is answered has been evaluated again.

  import opened Syntax
  import opened Paths
  import opened Evaluation
  import opened Engine
  import opened Freshness

  ghost predicate NotLowered(before: map<Key, nat>, after: map<Key, nat>) {
    forall key :: Revision(before, key) <= Revision(after, key)
  }

  /** No memo is lost, and every memo is as it was or up to date. */
  ghost predicate Updated(revisions: map<Key, nat>, g: Graph, h: Graph) {
    && (forall c :: c in g.nodes ==> c in h.nodes)
    && (forall c :: c in h.nodes ==> (c in g.nodes && h.nodes[c] == g.nodes[c]) || Current(revisions, h.nodes[c]))
  }

  predicate UpToDate(revisions: map<Key, nat>, g: Graph, cell: Path) {
    cell in g.nodes && Current(revisions, g.nodes[cell])
  }

  lemma UpdatedTwice(revisions: map<Key, nat>, g: Graph, mid: Graph, h: Graph)
    requires Updated(revisions, g, mid) && Updated(revisions, mid, h)
    ensures Updated(revisions, g, h)
  {
    hide Current;
  }

  lemma CommitUpdates(w: Run, g: Graph, cell: Path, outcome: Outcome, keys: seq<Key>, deps: seq<Dependency>)
    ensures var h := Commit(w, g, cell, outcome, keys, deps); Updated(w.revisions, g, h) && UpToDate(w.revisions, h, cell)
  {
  }

  lemma {:induction false} VerifyUpdates(w: Run, g: Graph, cell: Path, stack: seq<Path>, fuel: nat)
    ensures var t := Verify(w, g, cell, stack, fuel);
            Updated(w.revisions, g, t.graph) && (t.answer.Some? && cell !in stack ==> UpToDate(w.revisions, t.graph, cell))
    decreases fuel, 2
  {
    hide Current, Reuse, Execute, BodyIn;
    if fuel > 0 && |stack| < w.depthLimit && cell !in stack {
      if cell in g.nodes && Current(w.revisions, g.nodes[cell]) {
        ReuseUpdates(w, g, cell, stack, fuel - 1);
      } else {
        ExecuteUpdates(w, g, cell, stack, [], fuel - 1);
      }
    }
  }

  lemma {:induction false} ReuseUpdates(w: Run, g: Graph, cell: Path, stack: seq<Path>, fuel: nat)
    requires UpToDate(w.revisions, g, cell)
    ensures var t := Reuse(w, g, cell, stack, fuel);
            Updated(w.revisions, g, t.graph) && (t.answer.Some? ==> UpToDate(w.revisions, t.graph, cell))
    decreases fuel, 4
  {
    hide Current, Revalidate, Execute, BodyIn;
    RevalidateUpdates(w, g, g.nodes[cell].deps, stack + [cell], fuel);
    var check := Revalidate(w, g, g.nodes[cell].deps, stack + [cell], fuel);
    if check.same == Some(false) {
      ExecuteUpdates(w, check.graph, cell, stack, [], check.fuel);
      UpdatedTwice(w.revisions, g, check.graph, Execute(w, check.graph, cell, stack, [], check.fuel).graph);
    }
  }

  lemma {:induction false} RevalidateUpdates(w: Run, g: Graph, deps: seq<Dependency>, stack: seq<Path>, fuel: nat)
    ensures Updated(w.revisions, g, Revalidate(w, g, deps, stack, fuel).graph)
    decreases fuel, 3
  {
    hide Current, Verify, BodyIn;
    if deps != [] {
      VerifyUpdates(w, g, deps[0].path, stack, fuel);
      var turn := Verify(w, g, deps[0].path, stack, fuel);
      if turn.answer.Some? && turn.answer.value.identity == deps[0].memo.identity {
        RevalidateUpdates(w, turn.graph, deps[1..], stack, turn.fuel);
        UpdatedTwice(w.revisions, g, turn.graph, Revalidate(w, turn.graph, deps[1..], stack, turn.fuel).graph);
      }
    }
  }

  lemma {:induction false} ExecuteUpdates(w: Run, g: Graph, cell: Path, stack: seq<Path>, deps: seq<Dependency>, fuel: nat)
    ensures var t := Execute(w, g, cell, stack, deps, fuel);
            Updated(w.revisions, g, t.graph) && (t.answer.Some? ==> UpToDate(w.revisions, t.graph, cell))
    decreases fuel, 3
  {
    hide Current, Verify, BodyIn, Commit;
    match BodyIn(w, cell, deps)
    case Need(target, _) =>
      VerifyUpdates(w, g, target, stack + [cell], fuel);
      var turn := Verify(w, g, target, stack + [cell], fuel);
      if turn.answer.Some? {
        var more := deps + [Dependency(target, turn.answer.value)];
        ExecuteUpdates(w, turn.graph, cell, stack, more, turn.fuel);
        UpdatedTwice(w.revisions, g, turn.graph, Execute(w, turn.graph, cell, stack, more, turn.fuel).graph);
      }
    case Done(outcome, fr) =>
      CommitUpdates(w, g, cell, outcome, fr.keys, deps);
  }

  /** The memo was made after its force epoch was raised. */
  ghost predicate Redone(before: map<Key, nat>, g: Graph, cell: Path) {
    cell in g.nodes && exists i :: 0 <= i < |g.nodes[cell].seen| && g.nodes[cell].seen[i].key == ForceEpoch(cell)
                                   && Revision(before, ForceEpoch(cell)) < g.nodes[cell].seen[i].revision
  }

  /** An up-to-date memo of a forced cell was made after the forcing. */
  lemma RedoneNow(k: Kernel, inp: Inputs, before: map<Key, nat>, forced: map<Key, nat>, revisions: map<Key, nat>, g: Graph, cell: Path)
    requires AtRest(k, inp, revisions, g) && UpToDate(forced, g, cell)
    requires Revision(before, ForceEpoch(cell)) < Revision(forced, ForceEpoch(cell))
    ensures Redone(before, g, cell)
  {
    assert NodeTidy(Run(k, inp, revisions, Request(false, {}), 0), g, cell, g.nodes[cell]);
    assert Sees(g.nodes[cell], ForceEpoch(cell));
    var i :| 0 <= i < |g.nodes[cell].seen| && g.nodes[cell].seen[i].key == ForceEpoch(cell);
    assert g.nodes[cell].seen[i] in g.nodes[cell].seen;
  }

  /** Later requests leave it so. */
  lemma RedoneStays(k: Kernel, inp: Inputs, before: map<Key, nat>, forced: map<Key, nat>, revisions: map<Key, nat>, g: Graph, h: Graph, cell: Path)
    requires AtRest(k, inp, revisions, h) && Redone(before, g, cell) && Updated(forced, g, h)
    requires Revision(before, ForceEpoch(cell)) < Revision(forced, ForceEpoch(cell))
    ensures Redone(before, h, cell)
  {
    hide AtRest, Current;
    if h.nodes[cell] != g.nodes[cell] {
      RedoneNow(k, inp, before, forced, revisions, h, cell);
    }
  }
}
