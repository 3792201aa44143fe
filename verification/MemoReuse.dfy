/** When nothing is evaluated. */
module MemoReuse {
  // A cell whose memo, and the memos of all it has read, stand as they were made is
  // answered from its memo: no cell is evaluated, and nothing in the graph changes.

  import opened Syntax
  import opened Paths
  import opened Evaluation
  import opened Engine
  import opened EngineProgress

  /** The memos under this cell stand as the tree says: each is current, and was made
      from the memos its reads have now. */
  ghost predicate Stands(w: Run, g: Graph, d: Derivation)
    decreases d
  {
    && d.cell in g.nodes && Current(w.revisions, g.nodes[d.cell]) && g.nodes[d.cell].memo.outcome == d.outcome
    && |g.nodes[d.cell].deps| == |d.subs|
    && forall i :: 0 <= i < |d.subs| ==> StandsAt(g, d, i) && Stands(w, g, d.subs[i])
  }

  predicate StandsAt(g: Graph, d: Derivation, i: nat)
    requires d.cell in g.nodes && i < |d.subs| && |g.nodes[d.cell].deps| == |d.subs|
  {
    var dep := g.nodes[d.cell].deps[i];
    dep.path == d.subs[i].cell && d.subs[i].cell in g.nodes && g.nodes[d.subs[i].cell].memo.identity == dep.memo.identity
  }

  /** The memos to be looked at. */
  function Size(d: Derivation): nat
    decreases d, |d.subs| + 1
  {
    1 + SizeFrom(d, 0)
  }

  function SizeFrom(d: Derivation, n: nat): nat
    requires n <= |d.subs|
    decreases d, |d.subs| - n
  {
    if n == |d.subs| then 0 else Size(d.subs[n]) + SizeFrom(d, n + 1)
  }

  /** There is one such tree for a cell. */
  lemma {:induction false} StandsOnce(w: Run, g: Graph, x: Derivation, y: Derivation)
    requires Stands(w, g, x) && Stands(w, g, y) && x.cell == y.cell
    ensures x == y
    decreases x
  {
    forall i | 0 <= i < |x.subs| ensures x.subs[i] == y.subs[i] {
      assert StandsAt(g, x, i) && StandsAt(g, y, i);
      StandsOnce(w, g, x.subs[i], y.subs[i]);
    }
    assert x.subs == y.subs;
  }

  /** The cells that wait for this one each have a tree that properly contains its own. */
  ghost predicate Awaited(w: Run, g: Graph, stack: seq<Path>, ds: seq<Derivation>, d: Derivation) {
    && |ds| == |stack|
    && forall i :: 0 <= i < |ds| ==> Stands(w, g, ds[i]) && ds[i].cell == stack[i] && d < ds[i]
  }

  lemma NotWaiting(w: Run, g: Graph, stack: seq<Path>, ds: seq<Derivation>, d: Derivation)
    requires Stands(w, g, d) && Awaited(w, g, stack, ds, d)
    ensures d.cell !in stack
  {
    hide Stands;
    if d.cell in stack {
      var i :| 0 <= i < |stack| && stack[i] == d.cell;
      StandsOnce(w, g, d, ds[i]);
      assert false;
    }
  }

  lemma AwaitedBelow(w: Run, g: Graph, stack: seq<Path>, ds: seq<Derivation>, d: Derivation, n: nat)
    requires Stands(w, g, d) && Awaited(w, g, stack, ds, d) && n < |d.subs|
    ensures Awaited(w, g, stack + [d.cell], ds + [d], d.subs[n]) && Stands(w, g, d.subs[n])
  {
  }

  lemma PartsSmaller(d: Derivation, n: nat)
    requires n < |d.subs|
    ensures SizeFrom(d, n) == Size(d.subs[n]) + SizeFrom(d, n + 1) && Height(d.subs[n]) < Height(d)
  {
    SubtreeWork(d, n);
  }

  /** Where the memos stand, a request looks at each of them once, answers the cell's own
      memo and leaves the graph as it was: no attempt is made. */
  lemma {:induction false} StandingIsReused(w: Run, g: Graph, d: Derivation, stack: seq<Path>, ds: seq<Derivation>, fuel: nat)
    requires Stands(w, g, d) && Awaited(w, g, stack, ds, d)
    requires |stack| + Height(d) <= w.depthLimit && Size(d) <= fuel
    ensures d.cell in g.nodes && Verify(w, g, d.cell, stack, fuel) == Turn(g, fuel - Size(d), Some(g.nodes[d.cell].memo))
    decreases d, |d.subs| + 1
  {
    NotWaiting(w, g, stack, ds, d);
    StandingReads(w, g, d, 0, stack, ds, fuel - 1);
    hide Awaited, Height, Execute, Revalidate, SizeFrom, BodyIn;
    assert g.nodes[d.cell].deps[0..] == g.nodes[d.cell].deps;
  }

  lemma {:induction false} StandingReads(w: Run, g: Graph, d: Derivation, n: nat, stack: seq<Path>, ds: seq<Derivation>, fuel: nat)
    requires Stands(w, g, d) && Awaited(w, g, stack, ds, d) && n <= |d.subs|
    requires |stack| + Height(d) <= w.depthLimit && SizeFrom(d, n) <= fuel
    ensures d.cell in g.nodes && |g.nodes[d.cell].deps| == |d.subs|
    ensures Revalidate(w, g, g.nodes[d.cell].deps[n..], stack + [d.cell], fuel) == Check(g, fuel - SizeFrom(d, n), Some(true))
    decreases d, |d.subs| - n
  {
    var deps := g.nodes[d.cell].deps;
    if n < |d.subs| {
      assert StandsAt(g, d, n);
      AwaitedBelow(w, g, stack, ds, d, n);
      PartsSmaller(d, n);
      hide Stands, Awaited, Height, Verify, BodyIn, Size, SizeFrom;
      StandingIsReused(w, g, d.subs[n], stack + [d.cell], ds + [d], fuel);
      StandingReads(w, g, d, n + 1, stack, ds, fuel - Size(d.subs[n]));
      assert deps[n..][0] == deps[n] && deps[n..][1..] == deps[n + 1..];
    } else {
      assert deps[n..] == [];
    }
  }
}
