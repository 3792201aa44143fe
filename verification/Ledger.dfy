/** What a request leaves behind. */
module Ledger {
  // Every evaluation a request makes is entered as an attempt, the last one on a cell is
  // what the cell is left with, and there are no more of them than the work allows.

  import opened Syntax
  import opened Paths
  import opened Evaluation
  import opened Engine

  ghost predicate LastIs(attempts: seq<Attempt>, cell: Path, o: Outcome) {
    exists i :: 0 <= i < |attempts| && attempts[i] == Attempt(cell, o) && forall j :: i < j < |attempts| ==> attempts[j].cell != cell
  }

  ghost predicate Tries(attempts: seq<Attempt>, cell: Path) {
    exists i :: 0 <= i < |attempts| && attempts[i].cell == cell
  }

  /** The cell holds the outcome of the last of these attempts on it; without one, it is
      as it was. */
  ghost predicate EnteredAt(g: Graph, h: Graph, attempts: seq<Attempt>, cell: Path) {
    if Tries(attempts, cell) then cell in h.nodes && LastIs(attempts, cell, h.nodes[cell].memo.outcome)
    else (cell in h.nodes <==> cell in g.nodes) && (cell in h.nodes ==> h.nodes[cell] == g.nodes[cell])
  }

  ghost predicate Entered(g: Graph, h: Graph) {
    g.attempts <= h.attempts && forall cell {:trigger EnteredAt(g, h, h.attempts[|g.attempts|..], cell)} ::
      EnteredAt(g, h, h.attempts[|g.attempts|..], cell)
  }

  lemma NothingEntered(g: Graph)
    ensures Entered(g, g)
  {
  }

  lemma {:induction false} LastOfBoth(a: seq<Attempt>, b: seq<Attempt>, cell: Path, o: Outcome)
    ensures Tries(a + b, cell) <==> Tries(a, cell) || Tries(b, cell)
    ensures LastIs(b, cell, o) ==> LastIs(a + b, cell, o)
    ensures LastIs(a, cell, o) && !Tries(b, cell) ==> LastIs(a + b, cell, o)
  {
    var c := a + b;
    assert forall i :: 0 <= i < |a| ==> c[i] == a[i];
    assert forall i :: 0 <= i < |b| ==> c[|a| + i] == b[i];
    if i :| 0 <= i < |c| && c[i].cell == cell {
      if i < |a| {
        assert a[i].cell == cell;
      } else {
        assert b[i - |a|].cell == cell;
      }
    }
    if i :| 0 <= i < |b| && b[i] == Attempt(cell, o) && forall j :: i < j < |b| ==> b[j].cell != cell {
      assert c[|a| + i] == Attempt(cell, o);
      forall j | |a| + i < j < |c| ensures c[j].cell != cell {
        assert c[j] == b[j - |a|];
      }
    }
    if i :| 0 <= i < |a| && a[i] == Attempt(cell, o) && forall j :: i < j < |a| ==> a[j].cell != cell {
      if !Tries(b, cell) {
        assert c[i] == Attempt(cell, o);
        forall j | i < j < |c| ensures c[j].cell != cell {
          if j >= |a| {
            assert c[j] == b[j - |a|];
          }
        }
      }
    }
  }

  lemma EnteredTwice(g: Graph, mid: Graph, h: Graph)
    requires Entered(g, mid) && Entered(mid, h)
    ensures Entered(g, h)
  {
    var a, b, both := mid.attempts[|g.attempts|..], h.attempts[|mid.attempts|..], h.attempts[|g.attempts|..];
    assert both == a + b;
    hide LastIs, Tries;
    forall cell ensures EnteredAt(g, h, both, cell) {
      assert EnteredAt(g, mid, a, cell) && EnteredAt(mid, h, b, cell);
      LastOfBoth(a, b, cell, if cell in h.nodes then h.nodes[cell].memo.outcome else Failed(Cycle([])));
    }
  }

  lemma CommitEnters(w: Run, g: Graph, cell: Path, outcome: Outcome, keys: seq<Key>, deps: seq<Dependency>)
    ensures Entered(g, Commit(w, g, cell, outcome, keys, deps))
    ensures |Commit(w, g, cell, outcome, keys, deps).attempts| == |g.attempts| + 1
  {
    var h := Commit(w, g, cell, outcome, keys, deps);
    var news := h.attempts[|g.attempts|..];
    assert news == [Attempt(cell, outcome)];
    assert h.nodes[cell].memo.outcome == outcome;
    forall c ensures EnteredAt(g, h, news, c) {
      if c == cell {
        assert news[0].cell == c;
      }
    }
  }

  /** The attempts made and the work left are covered by the work there was. */
  ghost predicate Within(g: Graph, h: Graph, left: nat, fuel: nat) {
    Entered(g, h) && |h.attempts| - |g.attempts| + left <= fuel
  }

  lemma WithinBoth(g: Graph, mid: Graph, h: Graph, left: nat, between: nat, fuel: nat)
    requires Within(g, mid, between, fuel) && Within(mid, h, left, between)
    ensures Within(g, h, left, fuel)
  {
    EnteredTwice(g, mid, h);
    hide EnteredAt;
  }

  lemma WithinMore(g: Graph, h: Graph, left: nat, fuel: nat, more: nat)
    requires Within(g, h, left, fuel) && fuel <= more
    ensures Within(g, h, left, more)
  {
  }

  /** A verification enters every evaluation it makes, and makes no more of them than the
      work it was given. */
  lemma {:induction false} VerifyEnters(w: Run, g: Graph, cell: Path, stack: seq<Path>, fuel: nat)
    ensures var t := Verify(w, g, cell, stack, fuel); Within(g, t.graph, t.fuel, fuel)
    decreases fuel, 2
  {
    hide Current, Reuse, Execute, Entered, BodyIn;
    NothingEntered(g);
    if fuel == 0 || |stack| >= w.depthLimit || cell in stack {
    } else if cell in g.nodes && Current(w.revisions, g.nodes[cell]) {
      ReuseEnters(w, g, cell, stack, fuel - 1);
      WithinMore(g, Reuse(w, g, cell, stack, fuel - 1).graph, Reuse(w, g, cell, stack, fuel - 1).fuel, fuel - 1, fuel);
    } else {
      ExecuteEnters(w, g, cell, stack, [], fuel - 1);
      WithinMore(g, Execute(w, g, cell, stack, [], fuel - 1).graph, Execute(w, g, cell, stack, [], fuel - 1).fuel, fuel - 1, fuel);
    }
  }

  lemma {:induction false} ReuseEnters(w: Run, g: Graph, cell: Path, stack: seq<Path>, fuel: nat)
    requires cell in g.nodes
    ensures var t := Reuse(w, g, cell, stack, fuel); Within(g, t.graph, t.fuel, fuel)
    decreases fuel, 4
  {
    hide Revalidate, Execute, Within, BodyIn;
    RevalidateEnters(w, g, g.nodes[cell].deps, stack + [cell], fuel);
    var check := Revalidate(w, g, g.nodes[cell].deps, stack + [cell], fuel);
    if check.same.None? {
      LeftOver(g, check.graph, check.fuel, fuel);
    } else if check.same == Some(false) {
      ExecuteEnters(w, check.graph, cell, stack, [], check.fuel);
      var t := Execute(w, check.graph, cell, stack, [], check.fuel);
      WithinBoth(g, check.graph, t.graph, t.fuel, check.fuel, fuel);
    }
  }

  /** Work may be dropped. */
  lemma LeftOver(g: Graph, h: Graph, left: nat, fuel: nat)
    requires Within(g, h, left, fuel)
    ensures Within(g, h, 0, fuel)
  {
  }

  lemma {:induction false} RevalidateEnters(w: Run, g: Graph, deps: seq<Dependency>, stack: seq<Path>, fuel: nat)
    ensures var c := Revalidate(w, g, deps, stack, fuel); Within(g, c.graph, c.fuel, fuel)
    decreases fuel, 3
  {
    hide Verify, Within, BodyIn;
    if deps == [] {
      NothingYet(g, fuel);
    } else {
      VerifyEnters(w, g, deps[0].path, stack, fuel);
      var turn := Verify(w, g, deps[0].path, stack, fuel);
      if turn.answer.None? {
        LeftOver(g, turn.graph, turn.fuel, fuel);
      } else if turn.answer.value.identity == deps[0].memo.identity {
        RevalidateEnters(w, turn.graph, deps[1..], stack, turn.fuel);
        var rest := Revalidate(w, turn.graph, deps[1..], stack, turn.fuel);
        WithinBoth(g, turn.graph, rest.graph, rest.fuel, turn.fuel, fuel);
      }
    }
  }

  lemma NothingYet(g: Graph, fuel: nat)
    ensures Within(g, g, fuel, fuel) && Within(g, g, 0, fuel)
  {
    NothingEntered(g);
  }

  lemma {:induction false} ExecuteEnters(w: Run, g: Graph, cell: Path, stack: seq<Path>, deps: seq<Dependency>, fuel: nat)
    ensures var t := Execute(w, g, cell, stack, deps, fuel); Within(g, t.graph, t.fuel, fuel)
    decreases fuel, 3
  {
    hide Verify, Commit, BodyIn, Entered;
    var r := BodyIn(w, cell, deps);
    if r.Need? {
      hide Within;
      VerifyEnters(w, g, r.target, stack + [cell], fuel);
      var turn := Verify(w, g, r.target, stack + [cell], fuel);
      if turn.answer.None? {
        LeftOver(g, turn.graph, turn.fuel, fuel);
      } else {
        var more := deps + [Dependency(r.target, turn.answer.value)];
        ExecuteEnters(w, turn.graph, cell, stack, more, turn.fuel);
        var t := Execute(w, turn.graph, cell, stack, more, turn.fuel);
        WithinBoth(g, turn.graph, t.graph, t.fuel, turn.fuel, fuel);
      }
    } else {
      NothingYet(g, fuel);
      CommitEnters(w, g, cell, r.outcome, r.frame.keys, deps);
    }
  }
}
