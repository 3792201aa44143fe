/** The incremental engine. */
module Engine {
  // The contract of the engine under the calculator, and the first half of its
  // correctness: what it answers is what evaluation from scratch gives.

  import opened Syntax
  import opened Paths
  import opened Policy
  import opened Evaluation
  import opened EvaluationFacts

  /** What two results must share to count as unchanged. */
  datatype Identity = Canonical(expr: Expr) | Volatile(nonce: nat) | Failing(failure: Failure)

  datatype Memo = Memo(outcome: Outcome, identity: Identity)

  datatype Dependency = Dependency(path: Path, memo: Memo)

  datatype Stamp = Stamp(key: Key, revision: nat)

  datatype Node = Node(memo: Memo, seen: seq<Stamp>, deps: seq<Dependency>)

  datatype Attempt = Attempt(cell: Path, outcome: Outcome)

  /** Memo nodes, the volatile results handed out so far (their count is the next
      nonce), and the attempts of the running request. */
  datatype Graph = Graph(nodes: map<Path, Node>, issued: seq<Value>, attempts: seq<Attempt>)

  datatype Request = Request(automatic: bool, directed: set<Path>)

  /** What stays fixed while one request runs. */
  datatype Run = Run(kernel: Kernel, inputs: Inputs, revisions: map<Key, nat>, request: Request, depthLimit: nat)

  datatype Turn = Turn(graph: Graph, fuel: nat, answer: Option<Memo>)

  datatype Check = Check(graph: Graph, fuel: nat, same: Option<bool>)

  function Revision(revisions: map<Key, nat>, key: Key): nat {
    if key in revisions then revisions[key] else 0
  }

  predicate Current(revisions: map<Key, nat>, node: Node) {
    forall s :: s in node.seen ==> s.revision == Revision(revisions, s.key)
  }

  function Plain(deps: seq<Dependency>): (r: seq<Read>)
    ensures |r| == |deps|
    ensures forall i :: 0 <= i < |r| ==> r[i] == Read(deps[i].path, deps[i].memo.outcome)
  {
    seq(|deps|, i requires 0 <= i < |deps| => Read(deps[i].path, deps[i].memo.outcome))
  }

  function Stamps(revisions: map<Key, nat>, keys: seq<Key>): (r: seq<Stamp>)
    ensures |r| == |keys|
    ensures forall i :: 0 <= i < |r| ==> r[i] == Stamp(keys[i], Revision(revisions, keys[i]))
  {
    seq(|keys|, i requires 0 <= i < |keys| => Stamp(keys[i], Revision(revisions, keys[i])))
  }

  function Seal(outcome: Outcome, issued: seq<Value>): Memo {
    match outcome
    case Success(Data(e)) => Memo(outcome, Canonical(e))
    case Success(Opaque(_)) => Memo(outcome, Volatile(|issued|))
    case Failed(f) => Memo(outcome, Failing(f))
  }

  function Issue(outcome: Outcome, issued: seq<Value>): seq<Value> {
    if outcome.Success? && outcome.value.Opaque? then issued + [outcome.value] else issued
  }

  function CycleMemo(stack: seq<Path>, cell: Path): Memo {
    var failure := Cycle(stack + [cell]);
    Memo(Failed(failure), Failing(failure))
  }

  function Commit(w: Run, g: Graph, cell: Path, outcome: Outcome, keys: seq<Key>, deps: seq<Dependency>): Graph {
    Graph(g.nodes[cell := Node(Seal(outcome, g.issued), Stamps(w.revisions, keys), deps)],
          Issue(outcome, g.issued),
          g.attempts + [Attempt(cell, outcome)])
  }

  function Directed(w: Run, cell: Path): bool {
    cell in w.request.directed
  }

  function BodyIn(w: Run, cell: Path, deps: seq<Dependency>): Progress {
    Body(w.kernel, w.inputs, w.request.automatic, Directed(w, cell), cell, Plain(deps))
  }

  /** Verifies one cell.  A memo is reused only if every key it observed is at the
      observed revision and every cell it read verifies to the same identity;
      running out of fuel or depth stops the whole request without an answer. */
  function Verify(w: Run, g: Graph, cell: Path, stack: seq<Path>, fuel: nat): (r: Turn)
    ensures r.answer.Some? ==> r.fuel < fuel
    decreases fuel, 2
  {
    if fuel == 0 || |stack| >= w.depthLimit then Turn(g, 0, None)
    else if cell in stack then Turn(g, fuel - 1, Some(CycleMemo(stack, cell)))
    else if cell in g.nodes && Current(w.revisions, g.nodes[cell]) then Reuse(w, g, cell, stack, fuel - 1)
    else Execute(w, g, cell, stack, [], fuel - 1)
  }

  function Reuse(w: Run, g: Graph, cell: Path, stack: seq<Path>, fuel: nat): (r: Turn)
    requires cell in g.nodes
    ensures r.answer.Some? ==> r.fuel <= fuel
    decreases fuel, 4
  {
    var check := Revalidate(w, g, g.nodes[cell].deps, stack + [cell], fuel);
    match check.same
    case None => Turn(check.graph, 0, None)
    case Some(true) => Turn(check.graph, check.fuel, Some(g.nodes[cell].memo))
    case Some(false) => Execute(w, check.graph, cell, stack, [], check.fuel)
  }

  function Revalidate(w: Run, g: Graph, deps: seq<Dependency>, stack: seq<Path>, fuel: nat): (r: Check)
    ensures r.same.Some? ==> r.fuel <= fuel
    decreases fuel, 3
  {
    if deps == [] then Check(g, fuel, Some(true))
    else
      var turn := Verify(w, g, deps[0].path, stack, fuel);
      match turn.answer
      case None => Check(turn.graph, 0, None)
      case Some(m) =>
        if m.identity == deps[0].memo.identity then Revalidate(w, turn.graph, deps[1..], stack, turn.fuel)
        else Check(turn.graph, turn.fuel, Some(false))
  }

  function Execute(w: Run, g: Graph, cell: Path, stack: seq<Path>, deps: seq<Dependency>, fuel: nat): (r: Turn)
    ensures r.answer.Some? ==> r.fuel <= fuel
    decreases fuel, 3
  {
    match BodyIn(w, cell, deps)
    case Need(target, _) =>
      var turn := Verify(w, g, target, stack + [cell], fuel);
      (match turn.answer
       case None => Turn(turn.graph, 0, None)
       case Some(m) => Execute(w, turn.graph, cell, stack, deps + [Dependency(target, m)], turn.fuel))
    case Done(outcome, fr) =>
      if fuel == 0 then Turn(g, 0, None)
      else Turn(Commit(w, g, cell, outcome, fr.keys, deps), fuel - 1, Some(Seal(outcome, g.issued)))
  }

  // ---- Evaluation from scratch ----

  /** A finite record of evaluating a cell and, below it, every cell it reads. */
  datatype Derivation = Derivation(cell: Path, outcome: Outcome, subs: seq<Derivation>)

  function Answers(subs: seq<Derivation>): (r: seq<Read>)
    ensures |r| == |subs|
    ensures forall i :: 0 <= i < |r| ==> r[i] == Read(subs[i].cell, subs[i].outcome)
  {
    seq(|subs|, i requires 0 <= i < |subs| => Read(subs[i].cell, subs[i].outcome))
  }

  /** The derivation follows the definition of every cell in it, as when each cell
      is an explicitly directed root. */
  ghost predicate Justified(k: Kernel, inp: Inputs, d: Derivation)
    decreases d
  {
    && d.cell in inp.cells
    && (forall i :: 0 <= i < |d.subs| ==> Justified(k, inp, d.subs[i]))
    && var r := Body(k, inp, false, true, d.cell, Answers(d.subs));
       r.Done? && r.outcome == d.outcome && r.frame.used == |d.subs|
  }

  /** A derivation's subtrees are the reads the definition asks for, in order. */
  lemma SubtreesInOrder(k: Kernel, inp: Inputs, d: Derivation, i: nat)
    requires Justified(k, inp, d) && i <= |d.subs|
    ensures var r := Body(k, inp, false, true, d.cell, Answers(d.subs)[..i]);
            if i < |d.subs| then r.Need? && r.target == d.subs[i].cell && r.frame.used == i
            else r.Done? && r.outcome == d.outcome
  {
    BodyCut(k, inp, false, true, d.cell, Answers(d.subs), i);
    assert Answers(d.subs)[..|d.subs|] == Answers(d.subs);
  }

  lemma OneMore<T>(s: seq<T>, i: nat)
    requires i < |s|
    ensures s[..i + 1] == s[..i] + [s[i]]
  {
  }

  lemma SameSubtreesSameAnswers(x: seq<Derivation>, y: seq<Derivation>, n: nat)
    requires n <= |x| && n <= |y| && x[..n] == y[..n]
    ensures Answers(x)[..n] == Answers(y)[..n]
  {
    assert forall i :: 0 <= i < n ==> x[i] == x[..n][i] && y[i] == y[..n][i];
  }

  lemma {:induction false} SubtreesAgree(k: Kernel, inp: Inputs, x: Derivation, y: Derivation, n: nat)
    requires Justified(k, inp, x) && Justified(k, inp, y) && x.cell == y.cell
    requires n <= |x.subs| && n <= |y.subs|
    ensures x.subs[..n] == y.subs[..n]
    decreases x, n
  {
    if n > 0 {
      var i := n - 1;
      SubtreesAgree(k, inp, x, y, i);
      SameSubtreesSameAnswers(x.subs, y.subs, i);
      SubtreesInOrder(k, inp, x, i);
      SubtreesInOrder(k, inp, y, i);
      DerivationsAgree(k, inp, x.subs[i], y.subs[i]);
      OneMore(x.subs, i);
      OneMore(y.subs, i);
    }
  }

  /** Two derivations of one cell are the same tree. */
  lemma {:induction false} DerivationsAgree(k: Kernel, inp: Inputs, x: Derivation, y: Derivation)
    requires Justified(k, inp, x) && Justified(k, inp, y) && x.cell == y.cell
    ensures x == y
    decreases x
  {
    var n := if |x.subs| <= |y.subs| then |x.subs| else |y.subs|;
    SubtreesAgree(k, inp, x, y, n);
    SameSubtreesSameAnswers(x.subs, y.subs, n);
    SubtreesInOrder(k, inp, x, n);
    SubtreesInOrder(k, inp, y, n);
    assert x.subs[..|x.subs|] == x.subs && y.subs[..|y.subs|] == y.subs;
  }

  // ---- What holds of the memo graph ----

  predicate IsBlocking(o: Outcome) {
    o.Failed? && (o.failure.Blocked? || o.failure.RequiredCapability?)
  }

  predicate GateBlocked(o: Outcome) {
    o.Failed? && o.failure.Blocked?
  }

  /** Failures that depend on the request that met them. */
  predicate Contextual(o: Outcome) {
    o.Failed? && (o.failure.Blocked? || o.failure.Cycle?)
  }

  function BlockedCells(attempts: seq<Attempt>): set<Path> {
    set a | a in attempts && IsBlocking(a.outcome) :: a.cell
  }

  /** A memo's identity determines its outcome. */
  ghost predicate MemoOk(issued: seq<Value>, m: Memo) {
    match m.identity
    case Canonical(e) => m.outcome == Success(Data(e))
    case Volatile(n) => n < |issued| && m.outcome == Success(issued[n])
    case Failing(f) => m.outcome == Failed(f)
  }

  ghost predicate MemosOk(issued: seq<Value>, node: Node) {
    MemoOk(issued, node.memo) && DepsOk(issued, node.deps)
  }

  ghost predicate DepsOk(issued: seq<Value>, deps: seq<Dependency>) {
    forall i :: 0 <= i < |deps| ==> MemoOk(issued, deps[i].memo)
  }

  ghost predicate Sees(node: Node, key: Key) {
    exists i :: 0 <= i < |node.seen| && node.seen[i].key == key
  }

  ghost predicate StampsOk(revisions: map<Key, nat>, cell: Path, node: Node) {
    && (forall s :: s in node.seen ==> s.revision <= Revision(revisions, s.key))
    && Sees(node, ForceEpoch(cell)) && Sees(node, Cell(cell))
  }

  /** Re-running the cell on the answers its memo was made from gives the memo. */
  ghost predicate Grounded(k: Kernel, inp: Inputs, cell: Path, node: Node) {
    var r := Body(k, inp, false, true, cell, Plain(node.deps));
    && r.Done? && r.outcome == node.memo.outcome
    && r.frame.used == |node.deps|
    && (forall key :: key in r.frame.keys ==> Sees(node, key))
  }

  ghost predicate NodeTidy(w: Run, g: Graph, cell: Path, node: Node) {
    && MemosOk(g.issued, node)
    && StampsOk(w.revisions, cell, node)
    && (Current(w.revisions, node) ==>
         && (IsBlocking(node.memo.outcome) ==> cell in BlockedCells(g.attempts))
         && (cell in w.inputs.cells ==> GateBlocked(node.memo.outcome) || Grounded(w.kernel, w.inputs, cell, node)))
  }

  ghost predicate Tidy(w: Run, g: Graph) {
    forall c :: c in g.nodes ==> NodeTidy(w, g, c, g.nodes[c])
  }

  ghost predicate Extends(g: Graph, h: Graph) {
    g.issued <= h.issued && g.attempts <= h.attempts
  }

  lemma ExtendsTransitively(g: Graph, mid: Graph, h: Graph)
    requires Extends(g, mid) && Extends(mid, h)
    ensures Extends(g, h)
  {
  }

  lemma NodeStaysTidy(w: Run, g: Graph, h: Graph, cell: Path, node: Node)
    requires NodeTidy(w, g, cell, node) && Extends(g, h)
    ensures NodeTidy(w, h, cell, node)
  {
    forall a | a in g.attempts ensures a in h.attempts {}
  }

  /** Unless its trigger blocks it here, a cell runs as a directed root would. */
  lemma GateIsOpen(w: Run, cell: Path, deps: seq<Dependency>)
    ensures BodyIn(w, cell, deps) == Body(w.kernel, w.inputs, false, true, cell, Plain(deps))
            || (BodyIn(w, cell, deps).Done? && GateBlocked(BodyIn(w, cell, deps).outcome))
  {
  }

  /** A committed node has seen every key its run recorded, at the present revision. */
  lemma CommittedSees(w: Run, g: Graph, cell: Path, outcome: Outcome, keys: seq<Key>, deps: seq<Dependency>)
    ensures var node := Commit(w, g, cell, outcome, keys, deps).nodes[cell];
            && (forall key :: key in keys ==> Sees(node, key))
            && (forall s :: s in node.seen ==> s.revision <= Revision(w.revisions, s.key))
  {
    var node := Commit(w, g, cell, outcome, keys, deps).nodes[cell];
    forall key | key in keys ensures Sees(node, key) {
      var i :| 0 <= i < |keys| && keys[i] == key;
      assert node.seen[i].key == key;
    }
  }

  lemma CommitStamped(w: Run, g: Graph, cell: Path, deps: seq<Dependency>)
    requires BodyIn(w, cell, deps).Done?
    ensures var r := BodyIn(w, cell, deps);
            StampsOk(w.revisions, cell, Commit(w, g, cell, r.outcome, r.frame.keys, deps).nodes[cell])
  {
    var r := BodyIn(w, cell, deps);
    CommittedSees(w, g, cell, r.outcome, r.frame.keys, deps);
    BodyKeys(w.kernel, w.inputs, w.request.automatic, Directed(w, cell), cell, Plain(deps));
    assert RuntimeContext(cell)[4] == ForceEpoch(cell) && RuntimeContext(cell)[5] == Cell(cell);
    hide Body, Commit, Sees, Revision;
  }

  /** The node a finished run commits. */
  lemma NewNodeTidy(w: Run, g: Graph, cell: Path, deps: seq<Dependency>)
    requires DepsOk(g.issued, deps)
    requires BodyIn(w, cell, deps).Done? && BodyIn(w, cell, deps).frame.used == |deps|
    ensures var r := BodyIn(w, cell, deps);
            var h := Commit(w, g, cell, r.outcome, r.frame.keys, deps);
            Extends(g, h) && NodeTidy(w, h, cell, h.nodes[cell])
  {
    CommitStamped(w, g, cell, deps);
    var r := BodyIn(w, cell, deps);
    CommittedSees(w, g, cell, r.outcome, r.frame.keys, deps);
    GateIsOpen(w, cell, deps);
    hide Body, BodyIn, StampsOk, Sees, Current, Stamps;
    assert Attempt(cell, r.outcome) in Commit(w, g, cell, r.outcome, r.frame.keys, deps).attempts;
  }

  /** Committing a finished run keeps the graph tidy. */
  lemma CommitTidy(w: Run, g: Graph, cell: Path, deps: seq<Dependency>)
    requires Tidy(w, g) && DepsOk(g.issued, deps)
    requires BodyIn(w, cell, deps).Done? && BodyIn(w, cell, deps).frame.used == |deps|
    ensures var r := BodyIn(w, cell, deps);
            var h := Commit(w, g, cell, r.outcome, r.frame.keys, deps);
            Tidy(w, h) && Extends(g, h) && MemoOk(h.issued, Seal(r.outcome, g.issued))
  {
    var r := BodyIn(w, cell, deps);
    var h := Commit(w, g, cell, r.outcome, r.frame.keys, deps);
    NewNodeTidy(w, g, cell, deps);
    forall c | c in h.nodes ensures NodeTidy(w, h, c, h.nodes[c]) {
      if c != cell {
        NodeStaysTidy(w, g, h, c, g.nodes[c]);
      }
    }
  }

  // ---- Soundness: an answer that is not contextual has a derivation ----

  ghost predicate Backed(w: Run, dep: Dependency, d: Derivation) {
    && dep.path in w.inputs.cells
    && (!Contextual(dep.memo.outcome) ==>
         Justified(w.kernel, w.inputs, d) && d.cell == dep.path && d.outcome == dep.memo.outcome)
  }

  ghost predicate AllBacked(w: Run, deps: seq<Dependency>, ds: seq<Derivation>) {
    |ds| == |deps| && forall i :: 0 <= i < |deps| ==> Backed(w, deps[i], ds[i])
  }

  ghost predicate AnswerBacked(w: Run, cell: Path, answer: Option<Memo>, d: Derivation) {
    answer.Some? && cell in w.inputs.cells ==> Backed(w, Dependency(cell, answer.value), d)
  }

  ghost predicate StoredBacked(w: Run, deps: seq<Dependency>, ds: seq<Derivation>) {
    |ds| == |deps| && forall i :: 0 <= i < |deps| && deps[i].path in w.inputs.cells ==> Backed(w, deps[i], ds[i])
  }

  /** A completed run whose answers are backed is itself backed. */
  lemma CompletedRun(w: Run, cell: Path, deps: seq<Dependency>, ds: seq<Derivation>) returns (d: Derivation)
    requires cell in w.inputs.cells && AllBacked(w, deps, ds)
    requires var r := Body(w.kernel, w.inputs, false, true, cell, Plain(deps)); r.Done? && r.frame.used == |deps|
    ensures var r := Body(w.kernel, w.inputs, false, true, cell, Plain(deps));
            !Contextual(r.outcome) ==> Justified(w.kernel, w.inputs, d) && d.cell == cell && d.outcome == r.outcome
  {
    var r := Body(w.kernel, w.inputs, false, true, cell, Plain(deps));
    d := Derivation(cell, r.outcome, ds);
    if !Contextual(r.outcome) {
      forall i | 0 <= i < |deps| ensures !Contextual(deps[i].memo.outcome) {
        if deps[i].memo.outcome.Failed? {
          FailurePropagates(w.kernel, w.inputs, false, true, cell, Plain(deps), i);
        }
      }
      assert forall i :: 0 <= i < |deps| ==> Backed(w, deps[i], ds[i]);
      assert Answers(ds) == Plain(deps);
    }
  }

  /** A reused memo whose reads verified again is backed. */
  lemma ReusedNode(w: Run, g: Graph, cell: Path, ds: seq<Derivation>) returns (d: Derivation)
    requires Tidy(w, g) && cell in w.inputs.cells && cell in g.nodes && Current(w.revisions, g.nodes[cell])
    requires !Contextual(g.nodes[cell].memo.outcome)
    requires StoredBacked(w, g.nodes[cell].deps, ds)
    ensures AnswerBacked(w, cell, Some(g.nodes[cell].memo), d)
  {
    var node := g.nodes[cell];
    assert NodeTidy(w, g, cell, node);
    BodyKeys(w.kernel, w.inputs, false, true, cell, Plain(node.deps));
    forall i | 0 <= i < |node.deps| ensures Backed(w, node.deps[i], ds[i]) {
      assert ReadsStored(w.inputs, Plain(node.deps), i);
    }
    d := CompletedRun(w, cell, node.deps, ds);
  }

  lemma NothingUsedYet(w: Run, cell: Path)
    ensures BodyIn(w, cell, []).frame.used == 0
  {
    BodyWaits(w.kernel, w.inputs, w.request.automatic, Directed(w, cell), cell, Plain([]));
  }

  ghost predicate TurnSound(w: Run, g: Graph, cell: Path, t: Turn, d: Derivation) {
    && Tidy(w, t.graph) && Extends(g, t.graph)
    && (t.answer.Some? ==> MemoOk(t.graph.issued, t.answer.value))
    && AnswerBacked(w, cell, t.answer, d)
  }

  lemma ShortcutSound(w: Run, g: Graph, cell: Path, stack: seq<Path>, fuel: nat, d: Derivation)
    requires Tidy(w, g) && (fuel == 0 || |stack| >= w.depthLimit || cell in stack)
    ensures TurnSound(w, g, cell, Verify(w, g, cell, stack, fuel), d)
  {
  }

  lemma {:induction false} VerifySound(w: Run, g: Graph, cell: Path, stack: seq<Path>, fuel: nat) returns (d: Derivation)
    requires Tidy(w, g)
    ensures TurnSound(w, g, cell, Verify(w, g, cell, stack, fuel), d)
    decreases fuel, 2
  {
    hide Tidy, TurnSound, Body, BodyIn, Reuse, Execute, Revalidate;
    d := Derivation(cell, Failed(Cycle([])), []);
    if fuel == 0 || |stack| >= w.depthLimit || cell in stack {
      ShortcutSound(w, g, cell, stack, fuel, d);
    } else if cell in g.nodes && Current(w.revisions, g.nodes[cell]) {
      d := ReuseSound(w, g, cell, stack, fuel - 1);
    } else {
      NothingUsedYet(w, cell);
      d := ExecuteSound(w, g, cell, stack, [], [], fuel - 1);
    }
  }

  lemma {:induction false} ReuseSound(w: Run, g: Graph, cell: Path, stack: seq<Path>, fuel: nat) returns (d: Derivation)
    requires Tidy(w, g) && cell in g.nodes && Current(w.revisions, g.nodes[cell])
    ensures TurnSound(w, g, cell, Reuse(w, g, cell, stack, fuel), d)
    decreases fuel, 4
  {
    hide Body, BodyIn, Execute, Verify, Revalidate, Justified;
    var node := g.nodes[cell];
    d := Derivation(cell, node.memo.outcome, []);
    assert MemosOk(g.issued, node) by { assert NodeTidy(w, g, cell, node); }
    var ds := RevalidateSound(w, g, node.deps, stack + [cell], fuel);
    var check := Revalidate(w, g, node.deps, stack + [cell], fuel);
    if check.same == Some(false) {
      NothingUsedYet(w, cell);
      d := ExecuteSound(w, check.graph, cell, stack, [], [], check.fuel);
      ExtendsTransitively(g, check.graph, Execute(w, check.graph, cell, stack, [], check.fuel).graph);
    } else if check.same == Some(true) && cell in w.inputs.cells && !Contextual(node.memo.outcome) {
      d := ReusedNode(w, g, cell, ds);
    }
  }

  lemma {:induction false} RevalidateSound(w: Run, g: Graph, deps: seq<Dependency>, stack: seq<Path>, fuel: nat) returns (ds: seq<Derivation>)
    requires Tidy(w, g) && DepsOk(g.issued, deps)
    ensures var c := Revalidate(w, g, deps, stack, fuel);
            && Tidy(w, c.graph) && Extends(g, c.graph)
            && (c.same == Some(true) ==> StoredBacked(w, deps, ds))
    decreases fuel, 3
  {
    hide Verify, Tidy, Body, BodyIn, Justified, Commit;
    ds := [];
    if deps != [] {
      var d := VerifySound(w, g, deps[0].path, stack, fuel);
      var turn := Verify(w, g, deps[0].path, stack, fuel);
      if turn.answer.Some? && turn.answer.value.identity == deps[0].memo.identity {
        assert MemoOk(turn.graph.issued, deps[0].memo);
        var rest := RevalidateSound(w, turn.graph, deps[1..], stack, turn.fuel);
        ds := [d] + rest;
        if Revalidate(w, g, deps, stack, fuel).same == Some(true) {
          forall i | 0 <= i < |deps| && deps[i].path in w.inputs.cells ensures Backed(w, deps[i], ds[i]) {
            if i > 0 {
              assert deps[i] == deps[1..][i - 1];
            }
          }
        }
      }
    }
  }

  lemma {:induction false} ExecuteSound(w: Run, g: Graph, cell: Path, stack: seq<Path>, deps: seq<Dependency>, ds: seq<Derivation>, fuel: nat) returns (d: Derivation)
    requires Tidy(w, g) && DepsOk(g.issued, deps) && AllBacked(w, deps, ds)
    requires BodyIn(w, cell, deps).frame.used == |deps|
    ensures TurnSound(w, g, cell, Execute(w, g, cell, stack, deps, fuel), d)
    decreases fuel, 3
  {
    hide Verify, Tidy, Body, Justified, Commit;
    d := Derivation(cell, Failed(Cycle([])), []);
    var r := BodyIn(w, cell, deps);
    if r.Need? {
      BodyWaits(w.kernel, w.inputs, w.request.automatic, Directed(w, cell), cell, Plain(deps));
      var sub := VerifySound(w, g, r.target, stack + [cell], fuel);
      var turn := Verify(w, g, r.target, stack + [cell], fuel);
      if turn.answer.Some? {
        var more := deps + [Dependency(r.target, turn.answer.value)];
        AnswerAdvances(w.kernel, w.inputs, w.request.automatic, Directed(w, cell), cell, Plain(deps), turn.answer.value.outcome);
        assert Plain(more) == Plain(deps) + [Read(r.target, turn.answer.value.outcome)];
        d := ExecuteSound(w, turn.graph, cell, stack, more, ds + [sub], turn.fuel);
      }
    } else if fuel > 0 {
      CommitTidy(w, g, cell, deps);
      if cell in w.inputs.cells && !Contextual(r.outcome) {
        GateIsOpen(w, cell, deps);
        d := CompletedRun(w, cell, deps, ds);
      }
    }
  }
}
