/** The scheduler: the automatic queue, its generation and its counters, changed in
    place. */
module Schedulers {
  import opened Syntax
  import opened Collections
  import opened Texts
  import opened Scheduling

  /** What the effective policy of a cell says to the scheduler. */
  datatype AutoPolicy = AutoPolicy(automatic: bool, priority: int, debounce: nat)

  datatype QueueSnapshot = QueueSnapshot(generation: nat, nextSequence: nat, entries: seq<Queued>)

  datatype QueueError = CorruptQueue(cell: string) | UnknownContinuation(generation: nat)

  datatype Run = Run(completed: seq<nat>, exhausted: seq<nat>, continuation: Option<nat>)

  // ---- Snapshots ----

  function AtLeastOne(n: nat): (r: nat)
    ensures r >= 1 && r >= n && (r == 1 || r == n)
  {
    if n < 1 then 1 else n
  }

  function Later(a: nat, b: nat): nat {
    if a < b then b else a
  }

  /** The queue a list of entries loads. */
  function Loaded(entries: seq<Queued>): Queue {
    if entries == [] then map[] else Loaded(entries[..|entries| - 1])[entries[|entries| - 1].cell := entries[|entries| - 1]]
  }

  /** Cells are absolute and none repeats. */
  ghost predicate Accepted(entries: seq<Queued>) {
    && (forall i :: 0 <= i < |entries| ==> entries[i].cell != "" && entries[i].cell[0] == '/')
    && (forall i, j :: 0 <= i < j < |entries| ==> entries[i].cell != entries[j].cell)
  }

  function RequestsAfter(entries: seq<Queued>, next: nat): nat {
    if entries == [] then next
    else Later(RequestsAfter(entries[..|entries| - 1], next), entries[|entries| - 1].request + 1)
  }

  /** The entries of a queue in cell order. */
  ghost predicate Lists(entries: seq<Queued>, q: Queue) {
    && (forall i :: 0 <= i < |entries| ==> entries[i].cell in q && q[entries[i].cell] == entries[i])
    && (forall c :: c in q ==> q[c] in entries)
    && (forall i, j :: 0 <= i < j < |entries| ==> LexLess(entries[i].cell, entries[j].cell))
  }

  /** The entries outside `rest` are listed, in order and before all of `rest`. */
  ghost predicate Listing(entries: seq<Queued>, q: Queue, rest: set<string>) {
    && rest <= q.Keys
    && (forall i :: 0 <= i < |entries| ==> entries[i].cell in q && entries[i].cell !in rest && q[entries[i].cell] == entries[i])
    && (forall c :: c in q && c !in rest ==> q[c] in entries)
    && (forall i, j :: 0 <= i < j < |entries| ==> LexLess(entries[i].cell, entries[j].cell))
    && (forall i, c :: 0 <= i < |entries| && c in rest ==> LexLess(entries[i].cell, c))
  }

  lemma ListingStarts(q: Queue)
    ensures Listing([], q, q.Keys)
  {
  }

  lemma ListingNext(entries: seq<Queued>, q: Queue, rest: set<string>, first: string)
    requires Listing(entries, q, rest) && first in rest && q[first].cell == first
    requires forall c :: c in rest && c != first ==> LexLess(first, c)
    ensures Listing(entries + [q[first]], q, rest - {first})
  {
    hide LexLess;
    var next := entries + [q[first]];
    forall c | c in q && c !in rest - {first} ensures q[c] in next {
      assert c == first || q[c] in entries;
    }
    assert forall i :: 0 <= i < |next| ==> next[i] == if i < |entries| then entries[i] else q[first];
  }

  lemma ListingEnds(entries: seq<Queued>, q: Queue)
    requires Listing(entries, q, {})
    ensures Lists(entries, q)
  {
    hide LexLess;
  }

  lemma {:induction false} LoadedHas(entries: seq<Queued>)
    requires forall i, j :: 0 <= i < j < |entries| ==> entries[i].cell != entries[j].cell
    ensures forall i :: 0 <= i < |entries| ==> entries[i].cell in Loaded(entries) && Loaded(entries)[entries[i].cell] == entries[i]
    ensures forall c :: c in Loaded(entries) ==> Loaded(entries)[c].cell == c && Loaded(entries)[c] in entries
  {
    if entries != [] {
      var front := entries[..|entries| - 1];
      LoadedHas(front);
      assert forall e :: e in front ==> e in entries;
    }
  }

  /** Loading the entries a queue lists gives the queue back. */
  lemma LoadListed(entries: seq<Queued>, q: Queue)
    requires Lists(entries, q) && forall c :: c in q ==> q[c].cell == c
    ensures Loaded(entries) == q
  {
    forall i, j | 0 <= i < j < |entries| ensures entries[i].cell != entries[j].cell {
      LexTotal(entries[i].cell, entries[j].cell);
    }
    LoadedHas(entries);
    forall c ensures c in q <==> c in Loaded(entries)
      ensures c in q ==> Loaded(entries)[c] == q[c]
    {
      if c in q {
        var i :| 0 <= i < |entries| && entries[i] == q[c];
      }
    }
  }

  lemma {:induction false} RequestsCover(entries: seq<Queued>, next: nat)
    ensures RequestsAfter(entries, next) >= next
    ensures forall i :: 0 <= i < |entries| ==> entries[i].request < RequestsAfter(entries, next)
    ensures (forall i :: 0 <= i < |entries| ==> entries[i].request < next) ==> RequestsAfter(entries, next) == next
  {
    if entries != [] {
      RequestsCover(entries[..|entries| - 1], next);
    }
  }

  // ---- Scheduling ----

  ghost predicate Unrepeated(cells: seq<string>) {
    forall i, j :: 0 <= i < j < |cells| ==> cells[i] != cells[j]
  }

  ghost predicate Within(was: Queue, before: Queue, cells: seq<string>) {
    (forall c :: c in was <==> c in before && c in cells) && (forall c :: c in was ==> was[c] == before[c])
  }

  /** The dirty cells whose effective trigger is automatic, in order. */
  function Eligible(dirty: seq<string>, policy: string -> AutoPolicy): (eligible: seq<string>)
    ensures forall c :: c in eligible <==> c in dirty && policy(c).automatic
  {
    if dirty == [] then []
    else
      var front, last := Eligible(dirty[..|dirty| - 1], policy), dirty[|dirty| - 1];
      if policy(last).automatic then front + [last] else front
  }

  lemma {:induction false} EligibleDistinct(dirty: seq<string>, policy: string -> AutoPolicy)
    requires Unrepeated(dirty)
    ensures Unrepeated(Eligible(dirty, policy))
  {
    if dirty != [] {
      EligibleDistinct(dirty[..|dirty| - 1], policy);
      assert dirty[|dirty| - 1] !in dirty[..|dirty| - 1];
    }
  }

  /** A queued entry under the policy of the moment: a change of readiness or
      priority costs it its continuation, nothing costs it its place. */
  function Refreshed(e: Queued, now: nat, policy: AutoPolicy): Queued {
    if e.readyAt != now + policy.debounce || e.priority != policy.priority
    then e.(readyAt := now + policy.debounce, priority := policy.priority, continuation := None)
    else e
  }

  /** The same request in the same place; it loses its continuation exactly if it now
      becomes ready at another time or has another priority. */
  predicate KeepsPlace(e: Queued, next: Queued) {
    && next.request == e.request && next.cell == e.cell && next.sequence == e.sequence && next.bypasses == e.bypasses
    && next.continuation == if next.readyAt == e.readyAt && next.priority == e.priority then e.continuation else None
  }

  lemma RefreshedKeepsPlace(e: Queued, now: nat, policy: AutoPolicy)
    ensures var next := Refreshed(e, now, policy);
            KeepsPlace(e, next) && next.readyAt == now + policy.debounce && next.priority == policy.priority
  {
  }

  function Fresh(cell: string, now: nat, policy: AutoPolicy, sequence: nat, request: nat): Queued {
    Queued(request, cell, now + policy.debounce, policy.priority, sequence, 0, None)
  }

  lemma QueuedAs(before: Queue, q: Queue, now: nat, policy: string -> AutoPolicy)
    requires forall c :: c in before ==> before[c].cell == c
    requires forall c :: c in q && c in before ==> q[c] == Refreshed(before[c], now, policy(c))
    requires forall c :: c in q && c !in before ==> q[c] == Fresh(c, now, policy(c), q[c].sequence, q[c].request)
    ensures forall c :: c in q ==>
              && q[c].cell == c && q[c].readyAt == now + policy(c).debounce && q[c].priority == policy(c).priority
              && (c !in before ==> q[c].bypasses == 0 && q[c].continuation == None)
              && (c in before ==> KeepsPlace(before[c], q[c]))
  {
    forall c | c in q && c in before ensures KeepsPlace(before[c], q[c]) && q[c].readyAt == now + policy(c).debounce && q[c].priority == policy(c).priority {
      RefreshedKeepsPlace(before[c], now, policy(c));
    }
    hide Refreshed, KeepsPlace;
  }

  function Enqueued(q: Queue, cell: string, now: nat, policy: AutoPolicy, sequence: nat, request: nat): Queue {
    q[cell := if cell in q then Refreshed(q[cell], now, policy) else Fresh(cell, now, policy, sequence, request)]
  }

  /** The queue when the first i eligible cells have been dealt with. */
  ghost predicate Midway(was: Queue, q: Queue, eligible: seq<string>, i: nat, now: nat, policy: string -> AutoPolicy,
                         firstSequence: nat, firstRequest: nat) {
    && i <= |eligible|
    && (forall c :: c in q ==> c in eligible)
    && (forall k :: 0 <= k < i ==> eligible[k] in q)
    && (forall k :: 0 <= k < i && eligible[k] in was ==> q[eligible[k]] == Refreshed(was[eligible[k]], now, policy(eligible[k])))
    && (forall k :: 0 <= k < i && eligible[k] !in was ==>
          q[eligible[k]].sequence >= firstSequence && q[eligible[k]].request >= firstRequest
          && q[eligible[k]] == Fresh(eligible[k], now, policy(eligible[k]), q[eligible[k]].sequence, q[eligible[k]].request))
    && (forall k :: i <= k < |eligible| ==> (eligible[k] in q <==> eligible[k] in was))
    && (forall k :: i <= k < |eligible| && eligible[k] in q ==> q[eligible[k]] == was[eligible[k]])
  }

  lemma MidwayStart(q: Queue, eligible: seq<string>, now: nat, policy: string -> AutoPolicy, firstSequence: nat, firstRequest: nat)
    requires forall c :: c in q ==> c in eligible
    ensures Midway(q, q, eligible, 0, now, policy, firstSequence, firstRequest)
  {
  }

  lemma CellsNamed(q: Queue, sequence: nat, request: nat)
    requires Ordered(q, sequence, request)
    ensures forall c :: c in q ==> q[c].cell == c
  {
  }

  lemma MidwayStep(was: Queue, q: Queue, eligible: seq<string>, i: nat, now: nat, policy: string -> AutoPolicy,
                   firstSequence: nat, firstRequest: nat, sequence: nat, request: nat)
    requires Midway(was, q, eligible, i, now, policy, firstSequence, firstRequest) && i < |eligible|
    requires Unrepeated(eligible)
    requires sequence >= firstSequence && request >= firstRequest
    ensures Midway(was, Enqueued(q, eligible[i], now, policy(eligible[i]), sequence, request), eligible, i + 1, now, policy, firstSequence, firstRequest)
  {
    hide Refreshed;
    assert forall k :: 0 <= k < |eligible| && k != i ==> eligible[k] != eligible[i];
  }

  /** A difference made once is not undone by a later cell. */
  lemma WasStaysDifferent(before: Queue, was: Queue, q: Queue, eligible: seq<string>, i: nat, now: nat, policy: string -> AutoPolicy,
                          firstSequence: nat, firstRequest: nat, sequence: nat, request: nat)
    requires Midway(was, q, eligible, i, now, policy, firstSequence, firstRequest) && i < |eligible|
    requires Within(was, before, eligible)
    ensures var next := Enqueued(q, eligible[i], now, policy(eligible[i]), sequence, request);
            (q != before || next != q) <==> next != before
  {
    var next := Enqueued(q, eligible[i], now, policy(eligible[i]), sequence, request);
    if next == before {
      assert eligible[i] in q <==> eligible[i] in before;
      forall c ensures c in q <==> c in before ensures c in q ==> q[c] == before[c] {
        assert c != eligible[i] ==> (c in q <==> c in next);
      }
      assert q == before;
    }
  }

  /** What the queue is when every eligible cell has been dealt with. */
  lemma MidwayEnd(before: Queue, was: Queue, q: Queue, eligible: seq<string>, now: nat, policy: string -> AutoPolicy,
                  firstSequence: nat, firstRequest: nat)
    requires Midway(was, q, eligible, |eligible|, now, policy, firstSequence, firstRequest)
    requires Within(was, before, eligible)
    ensures forall c :: c in q <==> c in eligible
    ensures forall c :: c in q && c in before ==> q[c] == Refreshed(before[c], now, policy(c))
    ensures forall c :: c in q && c !in before ==>
              q[c].sequence >= firstSequence && q[c].request >= firstRequest && q[c] == Fresh(c, now, policy(c), q[c].sequence, q[c].request)
  {
    forall c | c in eligible
      ensures c in q
      ensures c in before ==> q[c] == Refreshed(before[c], now, policy(c))
      ensures c !in before ==> q[c].sequence >= firstSequence && q[c].request >= firstRequest
                               && q[c] == Fresh(c, now, policy(c), q[c].sequence, q[c].request)
    {
      var k :| 0 <= k < |eligible| && eligible[k] == c;
    }
  }

  lemma EnqueuedOrdered(q: Queue, cell: string, now: nat, policy: AutoPolicy, sequence: nat, request: nat)
    requires Ordered(q, sequence, request)
    ensures var more := if cell in q then 0 else 1;
            Ordered(Enqueued(q, cell, now, policy, sequence, request), sequence + more, request + more)
  {
  }

  lemma EnqueueStep(before: Queue, was: Queue, q: Queue, eligible: seq<string>, i: nat, now: nat, policy: string -> AutoPolicy,
                    firstSequence: nat, firstRequest: nat, sequence: nat, request: nat)
    requires Midway(was, q, eligible, i, now, policy, firstSequence, firstRequest) && i < |eligible|
    requires Ordered(q, sequence, request) && sequence >= firstSequence && request >= firstRequest
    requires Unrepeated(eligible)
    requires Within(was, before, eligible)
    ensures var cell := eligible[i];
            var next := Enqueued(q, cell, now, policy(cell), sequence, request);
            && Midway(was, next, eligible, i + 1, now, policy, firstSequence, firstRequest)
            && Ordered(next, if cell in q then sequence else sequence + 1, if cell in q then request else request + 1)
            && ((q != before || next != q) <==> next != before)
  {
    hide Midway, Ordered, Enqueued, Unrepeated, Within;
    MidwayStep(was, q, eligible, i, now, policy, firstSequence, firstRequest, sequence, request);
    EnqueuedOrdered(q, eligible[i], now, policy(eligible[i]), sequence, request);
    WasStaysDifferent(before, was, q, eligible, i, now, policy, firstSequence, firstRequest, sequence, request);
  }

  /** Part of an ordered queue, with one entry put back in its place. */
  lemma PartOrdered(q: Queue, part: Queue, cell: string, e: Queued, sequence: nat, request: nat)
    requires Ordered(q, sequence, request) && cell in q
    requires e.cell == cell && e.sequence == q[cell].sequence && e.request == q[cell].request
    requires forall c :: c in part ==> c in q && part[c] == q[c]
    ensures Ordered(part, sequence, request) && Ordered(part[cell := e], sequence, request)
  {
  }

  /** One turn of run_automatic: the entry that must be selected is attempted. */
  ghost predicate Turn(q: Queue, now: nat, pick: string, answer: Attempt, next: Queue) {
    Chosen(q, now, pick) && next == Attempted(q, now, pick, answer)
  }

  lemma TurnTaken(q: Queue, now: nat, pick: string, answer: Attempt)
    requires Chosen(q, now, pick)
    ensures Turn(q, now, pick, answer, Attempted(q, now, pick, answer))
  {
  }

  lemma BumpedOrdered(q: Queue, now: nat, selected: string, sequence: nat, request: nat)
    requires Ordered(q, sequence, request)
    ensures Ordered(Bumped(q, now, selected), sequence, request)
    ensures forall c :: c in q ==> q[c].cell == c
  {
  }

  // ---- Runs and tokens ----

  /** The queue, and the generation that its tokens name. */
  datatype State = State(queue: Queue, generation: nat)

  /** What can be asked of the scheduler.  A run of attempts carries what happened:
      the queue before each turn and after the last, and the entries selected. */
  datatype Operation =
    | Scheduled(dirty: seq<string>, policy: string -> AutoPolicy, now: nat)
    | Pruned(kept: set<string>)
    | Attempts(now: nat, answers: nat -> Attempt, trace: seq<Queue>, picks: seq<string>)
    | Cancelled(request: nat)
    | Restored(snapshot: QueueSnapshot)
    | Rebuilt

  /** The generation rises by one exactly if the queue changes. */
  predicate Counted(s: State, t: State) {
    t.generation == if t.queue == s.queue then s.generation else s.generation + 1
  }

  /** New entries are younger than all old ones, and no two are of one age. */
  ghost predicate JoinBehind(q: Queue, next: Queue) {
    && (forall c, d :: c in next && c !in q && d in q ==> q[d].sequence < next[c].sequence)
    && (forall c, d :: c in next && c !in q && d in next && d !in q && c != d ==> next[c].sequence != next[d].sequence)
  }

  lemma NewJoinBehind(q: Queue, sequence: nat, request: nat, next: Queue, nextSequence: nat, nextRequest: nat)
    requires Ordered(q, sequence, request) && Ordered(next, nextSequence, nextRequest)
    requires forall c :: c in next && c !in q ==> next[c].sequence >= sequence
    ensures JoinBehind(q, next)
  {
  }

  ghost predicate Traced(now: nat, answers: nat -> Attempt, trace: seq<Queue>, picks: seq<string>) {
    |trace| == |picks| + 1 && forall i :: 0 <= i < |picks| ==> Turn(trace[i], now, picks[i], answers(i), trace[i + 1])
  }

  /** What one operation does to the queue and the generation. */
  ghost predicate Step(op: Operation, s: State, t: State) {
    match op
    case Scheduled(dirty, policy, now) =>
      && Counted(s, t)
      && (forall c :: c in t.queue <==> c in dirty && policy(c).automatic)
      && (forall c :: c in t.queue && c in s.queue ==> t.queue[c] == Refreshed(s.queue[c], now, policy(c)))
      && JoinBehind(s.queue, t.queue)
    case Pruned(kept) => Counted(s, t) && t.queue == map c | c in s.queue && c in kept :: s.queue[c]
    case Attempts(now, answers, trace, picks) =>
      && Traced(now, answers, trace, picks) && trace[0] == s.queue && trace[|picks|] == t.queue
      && if picks == [] then t.generation == s.generation else s.generation < t.generation
    case Cancelled(request) =>
      if forall c :: c in s.queue ==> s.queue[c].request != request then t == s
      else exists c :: c in s.queue && s.queue[c].request == request && t == State(s.queue - {c}, s.generation + 1)
    case Restored(snapshot) =>
      t == if Accepted(snapshot.entries) then State(Loaded(snapshot.entries), AtLeastOne(snapshot.generation)) else s
    case Rebuilt => t == State(map[], 1)
  }

  /** The operations that begin a new life of the queue. */
  ghost predicate StartsAnew(op: Operation) {
    op.Rebuilt? || (op.Restored? && Accepted(op.snapshot.entries))
  }

  /** A change the generation tells of: it never falls, and the queue is the same
      while it stands. */
  predicate Told(s: State, t: State) {
    s.generation <= t.generation && (s.generation == t.generation ==> s.queue == t.queue)
  }

  ghost predicate Runs(ops: seq<Operation>, states: seq<State>) {
    |states| == |ops| + 1 && forall k :: 0 <= k < |ops| ==> Step(ops[k], states[k], states[k + 1])
  }

  /** However the scheduler is used, until it is rebuilt or restored a generation
      stands for one queue: a token is accepted only over the very queue that
      issued it. */
  lemma {:induction false} TokenNamesOneQueue(ops: seq<Operation>, states: seq<State>, i: nat, j: nat)
    requires Runs(ops, states) && i <= j < |states|
    requires forall k :: i <= k < j ==> !StartsAnew(ops[k])
    ensures Told(states[i], states[j])
    decreases j
  {
    if i < j {
      TokenNamesOneQueue(ops, states, i, j - 1);
      assert Step(ops[j - 1], states[j - 1], states[j - 1 + 1]);
    }
  }

  /** Restoring is not such a change: it can bring a generation back over another
      queue, and an old token is then accepted. */
  lemma RestoreIsNotTold(s: State)
    requires s.queue != map[] && s.generation >= 1
    ensures var t := State(map[], s.generation);
            Step(Restored(QueueSnapshot(s.generation, 1, [])), s, t) && !Told(s, t)
  {
  }

  // ---- No entry waits forever, whatever else is done to the queue ----

  /** How many entries a run of operations selected. */
  function Selections(ops: seq<Operation>): nat {
    if ops == [] then 0
    else
      var last := ops[|ops| - 1];
      Selections(ops[..|ops| - 1]) + if last.Attempts? then |last.picks| else 0
  }

  /** x stays queued through the operation, and is ready whenever another entry is
      selected.  `returns` says whether an attempt may run out of budget. */
  ghost predicate Waits(op: Operation, s: State, t: State, x: string, returns_: bool) {
    && !StartsAnew(op) && x in s.queue && x in t.queue
    && (op.Attempts? ==> |op.trace| == |op.picks| + 1 && forall i {:trigger op.picks[i]} :: 0 <= i < |op.picks| ==>
          WaitsTurn(op.trace[i], op.now, op.picks[i], op.answers(i), op.trace[i + 1], x, returns_))
  }

  ghost predicate WaitsTurn(q: Queue, now: nat, pick: string, answer: Attempt, next: Queue, x: string, returns_: bool) {
    pick != x && x in q && Ready(q[x], now) && x in next && (answer.exhausted.Some? ==> returns_)
  }

  ghost predicate WaitsThrough(ops: seq<Operation>, states: seq<State>, x: string, returns_: bool)
    requires |states| == |ops| + 1
  {
    x in states[0].queue && forall k :: 0 <= k < |ops| ==> Waits(ops[k], states[k], states[k + 1], x, returns_)
  }

  /** Scheduling, pruning, cancelling and a refused restore leave a waiting entry its
      place and its count. */
  lemma OtherStepWaits(op: Operation, s: State, t: State, x: string)
    requires Step(op, s, t) && !op.Attempts? && !StartsAnew(op) && x in s.queue && x in t.queue
    ensures Waited(s.queue, t.queue, x)
  {
    hide Accepted;
    assert forall y :: y in t.queue && y in s.queue ==>
      t.queue[y].sequence == s.queue[y].sequence && t.queue[y].bypasses == s.queue[y].bypasses;
  }

  /** The selections of a run passed x over one by one. */
  ghost predicate AllPassed(trace: seq<Queue>, nows: seq<nat>, x: string, returns_: bool) {
    |trace| == |nows| + 1 && forall i :: 0 <= i < |nows| ==> Passed(trace[i], nows[i], trace[i + 1], x, returns_)
  }

  lemma OnePassed(trace: seq<Queue>, nows: seq<nat>, x: string, returns_: bool, now: nat, next: Queue)
    requires AllPassed(trace, nows, x, returns_) && Passed(trace[|nows|], now, next, x, returns_)
    ensures AllPassed(trace + [next], nows + [now], x, returns_)
  {
    hide Passed;
    forall i | 0 <= i <= |nows| ensures Passed((trace + [next])[i], (nows + [now])[i], (trace + [next])[i + 1], x, returns_) {
      assert i < |nows| ==> Passed(trace[i], nows[i], trace[i + 1], x, returns_);
    }
  }

  /** Waiting after the last selection. */
  lemma LastWaited(first: Queue, trace: seq<Queue>, nows: seq<nat>, x: string, returns_: bool, later: Queue)
    requires AllPassed(trace, nows, x, returns_) && Waited(first, trace[0], x) && Waited(trace[|nows|], later, x)
    ensures AllPassed(trace[|nows| := later], nows, x, returns_) && Waited(first, trace[|nows| := later][0], x)
  {
    hide Passed, Waited;
    var n, next := |nows|, trace[|nows| := later];
    if n == 0 {
      WaitedOn(first, trace[0], later, x);
    } else {
      assert Passed(trace[n - 1], nows[n - 1], trace[n - 1 + 1], x, returns_);
      PassedThenWaited(trace[n - 1], nows[n - 1], trace[n], later, x, returns_);
    }
    forall i | 0 <= i < n ensures Passed(next[i], nows[i], next[i + 1], x, returns_) {
      assert Passed(trace[i], nows[i], trace[i + 1], x, returns_);
    }
  }

  /** A run of attempts through which x waits. */
  lemma AttemptsPass(op: Operation, s: State, t: State, first: Queue, trace: seq<Queue>, nows: seq<nat>, x: string, returns_: bool)
    returns (longer: seq<Queue>, later: seq<nat>)
    requires op.Attempts? && Step(op, s, t) && Waits(op, s, t, x, returns_)
    requires AllPassed(trace, nows, x, returns_) && Waited(first, trace[0], x) && trace[|nows|] == s.queue && Distinct(s.queue)
    ensures AllPassed(longer, later, x, returns_) && Waited(first, longer[0], x) && longer[|later|] == t.queue && Distinct(t.queue)
    ensures |later| == |nows| + |op.picks|
  {
    assert |trace| == |nows| + 1;
    hide Passed, Waited, AllPassed, Distinct, Chosen, Attempted;
    longer, later := trace, nows;
    for i := 0 to |op.picks|
      invariant |longer| == |later| + 1 == |nows| + i + 1
      invariant AllPassed(longer, later, x, returns_) && Waited(first, longer[0], x) && longer[|later|] == op.trace[i] && Distinct(op.trace[i])
    {
      assert Turn(op.trace[i], op.now, op.picks[i], op.answers(i), op.trace[i + 1]);
      assert WaitsTurn(op.trace[i], op.now, op.picks[i], op.answers(i), op.trace[i + 1], x, returns_);
      AttemptPasses(op.trace[i], op.now, op.picks[i], op.answers(i), x, returns_);
      OnePassed(longer, later, x, returns_, op.now, op.trace[i + 1]);
      longer, later := longer + [op.trace[i + 1]], later + [op.now];
    }
  }

  /** The selections of a run of operations, with the queues before them. */
  lemma {:induction false} RunPasses(ops: seq<Operation>, states: seq<State>, x: string, returns_: bool)
    returns (trace: seq<Queue>, nows: seq<nat>)
    requires Runs(ops, states) && WaitsThrough(ops, states, x, returns_) && Distinct(states[0].queue)
    ensures AllPassed(trace, nows, x, returns_) && Waited(states[0].queue, trace[0], x)
    ensures |nows| == Selections(ops) && trace[|nows|] == states[|ops|].queue && Distinct(states[|ops|].queue)
    decreases |ops|
  {
    hide Passed, Distinct, Step, Waits;
    if ops == [] {
      trace, nows := [states[0].queue], [];
      return;
    }
    var n := |ops| - 1;
    assert Step(ops[n], states[n], states[n + 1]) && Waits(ops[n], states[n], states[n + 1], x, returns_);
    hide AllPassed, Waited;
    trace, nows := RunPasses(ops[..n], states[..n + 1], x, returns_);
    trace, nows := StepPasses(ops[n], states[n], states[n + 1], states[0].queue, trace, nows, x, returns_);
  }

  lemma StepPasses(op: Operation, s: State, t: State, first: Queue, trace: seq<Queue>, nows: seq<nat>, x: string, returns_: bool)
    returns (longer: seq<Queue>, later: seq<nat>)
    requires Step(op, s, t) && Waits(op, s, t, x, returns_)
    requires AllPassed(trace, nows, x, returns_) && Waited(first, trace[0], x) && trace[|nows|] == s.queue && Distinct(s.queue)
    ensures AllPassed(longer, later, x, returns_) && Waited(first, longer[0], x) && longer[|later|] == t.queue && Distinct(t.queue)
    ensures |later| == |nows| + if op.Attempts? then |op.picks| else 0
  {
    if op.Attempts? {
      longer, later := AttemptsPass(op, s, t, first, trace, nows, x, returns_);
    } else {
      OtherStepWaits(op, s, t, x);
      LastWaited(first, trace, nows, x, returns_, t.queue);
      longer, later := trace[|nows| := t.queue], nows;
    }
  }

  /** However the queue is used, an entry that stays queued and is ready at every
      selection is passed over at most three times plus once for every entry queued
      before it, as long as no attempt runs out of budget. */
  lemma BoundedBypassOnRuns(ops: seq<Operation>, states: seq<State>, x: string)
    requires Runs(ops, states) && WaitsThrough(ops, states, x, false) && Distinct(states[0].queue)
    ensures Selections(ops) <= Patience(states[0].queue[x].bypasses) + |Older(states[0].queue, x)|
  {
    var trace, nows := RunPasses(ops, states, x, false);
    var first := states[0].queue;
    assert Waited(first, trace[0], x);
    hide Passed, Distinct, Runs, WaitsThrough;
    BoundedBypass(trace, nows, x);
    SubsetSmaller(Older(first, x), Older(trace[0], x));
  }

  /** When attempts do run out of budget, an entry with at most three older ones is
      still selected by the seventh selection of the run. */
  lemma SelectedBySeventhOnRuns(ops: seq<Operation>, states: seq<State>, x: string)
    requires Runs(ops, states) && WaitsThrough(ops, states, x, true) && Distinct(states[0].queue)
    requires |Older(states[0].queue, x)| <= 3
    ensures Selections(ops) <= 6
  {
    var trace, nows := RunPasses(ops, states, x, true);
    var first := states[0].queue;
    assert Waited(first, trace[0], x);
    hide Passed, Distinct, Runs, WaitsThrough;
    SubsetSmaller(Older(first, x), Older(trace[0], x));
    SelectedBySeventh(trace, nows, x);
  }

  /** The requests reported by a run, in the order of its turns. */
  ghost function Reported(trace: seq<Queue>, picks: seq<string>, answers: nat -> Attempt, exhausted: bool): seq<nat>
    requires |picks| <= |trace|
  {
    if picks == [] then []
    else
      var n := |picks| - 1;
      Reported(trace, picks[..n], answers, exhausted)
      + if picks[n] in trace[n] && answers(n).exhausted.Some? == exhausted then [trace[n][picks[n]].request] else []
  }

  lemma {:induction false} ReportedBefore(trace: seq<Queue>, picks: seq<string>, answers: nat -> Attempt, exhausted: bool, next: Queue)
    requires |picks| <= |trace|
    ensures Reported(trace + [next], picks, answers, exhausted) == Reported(trace, picks, answers, exhausted)
  {
    if picks != [] {
      ReportedBefore(trace, picks[..|picks| - 1], answers, exhausted, next);
    }
  }

  lemma NothingReported(trace: seq<Queue>, answers: nat -> Attempt)
    ensures Reported(trace, [], answers, false) == [] && Reported(trace, [], answers, true) == []
  {
  }

  /** One more turn is reported on one of the two sides. */
  lemma ReportedNext(trace: seq<Queue>, picks: seq<string>, answers: nat -> Attempt, exhausted: bool, pick: string, next: Queue)
    requires |trace| == |picks| + 1 && pick in trace[|picks|]
    ensures Reported(trace + [next], picks + [pick], answers, exhausted)
            == Reported(trace, picks, answers, exhausted)
               + if answers(|picks|).exhausted.Some? == exhausted then [trace[|picks|][pick].request] else []
  {
    assert (picks + [pick])[..|picks|] == picks;
    ReportedBefore(trace, picks, answers, exhausted, next);
  }

  class Scheduler {
    var queue: Queue
    var generation: nat
    var nextSequence: nat
    var nextRequest: nat

    ghost predicate Valid()
      reads this
    {
      generation >= 1 && nextSequence >= 1 && Ordered(queue, nextSequence, nextRequest)
    }

    function Now(): State
      reads this`queue, this`generation
    {
      State(queue, generation)
    }

    constructor ()
      ensures Valid() && queue == map[] && generation == 1 && nextSequence == 1 && nextRequest == 1
    {
      queue, generation, nextSequence, nextRequest := map[], 1, 1, 1;
    }

    /** What a rebuild leaves of the queue. */
    method Reset()
      modifies this
      ensures Step(Rebuilt, old(Now()), Now())
      ensures Valid() && queue == map[] && generation == 1 && nextSequence == 1 && nextRequest == 1
    {
      queue, generation, nextSequence, nextRequest := map[], 1, 1, 1;
    }

    method BumpGeneration()
      modifies this`generation
      ensures generation == old(generation) + 1
    {
      generation := generation + 1;
    }

    /** schedule_dirty_automatic: afterwards the queue holds exactly the dirty
        automatic cells; those queued before keep their place. */
    method ScheduleDirty(dirty: seq<string>, policy: string -> AutoPolicy, now: nat)
      requires Valid() && Unrepeated(dirty)
      modifies this
      ensures Valid()
      ensures forall c :: c in queue <==> c in dirty && policy(c).automatic
      ensures forall c :: c in queue && c in old(queue) ==> queue[c] == Refreshed(old(queue)[c], now, policy(c))
      ensures forall c :: c in queue && c !in old(queue) ==>
                queue[c].sequence >= old(nextSequence) && queue[c].request >= old(nextRequest)
                && queue[c] == Fresh(c, now, policy(c), queue[c].sequence, queue[c].request)
      ensures forall c :: c in queue ==>
                && queue[c].cell == c && queue[c].readyAt == now + policy(c).debounce && queue[c].priority == policy(c).priority
                && (c !in old(queue) ==> queue[c].bypasses == 0 && queue[c].continuation == None)
                && (c in old(queue) ==> KeepsPlace(old(queue)[c], queue[c]))
      ensures generation == if queue == old(queue) then old(generation) else old(generation) + 1
      ensures Step(Scheduled(dirty, policy, now), old(Now()), Now())
    {
      hide Midway, Ordered, Refreshed, Fresh, Eligible, Unrepeated, Within, JoinBehind, KeepsPlace;
      CellsNamed(queue, nextSequence, nextRequest);
      var eligible := Eligible(dirty, policy);
      EligibleDistinct(dirty, policy);
      var changed := Retain(eligible);
      ghost var was := queue;
      changed := EnqueueAll(old(queue), was, eligible, policy, now, changed);
      MidwayEnd(old(queue), was, queue, eligible, now, policy, old(nextSequence), old(nextRequest));
      NewJoinBehind(old(queue), old(nextSequence), old(nextRequest), queue, nextSequence, nextRequest);
      QueuedAs(old(queue), queue, now, policy);
      if changed {
        BumpGeneration();
      }
    }

    method Retain(eligible: seq<string>) returns (changed: bool)
      requires Valid()
      modifies this`queue
      ensures Valid() && Within(queue, old(queue), eligible)
      ensures changed <==> queue != old(queue)
    {
      var oldLen := |queue|;
      queue := map c | c in queue && c in eligible :: queue[c];
      KeptIsSmaller(old(queue), queue);
      changed := |queue| != oldLen;
    }

    method EnqueueAll(ghost before: Queue, ghost was: Queue, eligible: seq<string>, policy: string -> AutoPolicy, now: nat, dropped: bool)
      returns (changed: bool)
      requires Valid() && queue == was && (dropped <==> was != before)
      requires Unrepeated(eligible)
      requires Within(was, before, eligible)
      modifies this`queue, this`nextSequence, this`nextRequest
      ensures Valid() && Midway(was, queue, eligible, |eligible|, now, policy, old(nextSequence), old(nextRequest))
      ensures changed <==> queue != before
    {
      MidwayStart(queue, eligible, now, policy, nextSequence, nextRequest);
      hide Midway, Ordered, Enqueued, Unrepeated, Within;
      changed := dropped;
      for i := 0 to |eligible|
        invariant Valid() && nextSequence >= old(nextSequence) && nextRequest >= old(nextRequest)
        invariant Midway(was, queue, eligible, i, now, policy, old(nextSequence), old(nextRequest))
        invariant changed <==> queue != before
      {
        var news := EnqueueNext(before, was, eligible, i, policy, now, old(nextSequence), old(nextRequest));
        changed := changed || news;
      }
    }

    method EnqueueNext(ghost before: Queue, ghost was: Queue, eligible: seq<string>, i: nat, policy: string -> AutoPolicy, now: nat,
                       ghost firstSequence: nat, ghost firstRequest: nat)
      returns (news: bool)
      requires Valid() && i < |eligible| && Unrepeated(eligible) && Within(was, before, eligible)
      requires firstSequence <= nextSequence && firstRequest <= nextRequest
      requires Midway(was, queue, eligible, i, now, policy, firstSequence, firstRequest)
      modifies this`queue, this`nextSequence, this`nextRequest
      ensures Valid() && old(nextSequence) <= nextSequence && old(nextRequest) <= nextRequest
      ensures Midway(was, queue, eligible, i + 1, now, policy, firstSequence, firstRequest)
      ensures old(queue) != before || news <==> queue != before
    {
      hide Midway, Ordered, Enqueued, Unrepeated, Within;
      EnqueueStep(before, was, queue, eligible, i, now, policy, firstSequence, firstRequest, nextSequence, nextRequest);
      news := Enqueue(eligible[i], now, policy(eligible[i]));
    }

    /** One eligible cell: refreshed where it is, or queued at the end. */
    method Enqueue(cell: string, now: nat, policy: AutoPolicy) returns (news: bool)
      modifies this`queue, this`nextSequence, this`nextRequest
      ensures queue == Enqueued(old(queue), cell, now, policy, old(nextSequence), old(nextRequest))
      ensures nextSequence == (if cell in old(queue) then old(nextSequence) else old(nextSequence) + 1)
      ensures nextRequest == (if cell in old(queue) then old(nextRequest) else old(nextRequest) + 1)
      ensures news <==> queue != old(queue)
    {
      if cell in queue {
        var queued := queue[cell];
        if queued.readyAt != now + policy.debounce || queued.priority != policy.priority {
          queue := queue[cell := queued.(readyAt := now + policy.debounce, priority := policy.priority, continuation := None)];
          assert queue[cell] != old(queue)[cell];
          return true;
        }
        assert queue == queue[cell := queued];
        return false;
      }
      queue := queue[cell := Fresh(cell, now, policy, nextSequence, nextRequest)];
      nextRequest := nextRequest + 1;
      nextSequence := nextSequence + 1;
      assert cell !in old(queue);
      return true;
    }

    /** prune_satisfied_automatic. */
    method Prune(dirty: set<string>)
      requires Valid()
      modifies this`queue, this`generation
      ensures Valid() && queue == map c | c in old(queue) && c in dirty :: old(queue)[c]
      ensures generation == if queue == old(queue) then old(generation) else old(generation) + 1
      ensures Step(Pruned(dirty), old(Now()), Now())
    {
      var oldLen := |queue|;
      queue := map c | c in queue && c in dirty :: queue[c];
      KeptIsSmaller(old(queue), queue);
      if |queue| != oldLen {
        BumpGeneration();
      }
    }

    /** select_ready_cell. */
    method SelectReady(now: nat) returns (r: Option<string>)
      requires Valid()
      modifies this`queue
      ensures Valid()
      ensures r.None? <==> forall c :: c in old(queue) ==> !Ready(old(queue)[c], now)
      ensures r.None? ==> queue == old(queue)
      ensures r.Some? ==> FirstInLine(old(queue), now, r.value)
      ensures r.Some? ==> Chosen(old(queue), now, r.value) && queue == Bumped(old(queue), now, r.value)
                          && r.value in old(queue) && r.value in queue
    {
      var ready := set c | c in queue && Ready(queue[c], now);
      var overdue := set c | c in ready && queue[c].bypasses >= MAX_READY_BYPASSES;
      if ready == {} {
        assert forall c :: c in queue && Ready(queue[c], now) ==> c in ready;
        return None;
      }
      var selected: string;
      if overdue != {} {
        selected := Soonest(overdue);
        assert Overdue(queue[selected], now);
      } else {
        selected := MostPreferred(ready);
        assert forall d :: d in queue && Overdue(queue[d], now) ==> d in overdue;
      }
      assert Chosen(queue, now, selected);
      ChosenIsFirstInLine(queue, now, selected);
      BumpAll(selected, now);
      return Some(selected);
    }

    method Soonest(among: set<string>) returns (best: string)
      requires Valid() && among != {} && among <= queue.Keys
      ensures best in among && forall c :: c in among && c != best ==> Sooner(queue[best], queue[c])
    {
      best :| best in among;
      var rest := among - {best};
      while rest != {}
        invariant rest <= among && best in among && best !in rest
        invariant forall c :: c in among && c !in rest && c != best ==> Sooner(queue[best], queue[c])
        decreases rest
      {
        var c :| c in rest;
        SoonerTotal(queue[c], queue[best]);
        if Sooner(queue[c], queue[best]) {
          forall d | d in among && d !in rest && d != best ensures Sooner(queue[c], queue[d]) {
            SoonerTransitive(queue[c], queue[best], queue[d]);
          }
          best := c;
        }
        rest := rest - {c};
      }
    }

    method MostPreferred(among: set<string>) returns (best: string)
      requires Valid() && among != {} && among <= queue.Keys
      ensures best in among && forall c :: c in among && c != best ==> Preferred(queue[best], queue[c])
    {
      best :| best in among;
      var rest := among - {best};
      while rest != {}
        invariant rest <= among && best in among && best !in rest
        invariant forall c :: c in among && c !in rest && c != best ==> Preferred(queue[best], queue[c])
        decreases rest
      {
        var c :| c in rest;
        SoonerTotal(queue[c], queue[best]);
        if Preferred(queue[c], queue[best]) {
          forall d | d in among && d !in rest && d != best ensures Preferred(queue[c], queue[d]) {
            if queue[c].priority == queue[best].priority == queue[d].priority {
              SoonerTransitive(queue[c], queue[best], queue[d]);
            }
          }
          best := c;
        }
        rest := rest - {c};
      }
    }

    /** The loop over the ready entries' counters. */
    method BumpAll(selected: string, now: nat)
      requires Valid()
      modifies this`queue
      ensures Valid() && queue == Bumped(old(queue), now, selected)
    {
      BumpedOrdered(queue, now, selected, nextSequence, nextRequest);
      var rest := queue.Keys;
      while rest != {}
        invariant rest <= queue.Keys == old(queue).Keys
        invariant forall c :: c in queue ==> queue[c] == if c in rest then old(queue)[c] else Bump(old(queue)[c], now, c == selected)
        decreases rest
      {
        hide Ordered, Bumped;
        var c :| c in rest;
        rest := rest - {c};
        if queue[c].readyAt > now {
          continue;
        }
        assert queue[c].cell == old(queue)[c].cell == c;
        if queue[c].cell == selected {
          queue := queue[c := queue[c].(bypasses := 0)];
        } else {
          queue := queue[c := queue[c].(bypasses := Bypassed(queue[c].bypasses))];
        }
      }
    }

    /** run_automatic_inner: each turn is one attempt on the entry that must be
        selected; how attempts end is given by `answers`.  The trace tells the queue
        before each turn and after the last. */
    method RunAutomatic(maxRequests: nat, now: nat, answers: nat -> Attempt) returns (run: Run, ghost trace: seq<Queue>, ghost picks: seq<string>)
      requires Valid()
      modifies this`queue, this`generation
      ensures Valid()
      ensures |picks| <= maxRequests && (|picks| == maxRequests || forall c :: c in queue ==> !Ready(queue[c], now))
      ensures |picks| <= |trace| && run.completed == Reported(trace, picks, answers, false) && run.exhausted == Reported(trace, picks, answers, true)
      ensures run.continuation == if queue == map[] then None else Some(generation)
      ensures Step(Attempts(now, answers, trace, picks), old(Now()), Now())
    {
      hide Ordered, Attempted, Bumped, Turn, Chosen, Reported;
      var completed, exhausted: seq<nat> := [], [];
      trace, picks := [queue], [];
      NothingReported(trace, answers);
      var i := 0;
      while i < maxRequests
        invariant Valid() && i <= maxRequests
        invariant |trace| == |picks| + 1 && |picks| == i && trace[0] == old(queue) && trace[i] == queue
        invariant forall k :: 0 <= k < i ==> Turn(trace[k], now, picks[k], answers(k), trace[k + 1])
        invariant completed == Reported(trace, picks, answers, false) && exhausted == Reported(trace, picks, answers, true)
        invariant if i == 0 then generation == old(generation) && queue == old(queue) else generation > old(generation)
      {
        ghost var before := queue;
        var selected := SelectReady(now);
        if selected.None? {
          break;
        }
        var request, ran := Execute(before, selected.value, now, answers(i));
        assert Turn(before, now, selected.value, answers(i), queue) by {
          TurnTaken(before, now, selected.value, answers(i));
        }
        if ran {
          exhausted := exhausted + [request];
        } else {
          completed := completed + [request];
        }
        ReportedNext(trace, picks, answers, false, selected.value, queue);
        ReportedNext(trace, picks, answers, true, selected.value, queue);
        trace, picks := trace + [queue], picks + [selected.value];
        i := i + 1;
      }
      run := Run(completed, exhausted, if queue == map[] then None else Some(generation));
    }

    /** The rest of a turn, once the entry has been selected. */
    method Execute(ghost before: Queue, cell: string, now: nat, answer: Attempt) returns (request: nat, exhausted: bool)
      requires Valid() && cell in before && cell in queue && queue == Bumped(before, now, cell)
      modifies this`queue, this`generation
      ensures Valid() && queue == Attempted(before, now, cell, answer) && exhausted == answer.exhausted.Some?
      ensures generation > old(generation) && request == before[cell].request
    {
      OrderedAt(before, now, cell);
      hide Ordered, Bumped, Attempted;
      var queued := queue[cell];
      ghost var bumped := queue;
      PartOrdered(bumped, bumped - {cell}, cell, queued, nextSequence, nextRequest);
      queue := queue - {cell};
      BumpGeneration();
      Prune(answer.dirty);
      if answer.exhausted.Some? {
        queued := queued.(continuation := answer.exhausted, readyAt := now);
        PartOrdered(bumped, queue, cell, queued, nextSequence, nextRequest);
        queue := queue[cell := queued];
        BumpGeneration();
      }
      AttemptIs(before, now, cell, answer);
      return queued.request, answer.exhausted.Some?;
    }

    lemma AttemptIs(before: Queue, now: nat, cell: string, answer: Attempt)
      requires cell in before
      ensures var bumped := Bumped(before, now, cell);
              var rest := map c | c in bumped - {cell} && c in answer.dirty :: (bumped - {cell})[c];
              && cell in bumped
              && Attempted(before, now, cell, answer)
                 == if answer.exhausted.Some? then rest[cell := bumped[cell].(continuation := answer.exhausted, readyAt := now)] else rest
    {
      hide Bump;
      var bumped := Bumped(before, now, cell);
      assert (map c | c in bumped - {cell} && c in answer.dirty :: (bumped - {cell})[c])
             == (map d | d in bumped && d != cell && d in answer.dirty :: bumped[d]);
    }

    lemma OrderedAt(before: Queue, now: nat, cell: string)
      requires Valid() && cell in before && queue == Bumped(before, now, cell)
      ensures cell in queue && queue[cell].cell == cell && queue[cell].request == before[cell].request
    {
    }

    /** continue_automatic accepts exactly the token of the present generation. */
    method Continue(token: nat, maxRequests: nat, now: nat, answers: nat -> Attempt) returns (r: Result<Run, QueueError>, ghost trace: seq<Queue>, ghost picks: seq<string>)
      requires Valid()
      modifies this`queue, this`generation
      ensures Valid()
      ensures r.Ok? <==> token == old(generation)
      ensures r.Err? ==> r.error == UnknownContinuation(token) && queue == old(queue) && generation == old(generation)
      ensures r.Ok? ==> Step(Attempts(now, answers, trace, picks), old(Now()), Now()) && |picks| <= maxRequests
    {
      if token != generation {
        return Err(UnknownContinuation(token)), [], [];
      }
      var run: Run;
      run, trace, picks := RunAutomatic(maxRequests, now, answers);
      r := Ok(run);
    }

    /** cancel_request. */
    method Cancel(request: nat) returns (found: bool)
      requires Valid()
      modifies this`queue, this`generation
      ensures Valid()
      ensures found <==> exists c :: c in old(queue) && old(queue)[c].request == request
      ensures Step(Cancelled(request), old(Now()), Now())
    {
      var holders := set c | c in queue && queue[c].request == request;
      if holders == {} {
        assert forall c :: c in queue && queue[c].request == request ==> c in holders;
        return false;
      }
      var key :| key in holders;
      queue := queue - {key};
      BumpGeneration();
      return true;
    }

    // ---- Snapshots ----

    method Snapshot() returns (snapshot: QueueSnapshot)
      requires Valid()
      ensures snapshot.generation == generation && snapshot.nextSequence == nextSequence
      ensures Lists(snapshot.entries, queue)
    {
      CellsNamed(queue, nextSequence, nextRequest);
      ListingStarts(queue);
      hide LexLess, Ordered, Listing, Lists;
      var entries: seq<Queued> := [];
      var rest := queue.Keys;
      while rest != {}
        invariant Listing(entries, queue, rest)
        decreases rest
      {
        var first := Least(rest);
        ListingNext(entries, queue, rest, first);
        entries := entries + [queue[first]];
        rest := rest - {first};
      }
      ListingEnds(entries, queue);
      return QueueSnapshot(generation, nextSequence, entries);
    }

    /** restore_automatic_queue. */
    method Restore(snapshot: QueueSnapshot) returns (r: Result<(), QueueError>)
      modifies this
      ensures r.Ok? <==> Accepted(snapshot.entries)
      ensures Step(Restored(snapshot), old(Now()), Now())
      ensures r.Err? ==> queue == old(queue) && generation == old(generation) && nextSequence == old(nextSequence)
                         && nextRequest == old(nextRequest)
      ensures r.Ok? ==> queue == Loaded(snapshot.entries) && generation == AtLeastOne(snapshot.generation)
                        && nextSequence == AtLeastOne(snapshot.nextSequence)
                        && nextRequest == RequestsAfter(snapshot.entries, old(nextRequest))
    {
      var loaded := Load(snapshot.entries, nextRequest);
      if loaded.Err? {
        return Err(loaded.error);
      }
      queue, nextRequest := loaded.value.0, loaded.value.1;
      generation, nextSequence := AtLeastOne(snapshot.generation), AtLeastOne(snapshot.nextSequence);
      return Ok(());
    }

    /** A restarted scheduler that restores a snapshot is where the first one was. */
    method Restart(fresh_: Scheduler)
      requires Valid() && fresh_.Valid() && fresh_ != this && forall c :: c in queue ==> c != "" && c[0] == '/'
      modifies fresh_
      ensures fresh_.Valid() && fresh_.queue == queue && fresh_.generation == generation && fresh_.nextSequence == nextSequence
      ensures fresh_.nextRequest >= old(fresh_.nextRequest)
    {
      var snapshot := Snapshot();
      LoadListed(snapshot.entries, queue);
      forall i, j | 0 <= i < j < |snapshot.entries| ensures snapshot.entries[i].cell != snapshot.entries[j].cell {
        LexTotal(snapshot.entries[i].cell, snapshot.entries[j].cell);
      }
      RequestsCover(snapshot.entries, fresh_.nextRequest);
      var restored := fresh_.Restore(snapshot);
    }
  }

  /** The loop of restore_automatic_queue. */
  method Load(entries: seq<Queued>, nextRequest: nat) returns (r: Result<(Queue, nat), QueueError>)
    ensures r.Ok? <==> Accepted(entries)
    ensures r.Ok? ==> r.value == (Loaded(entries), RequestsAfter(entries, nextRequest))
  {
    var restored: Queue := map[];
    var next := nextRequest;
    for i := 0 to |entries|
      invariant restored == Loaded(entries[..i]) && next == RequestsAfter(entries[..i], nextRequest)
      invariant Accepted(entries[..i])
    {
      var entry := entries[i];
      LoadStep(entries, i, nextRequest);
      hide Accepted, Loaded, RequestsAfter;
      if entry.cell == "" || entry.cell[0] != '/' {
        return Err(CorruptQueue(entry.cell));
      }
      next := Later(next, entry.request + 1);
      if entry.cell in restored {
        RepeatedCell(entries, i);
        return Err(CorruptQueue(entry.cell));
      }
      restored := restored[entry.cell := entry];
    }
    assert entries[..|entries|] == entries;
    return Ok((restored, next));
  }

  lemma LoadStep(entries: seq<Queued>, i: nat, next: nat)
    requires i < |entries| && Accepted(entries[..i])
    ensures Loaded(entries[..i + 1]) == Loaded(entries[..i])[entries[i].cell := entries[i]]
    ensures RequestsAfter(entries[..i + 1], next) == Later(RequestsAfter(entries[..i], next), entries[i].request + 1)
    ensures entries[i].cell != "" && entries[i].cell[0] == '/' && entries[i].cell !in Loaded(entries[..i]) ==> Accepted(entries[..i + 1])
    ensures entries[i].cell == "" || entries[i].cell[0] != '/' ==> !Accepted(entries)
  {
    assert entries[..i + 1][..i] == entries[..i] && entries[..i + 1][i] == entries[i];
    AcceptedStep(entries, i);
    hide Accepted;
  }

  lemma AcceptedStep(entries: seq<Queued>, i: nat)
    requires i < |entries| && Accepted(entries[..i])
    ensures entries[i].cell != "" && entries[i].cell[0] == '/' && entries[i].cell !in Loaded(entries[..i]) ==> Accepted(entries[..i + 1])
    ensures entries[i].cell == "" || entries[i].cell[0] != '/' ==> !Accepted(entries)
  {
    LoadedHas(entries[..i]);
    hide Loaded;
    if entries[i].cell !in Loaded(entries[..i]) {
      forall k | 0 <= k < i ensures entries[k].cell != entries[i].cell {
        assert entries[..i][k] == entries[k];
      }
    }
  }

  lemma RepeatedCell(entries: seq<Queued>, i: nat)
    requires i < |entries| && Accepted(entries[..i]) && entries[i].cell in Loaded(entries[..i])
    ensures !Accepted(entries)
  {
    LoadedHas(entries[..i]);
    var e := Loaded(entries[..i])[entries[i].cell];
    var k :| 0 <= k < i && entries[..i][k] == e;
    assert entries[k].cell == entries[i].cell;
  }

  lemma {:induction false} KeptIsSmaller(all: Queue, some: Queue)
    requires forall c :: c in some ==> c in all && some[c] == all[c]
    ensures |some| <= |all| && (|some| == |all| <==> some == all)
  {
    SubsetSmaller(all.Keys, some.Keys);
    if some.Keys == all.Keys {
      assert some == all;
    }
  }
}
