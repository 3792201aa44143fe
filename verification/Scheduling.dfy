/** The automatic queue: which entry is selected next, and why none waits forever. */
module Scheduling {
  import opened Syntax
  import opened Collections
  import opened Texts

  const MAX_READY_BYPASSES := 3
  const BYPASS_CEILING := 255

  /** One queued automatic calculation. */
  datatype Queued = Queued(
    request: nat, cell: string, readyAt: nat, priority: int, sequence: nat, bypasses: nat, continuation: Option<nat>)

  type Queue = map<string, Queued>

  // ---- The order of selection ----

  predicate Ready(e: Queued, now: nat) {
    e.readyAt <= now
  }

  predicate Overdue(e: Queued, now: nat) {
    Ready(e, now) && e.bypasses >= MAX_READY_BYPASSES
  }

  /** Queued earlier; cell names settle a tie. */
  predicate Sooner(a: Queued, b: Queued) {
    a.sequence < b.sequence || (a.sequence == b.sequence && LexLess(a.cell, b.cell))
  }

  predicate Preferred(a: Queued, b: Queued) {
    a.priority > b.priority || (a.priority == b.priority && Sooner(a, b))
  }

  lemma SoonerTotal(a: Queued, b: Queued)
    ensures a.cell != b.cell ==> Sooner(a, b) || Sooner(b, a)
    ensures !(Sooner(a, b) && Sooner(b, a))
  {
    LexTotal(a.cell, b.cell);
  }

  lemma SoonerTransitive(a: Queued, b: Queued, c: Queued)
    requires Sooner(a, b) && Sooner(b, c)
    ensures Sooner(a, c)
  {
    if a.sequence == b.sequence == c.sequence {
      LexTransitive(a.cell, b.cell, c.cell);
    }
  }

  /** The entry a selection must take: the oldest overdue one if there is any, else
      the highest priority and the oldest among those. */
  ghost predicate Chosen(q: Queue, now: nat, c: string) {
    && c in q && Ready(q[c], now)
    && if (exists d :: d in q && Overdue(q[d], now))
       then Overdue(q[c], now) && forall d :: d in q && Overdue(q[d], now) && d != c ==> Sooner(q[c], q[d])
       else forall d :: d in q && Ready(q[d], now) && d != c ==> Preferred(q[c], q[d])
  }

  lemma ChosenUnique(q: Queue, now: nat, c: string, d: string)
    requires Chosen(q, now, c) && Chosen(q, now, d)
    ensures c == d
  {
    SoonerTotal(q[c], q[d]);
  }

  /** Ready, and passed over at least three times. */
  predicate PassedOverThrice(e: Queued, now: nat) {
    e.readyAt <= now && e.bypasses >= 3
  }

  /** First in line: the one queued first among the ready entries passed over three
      times or more, if there are any; otherwise no ready entry has a higher priority,
      and none of the same priority was queued before it. */
  ghost predicate FirstInLine(q: Queue, now: nat, c: string) {
    && c in q && q[c].readyAt <= now
    && if exists d :: d in q && PassedOverThrice(q[d], now)
       then PassedOverThrice(q[c], now) && forall d :: d in q && PassedOverThrice(q[d], now) ==> q[c].sequence <= q[d].sequence
       else forall d :: d in q && q[d].readyAt <= now ==>
              q[d].priority <= q[c].priority && (q[d].priority == q[c].priority ==> q[c].sequence <= q[d].sequence)
  }

  lemma ChosenIsFirstInLine(q: Queue, now: nat, c: string)
    requires Distinct(q)
    ensures Chosen(q, now, c) <==> FirstInLine(q, now, c)
  {
    assert forall d :: d in q ==> (Overdue(q[d], now) <==> PassedOverThrice(q[d], now));
    if c in q {
      forall d | d in q && d != c ensures Sooner(q[c], q[d]) <==> q[c].sequence <= q[d].sequence {
      }
    }
  }

  function Bypassed(n: nat): nat {
    if n < BYPASS_CEILING then n + 1 else n
  }

  function Bump(e: Queued, now: nat, selected: bool): Queued {
    if !Ready(e, now) then e else if selected then e.(bypasses := 0) else e.(bypasses := Bypassed(e.bypasses))
  }

  /** What a selection does to the counters of the ready entries. */
  function Bumped(q: Queue, now: nat, c: string): Queue {
    map d | d in q :: Bump(q[d], now, d == c)
  }

  /** How an attempt ended: the continuation if its budget ran out, and which cells
      are dirty afterwards. */
  datatype Attempt = Attempt(exhausted: Option<nat>, dirty: set<string>)

  /** The queue after one attempt on the selected entry: it leaves, satisfied
      entries leave, and it comes back if its budget ran out. */
  function Attempted(q: Queue, now: nat, c: string, a: Attempt): Queue
    requires c in q
  {
    var rest := map d | d in Bumped(q, now, c) && d != c && d in a.dirty :: Bumped(q, now, c)[d];
    if a.exhausted.Some? then rest[c := Bumped(q, now, c)[c].(continuation := a.exhausted, readyAt := now)] else rest
  }

  /** Entries sit under their own cell, and no sequence or request number repeats
      or has yet to be given out. */
  ghost predicate Ordered(q: Queue, nextSequence: nat, nextRequest: nat) {
    && (forall c :: c in q ==> q[c].cell == c && q[c].sequence < nextSequence && q[c].request < nextRequest)
    && (forall c, d :: c in q && d in q && c != d ==> q[c].sequence != q[d].sequence && q[c].request != q[d].request)
  }

  /** What an attempt leaves at each cell. */
  lemma AttemptAt(q: Queue, now: nat, c: string, a: Attempt, d: string)
    requires c in q
    ensures var next := Attempted(q, now, c, a);
            && (d in next <==> if d == c then a.exhausted.Some? else d in q && d in a.dirty)
            && (d in next && d == c ==> next[d] == q[d].(bypasses := if Ready(q[d], now) then 0 else q[d].bypasses,
                                                         continuation := a.exhausted, readyAt := now))
            && (d in next && d != c ==> next[d] == q[d].(bypasses := if Ready(q[d], now) then Bypassed(q[d].bypasses) else q[d].bypasses))
  {
  }

  lemma AttemptOrdered(q: Queue, nextSequence: nat, nextRequest: nat, now: nat, c: string, a: Attempt)
    requires Ordered(q, nextSequence, nextRequest) && c in q
    ensures Ordered(Attempted(q, now, c, a), nextSequence, nextRequest)
    ensures forall d :: d in Attempted(q, now, c, a) ==>
              d in q && Attempted(q, now, c, a)[d].request == q[d].request && Attempted(q, now, c, a)[d].sequence == q[d].sequence
  {
    forall d | d in Attempted(q, now, c, a)
      ensures d in q && Attempted(q, now, c, a)[d].request == q[d].request && Attempted(q, now, c, a)[d].sequence == q[d].sequence
              && Attempted(q, now, c, a)[d].cell == q[d].cell
    {
      AttemptAt(q, now, c, a, d);
    }
    hide Attempted;
  }

  // ---- Bounded bypass ----

  ghost function Older(q: Queue, x: string): set<string>
    requires x in q
  {
    set y | y in q && q[y].sequence < q[x].sequence
  }

  ghost predicate Distinct(q: Queue) {
    forall c, d :: c in q && d in q && c != d ==> q[c].sequence != q[d].sequence
  }

  /** A selection took another ready entry and x, still queued and ready, waits on;
      meanwhile anything may join behind x, leave, or change its readiness or
      priority.  `returns` says whether a selected entry may come back. */
  ghost predicate Passed(q: Queue, now: nat, next: Queue, x: string, returns_: bool) {
    && Distinct(q) && x in q && Ready(q[x], now) && x in next
    && next[x].sequence == q[x].sequence
    && next[x].bypasses == Bypassed(q[x].bypasses)
    && exists s :: PassedFor(q, now, next, x, s, returns_)
  }

  /** Who was selected instead, and what became of the entries older than x. */
  ghost predicate PassedFor(q: Queue, now: nat, next: Queue, x: string, s: string, returns_: bool)
    requires x in q
  {
    && Chosen(q, now, s) && s != x
    && forall y :: y in next && next[y].sequence < q[x].sequence ==>
         && y in q && next[y].sequence == q[y].sequence
         && (y == s ==> returns_)
         && next[y].bypasses <= if y == s then 0 else Bypassed(q[y].bypasses)
  }

  /** Attempts on other entries pass x over, and only an exhausted one returns. */
  lemma AttemptPasses(q: Queue, now: nat, s: string, a: Attempt, x: string, returns_: bool)
    requires Distinct(q) && Chosen(q, now, s) && s != x
    requires x in q && Ready(q[x], now) && x in Attempted(q, now, s, a)
    requires a.exhausted.Some? ==> returns_
    ensures Passed(q, now, Attempted(q, now, s, a), x, returns_) && Distinct(Attempted(q, now, s, a))
  {
    AttemptAt(q, now, s, a, x);
    AttemptDistinct(q, now, s, a);
    hide Attempted;
    var next := Attempted(q, now, s, a);
    forall y | y in next && next[y].sequence < q[x].sequence
      ensures y in q && next[y].sequence == q[y].sequence && (y == s ==> returns_)
              && next[y].bypasses <= if y == s then 0 else Bypassed(q[y].bypasses)
    {
      AttemptAt(q, now, s, a, y);
    }
    assert PassedFor(q, now, next, x, s, returns_);
  }

  lemma AttemptDistinct(q: Queue, now: nat, s: string, a: Attempt)
    requires Distinct(q) && s in q
    ensures Distinct(Attempted(q, now, s, a))
  {
    hide Attempted;
    forall y | y in Attempted(q, now, s, a) ensures y in q && Attempted(q, now, s, a)[y].sequence == q[y].sequence {
      AttemptAt(q, now, s, a, y);
    }
  }

  /** Nothing was selected and x kept its place and its count: entries older than x
      were there before, with the same place and count. */
  ghost predicate Waited(q: Queue, later: Queue, x: string) {
    && (Distinct(q) ==> Distinct(later))
    && x in q && x in later && later[x].sequence == q[x].sequence && later[x].bypasses == q[x].bypasses
    && forall y :: y in later && later[y].sequence < q[x].sequence ==>
         y in q && later[y].sequence == q[y].sequence && later[y].bypasses == q[y].bypasses
  }

  lemma WaitedOn(q: Queue, next: Queue, later: Queue, x: string)
    requires Waited(q, next, x) && Waited(next, later, x)
    ensures Waited(q, later, x)
    ensures Older(later, x) <= Older(q, x)
  {
    hide Distinct;
  }

  /** Waiting after a selection is among what being passed over allows for. */
  lemma PassedThenWaited(q: Queue, now: nat, next: Queue, later: Queue, x: string, returns_: bool)
    requires Passed(q, now, next, x, returns_) && Waited(next, later, x)
    ensures Passed(q, now, later, x, returns_)
  {
    hide Chosen, Distinct;
    var s :| PassedFor(q, now, next, x, s, returns_);
    assert PassedFor(q, now, later, x, s, returns_);
  }

  function Patience(bypasses: nat): nat {
    if bypasses < MAX_READY_BYPASSES then MAX_READY_BYPASSES - bypasses else 0
  }

  /** Each selection that passes x over uses up a bypass or an older entry. */
  lemma PassCosts(q: Queue, now: nat, next: Queue, x: string)
    requires Passed(q, now, next, x, false)
    ensures Patience(next[x].bypasses) + |Older(next, x)| < Patience(q[x].bypasses) + |Older(q, x)|
  {
    var s :| PassedFor(q, now, next, x, s, false);
    assert Older(next, x) <= Older(q, x) - {s};
    SubsetSmaller(Older(q, x) - {s}, Older(next, x));
    if Overdue(q[x], now) {
      assert Sooner(q[s], q[x]);
      assert s in Older(q, x);
    } else {
      SubsetSmaller(Older(q, x), Older(q, x) - {s});
    }
  }

  /** An entry that stays queued and ready is passed over at most three times plus
      once for every entry queued before it, when selected entries do not come
      back with their place in the queue. */
  lemma {:induction false} BoundedBypass(trace: seq<Queue>, nows: seq<nat>, x: string)
    requires |trace| == |nows| + 1
    requires forall i :: 0 <= i < |nows| ==> Passed(trace[i], nows[i], trace[i + 1], x, false)
    requires x in trace[0]
    ensures |nows| <= Patience(trace[0][x].bypasses) + |Older(trace[0], x)|
  {
    if nows != [] {
      assert Passed(trace[0], nows[0], trace[1], x, false);
      PassCosts(trace[0], nows[0], trace[1], x);
      forall i | 0 <= i < |nows[1..]| ensures Passed(trace[1..][i], nows[1..][i], trace[1..][i + 1], x, false) {
        assert Passed(trace[i + 1], nows[i + 1], trace[i + 2], x, false);
      }
      BoundedBypass(trace[1..], nows[1..], x);
    }
  }

  // ---- Entries that come back ----

  /** Who was selected in each round of a trace that passes x over. */
  ghost predicate Rounds(trace: seq<Queue>, nows: seq<nat>, x: string, picks: seq<string>) {
    && |trace| == |nows| + 1 && |picks| == |nows|
    && x in trace[0]
    && (forall i :: 0 <= i < |nows| ==> Round(trace[i], nows[i], trace[i + 1], x, picks[i]))
  }

  ghost predicate Round(q: Queue, now: nat, next: Queue, x: string, s: string) {
    && Distinct(q) && x in q && Ready(q[x], now) && x in next
    && next[x].sequence == q[x].sequence && next[x].bypasses == Bypassed(q[x].bypasses)
    && Chosen(q, now, s) && s != x
    && forall y :: y in next && next[y].sequence < q[x].sequence ==>
         && y in q && next[y].sequence == q[y].sequence
         && next[y].bypasses <= if y == s then 0 else Bypassed(q[y].bypasses)
  }

  lemma PickOf(q: Queue, now: nat, next: Queue, x: string) returns (s: string)
    requires Passed(q, now, next, x, true)
    ensures Round(q, now, next, x, s)
  {
    s :| PassedFor(q, now, next, x, s, true);
  }

  lemma {:induction false} PicksExist(trace: seq<Queue>, nows: seq<nat>, x: string) returns (picks: seq<string>)
    requires |trace| == |nows| + 1 && x in trace[0]
    requires forall i :: 0 <= i < |nows| ==> Passed(trace[i], nows[i], trace[i + 1], x, true)
    ensures Rounds(trace, nows, x, picks)
  {
    hide Round, Passed;
    picks := [];
    for i := 0 to |nows|
      invariant |picks| == i
      invariant forall k :: 0 <= k < i ==> Round(trace[k], nows[k], trace[k + 1], x, picks[k])
    {
      assert Passed(trace[i], nows[i], trace[i + 1], x, true);
      var s := PickOf(trace[i], nows[i], trace[i + 1], x);
      picks := picks + [s];
    }
  }

  lemma {:induction false} WaitingCounts(trace: seq<Queue>, nows: seq<nat>, x: string, picks: seq<string>, i: nat)
    requires Rounds(trace, nows, x, picks) && i <= |nows|
    ensures x in trace[i] && trace[i][x].sequence == trace[0][x].sequence
    ensures trace[i][x].bypasses >= if i < MAX_READY_BYPASSES then i else MAX_READY_BYPASSES
    ensures Older(trace[i], x) <= Older(trace[0], x)
  {
    if i > 0 {
      WaitingCounts(trace, nows, x, picks, i - 1);
      assert Round(trace[i - 1], nows[i - 1], trace[i], x, picks[i - 1]);
    }
  }

  /** Once x is overdue only an overdue older entry can be selected before it. */
  lemma LatePick(trace: seq<Queue>, nows: seq<nat>, x: string, picks: seq<string>, i: nat)
    requires Rounds(trace, nows, x, picks) && MAX_READY_BYPASSES <= i < |nows|
    ensures x in trace[0] && picks[i] in Older(trace[0], x)
    ensures picks[i] in trace[i] && trace[i][picks[i]].bypasses >= MAX_READY_BYPASSES
  {
    WaitingCounts(trace, nows, x, picks, i);
    assert Round(trace[i], nows[i], trace[i + 1], x, picks[i]);
    assert Overdue(trace[i][x], nows[i]);
    assert Sooner(trace[i][picks[i]], trace[i][x]);
    assert picks[i] in Older(trace[i], x);
  }

  /** A selected entry starts over: after k more rounds it has at most k bypasses. */
  lemma {:induction false} StartsOver(trace: seq<Queue>, nows: seq<nat>, x: string, picks: seq<string>, i: nat, j: nat)
    requires Rounds(trace, nows, x, picks) && MAX_READY_BYPASSES <= i < j <= |nows|
    requires picks[i] in trace[j] && x in trace[j] && trace[j][picks[i]].sequence < trace[j][x].sequence
    ensures trace[j][picks[i]].bypasses <= j - i - 1
  {
    WaitingCounts(trace, nows, x, picks, j);
    WaitingCounts(trace, nows, x, picks, j - 1);
    assert Round(trace[j - 1], nows[j - 1], trace[j], x, picks[j - 1]);
    if j - 1 > i {
      StartsOver(trace, nows, x, picks, i, j - 1);
    }
  }

  /** Four late picks in a row are four different entries. */
  lemma LatePicksDiffer(trace: seq<Queue>, nows: seq<nat>, x: string, picks: seq<string>, i: nat, j: nat)
    requires Rounds(trace, nows, x, picks) && MAX_READY_BYPASSES <= i < j < |nows| && j - i <= MAX_READY_BYPASSES
    ensures picks[i] != picks[j]
  {
    LatePick(trace, nows, x, picks, j);
    if picks[i] == picks[j] {
      WaitingCounts(trace, nows, x, picks, j);
      assert Round(trace[j], nows[j], trace[j + 1], x, picks[j]);
      assert Sooner(trace[j][picks[j]], trace[j][x]);
      StartsOver(trace, nows, x, picks, i, j);
    }
  }

  /** When exhausted entries do come back with their place, an entry with at most
      three older ones is still passed over at most six times. */
  lemma SelectedBySeventh(trace: seq<Queue>, nows: seq<nat>, x: string)
    requires |trace| == |nows| + 1 && x in trace[0] && |Older(trace[0], x)| <= 3
    requires forall i :: 0 <= i < |nows| ==> Passed(trace[i], nows[i], trace[i + 1], x, true)
    ensures |nows| <= 6
  {
    if |nows| >= 7 {
      var picks := PicksExist(trace, nows, x);
      FourLatePicks(trace, nows, x, picks);
    }
  }

  lemma FourLatePicks(trace: seq<Queue>, nows: seq<nat>, x: string, picks: seq<string>)
    requires Rounds(trace, nows, x, picks) && |nows| >= 7
    ensures |Older(trace[0], x)| >= 4
  {
    LatePick(trace, nows, x, picks, 3);
    LatePick(trace, nows, x, picks, 4);
    LatePick(trace, nows, x, picks, 5);
    LatePick(trace, nows, x, picks, 6);
    LatePicksDiffer(trace, nows, x, picks, 3, 4);
    LatePicksDiffer(trace, nows, x, picks, 3, 5);
    LatePicksDiffer(trace, nows, x, picks, 3, 6);
    LatePicksDiffer(trace, nows, x, picks, 4, 5);
    LatePicksDiffer(trace, nows, x, picks, 4, 6);
    LatePicksDiffer(trace, nows, x, picks, 5, 6);
    hide Rounds, Older;
    FourIn(Older(trace[0], x), picks[3], picks[4], picks[5], picks[6]);
  }

  lemma FourIn<T>(all: set<T>, a: T, b: T, c: T, d: T)
    requires a in all && b in all && c in all && d in all
    requires a != b && a != c && a != d && b != c && b != d && c != d
    ensures |all| >= 4
  {
    var rest := all - {a} - {b} - {c};
    assert d in rest;
    assert |all| == |all - {a}| + 1 && |all - {a}| == |all - {a} - {b}| + 1 && |all - {a} - {b}| == |rest| + 1;
  }

  // ---- Four older entries that always come back starve a fifth ----

  datatype Crowd = Crowd(a: string, b: string, c: string, d: string, x: string)
  {
    predicate Distinct() {
      a != b && a != c && a != d && a != x && b != c && b != d && b != x && c != d && c != x && d != x
    }

    /** The queue when the counters stand like this. */
    function Standing(ca: nat, cb: nat, cc: nat, cd: nat, cx: nat): Queue {
      map[a := Queued(1, a, 0, 0, 1, ca, Some(0)), b := Queued(2, b, 0, 0, 2, cb, Some(0)), c := Queued(3, c, 0, 0, 3, cc, Some(0)),
          d := Queued(4, d, 0, 0, 4, cd, Some(0)), x := Queued(5, x, 0, 0, 5, cx, Some(0))]
    }

    /** The queue before round n. */
    function At(n: nat): Queue {
      var cx := if n < BYPASS_CEILING then n else BYPASS_CEILING;
      if n < 4 then Standing(0, n, n, n, cx)
      else if n == 4 then Standing(1, 0, 4, 4, cx)
      else if n == 5 then Standing(2, 1, 0, 5, cx)
      else
        match (n - 6) % 4
        case 0 => Standing(3, 2, 1, 0, cx)
        case 1 => Standing(0, 3, 2, 1, cx)
        case 2 => Standing(1, 0, 3, 2, cx)
        case _ => Standing(2, 1, 0, 3, cx)
    }

    function Exhausting(): Attempt {
      Attempt(Some(0), {a, b, c, d, x})
    }

    lemma Members(ca: nat, cb: nat, cc: nat, cd: nat, cx: nat)
      requires Distinct()
      ensures var q := Standing(ca, cb, cc, cd, cx);
              && q.Keys == {a, b, c, d, x}
              && q[a] == Queued(1, a, 0, 0, 1, ca, Some(0)) && q[b] == Queued(2, b, 0, 0, 2, cb, Some(0))
              && q[c] == Queued(3, c, 0, 0, 3, cc, Some(0)) && q[d] == Queued(4, d, 0, 0, 4, cd, Some(0))
              && q[x] == Queued(5, x, 0, 0, 5, cx, Some(0))
    {
    }

    /** One of the five is selected, exhausts its budget and returns. */
    lemma Turn(ca: nat, cb: nat, cc: nat, cd: nat, cx: nat, p: string)
      requires Distinct() && p in {a, b, c, d}
      ensures p in Standing(ca, cb, cc, cd, cx)
      ensures Attempted(Standing(ca, cb, cc, cd, cx), 0, p, Exhausting())
              == Standing(if p == a then 0 else Bypassed(ca), if p == b then 0 else Bypassed(cb), if p == c then 0 else Bypassed(cc),
                          if p == d then 0 else Bypassed(cd), Bypassed(cx))
    {
      var q := Standing(ca, cb, cc, cd, cx);
      var na, nb := if p == a then 0 else Bypassed(ca), if p == b then 0 else Bypassed(cb);
      var nc, nd := if p == c then 0 else Bypassed(cc), if p == d then 0 else Bypassed(cd);
      var next, back := Standing(na, nb, nc, nd, Bypassed(cx)), Attempted(q, 0, p, Exhausting());
      Members(ca, cb, cc, cd, cx);
      Members(na, nb, nc, nd, Bypassed(cx));
      hide Crowd.Standing, Attempted, Bumped, Bypassed;
      forall e: string ensures e in back <==> e in next {
        AttemptAt(q, 0, p, Exhausting(), e);
      }
      AttemptAt(q, 0, p, Exhausting(), a);
      AttemptAt(q, 0, p, Exhausting(), b);
      AttemptAt(q, 0, p, Exhausting(), c);
      AttemptAt(q, 0, p, Exhausting(), d);
      AttemptAt(q, 0, p, Exhausting(), x);
      assert back[a] == next[a] && back[b] == next[b] && back[c] == next[c] && back[d] == next[d] && back[x] == next[x];
      SameMap(back, next);
    }

    /** With no entry overdue the oldest of equal priority is selected; otherwise
        the oldest overdue one. */
    lemma Oldest(ca: nat, cb: nat, cc: nat, cd: nat, cx: nat)
      requires Distinct()
      ensures var q := Standing(ca, cb, cc, cd, cx);
              && (ca >= 3 || (cb < 3 && cc < 3 && cd < 3 && cx < 3) ==> Chosen(q, 0, a))
              && (ca < 3 && cb >= 3 ==> Chosen(q, 0, b))
              && (ca < 3 && cb < 3 && cc >= 3 ==> Chosen(q, 0, c))
              && (ca < 3 && cb < 3 && cc < 3 && cd >= 3 ==> Chosen(q, 0, d))
    {
      Members(ca, cb, cc, cd, cx);
      hide Crowd.Standing;
      var q := Standing(ca, cb, cc, cd, cx);
      assert cb >= 3 ==> Overdue(q[b], 0);
      assert cc >= 3 ==> Overdue(q[c], 0);
      assert cd >= 3 ==> Overdue(q[d], 0);
    }

    /** In every round an older entry is selected, runs out of budget and returns. */
    lemma Round(n: nat) returns (pick: string)
      requires Distinct()
      ensures pick != x && pick in At(n) && Chosen(At(n), 0, pick) && Attempted(At(n), 0, pick, Exhausting()) == At(n + 1)
    {
      hide Chosen, Attempted, Crowd.Standing, Crowd.Exhausting;
      var cx := if n < BYPASS_CEILING then n else BYPASS_CEILING;
      var ca, cb, cc, cd := 0, n, n, n;
      pick := a;
      if n == 3 {
        pick := b;
      } else if n == 4 {
        ca, cb, pick := 1, 0, c;
      } else if n == 5 {
        ca, cb, cc, pick := 2, 1, 0, d;
      } else if n >= 6 && (n - 6) % 4 == 0 {
        ca, cb, cc, cd, pick := 3, 2, 1, 0, a;
      } else if n >= 6 && (n - 6) % 4 == 1 {
        ca, cb, cc, cd, pick := 0, 3, 2, 1, b;
      } else if n >= 6 && (n - 6) % 4 == 2 {
        ca, cb, cc, cd, pick := 1, 0, 3, 2, c;
      } else if n >= 6 {
        ca, cb, cc, cd, pick := 2, 1, 0, 3, d;
      }
      assert At(n) == Standing(ca, cb, cc, cd, cx);
      Oldest(ca, cb, cc, cd, cx);
      Turn(ca, cb, cc, cd, cx, pick);
    }

    lemma OlderFour()
      requires Distinct()
      ensures At(0) == Standing(0, 0, 0, 0, 0) && x in At(0) && Older(At(0), x) == {a, b, c, d}
    {
      Members(0, 0, 0, 0, 0);
      hide Crowd.Standing;
    }

    /** A round in which the fifth entry is ready and another is selected, runs out
        of budget and returns. */
    ghost predicate Starves(q: Queue, next: Queue) {
      && x in q && Ready(q[x], 0)
      && exists s :: s in q && s != x && Chosen(q, 0, s) && next == Attempted(q, 0, s, Exhausting())
    }

    lemma StarvedRound(n: nat)
      requires Distinct()
      ensures Starves(At(n), At(n + 1))
    {
      hide Chosen, Attempted, Crowd.Exhausting;
      var s := Round(n);
    }

    /** With four older entries that always exhaust their budget there are runs of
        every length in which the fifth entry is ready and never selected. */
    lemma Starvation(rounds: nat) returns (trace: seq<Queue>)
      requires Distinct()
      ensures |trace| == rounds + 1 && x in trace[0] && Older(trace[0], x) == {a, b, c, d}
      ensures forall i :: 0 <= i < rounds ==> Starves(trace[i], trace[i + 1])
    {
      OlderFour();
      hide Crowd.Starves, Crowd.At, Older;
      trace := seq(rounds + 1, i requires 0 <= i => At(i));
      forall i | 0 <= i < rounds ensures Starves(trace[i], trace[i + 1]) {
        StarvedRound(i);
      }
    }
  }
}
