/** One authoritative session. */
module Sessions {
  // Its revision, its change history, its bounded change feed and watches, and the
  // surface operations applied locally.

  import opened Syntax
  import opened PathText

  type SessionId = nat

  datatype WatchId = WatchId(session: SessionId, number: nat)

  datatype Token = Token(session: SessionId, revision: nat, number: nat)

  datatype Page = Page(path: string, offset: nat, revision: nat)

  datatype Limits = Limits(
    maxSessions: nat, maxIdleTicks: nat, maxWatches: nat, watchCapacity: nat, maxPageEntries: nat, maxSnapshotDepth: nat)
  {
    predicate Valid() {
      maxSessions > 0 && maxIdleTicks > 0 && maxWatches > 0 && watchCapacity > 0 && maxPageEntries > 0 && maxSnapshotDepth > 0
    }
  }

  datatype ServerError =
    | SessionLimit
    | SessionBusy
    | UnknownSession
    | LostReservation
    | StaleRevision(expected: nat, current: nat)
    | SessionMismatch
    | InvalidOperation
    | InvalidContinuation
    | StaleContinuation
    | WatchLimit
    | UnknownWatch
    | OperationFailed
    | Internal

  datatype Event = Event(
    resource: SessionId, revision: nat, tick: nat, wall: Option<nat>, kind: string, path: Option<string>)

  datatype Batch = Batch(events: seq<Event>, dropped: nat, cancelled: bool)

  /** A surface operation handled without the runtime. */
  datatype LocalOp =
    | Disclose(path: string, open: bool)
    | Continue(path: string, token: Option<Token>)
    | OpenPolicy(path: string)
    | OtherLocal(path: string)

  /** What a snapshot of the tree came across: the pages it had to cut short, in
      order, and whether reading the tree succeeded. */
  datatype Rendering = Rendering(cut: seq<(string, nat)>, ok: bool)

  predicate IsRevisionChange(kind: string) {
    kind !in ["ref", "list", "status", "explain", "open-policy"]
  }

  function Min(a: nat, b: nat): nat {
    if a <= b then a else b
  }

  // ---- Bounded queues ----

  function Bounded(queue: seq<Event>, event: Event, capacity: nat): seq<Event> {
    (if |queue| == capacity && queue != [] then queue[1..] else queue) + [event]
  }

  /** A queue that holds the end of the history from `start` on. */
  ghost predicate Tail(queue: seq<Event>, history: seq<Event>, start: nat, capacity: nat) {
    |queue| <= capacity && start + |queue| == |history| && queue == history[start..]
  }

  /** A bounded push keeps holding the end of the history; the start moves by one
      exactly when an event is dropped. */
  lemma PushKeepsTail(queue: seq<Event>, history: seq<Event>, start: nat, capacity: nat, event: Event)
    requires Tail(queue, history, start, capacity) && capacity > 0
    ensures Tail(Bounded(queue, event, capacity), history + [event], if |queue| == capacity then start + 1 else start, capacity)
  {
  }

  lemma DrainKeepsTail(queue: seq<Event>, history: seq<Event>, start: nat, capacity: nat, count: nat)
    requires Tail(queue, history, start, capacity) && count <= |queue|
    ensures Tail(queue[count..], history, start + count, capacity)
  {
  }

  /** The state of one watch.  Two counters are kept for the accounting alone:
      `since`, the session's revision when the watch was made, and `polled`, the
      number of events handed out. */
  datatype Watch = Watch(events: seq<Event>, dropped: nat, cancelled: bool, since: nat, polled: nat)
  {
    function Push(event: Event, capacity: nat): Watch {
      if cancelled then this
      else this.(events := Bounded(events, event, capacity), dropped := if |events| == capacity then dropped + 1 else dropped)
    }

    /** Every event since the watch was made was dropped, polled or is queued, in
        that order of age as far as the queue goes. */
    ghost predicate Accounted(history: seq<Event>, capacity: nat) {
      if cancelled then events == [] else since >= 1 && Tail(events, history, since - 1 + polled + dropped, capacity)
    }
  }

  /** One more event, at the next revision and a later tick. */
  lemma ChronicleGrows(id: SessionId, revision: nat, lastTick: nat, history: seq<Event>, event: Event)
    requires Chronicle(id, revision, lastTick, history)
    requires event.resource == id && event.revision == revision + 1 && event.tick <= lastTick
    requires forall i :: 0 <= i < |history| ==> history[i].tick < event.tick
    ensures Chronicle(id, revision + 1, lastTick, history + [event])
  {
  }

  // ---- The session as a value ----

  ghost predicate Chronicle(id: SessionId, revision: nat, lastTick: nat, history: seq<Event>) {
    && revision == |history| + 1
    && (forall i :: 0 <= i < |history| ==> history[i].revision == i + 2 && history[i].resource == id && history[i].tick <= lastTick)
    && (forall i, j :: 0 <= i < j < |history| ==> history[i].tick < history[j].tick)
  }

  ghost predicate WatchesSane(id: SessionId, watches: map<WatchId, Watch>, nextWatch: nat, history: seq<Event>, limits: Limits) {
    && |watches| <= limits.maxWatches
    && (forall w :: w in watches ==> w.session == id && w.number < nextWatch)
    && (forall w :: w in watches ==> watches[w].Accounted(history, limits.watchCapacity))
  }

  ghost predicate TokensSane(id: SessionId, continuations: map<Token, Page>, next: nat, revision: nat) {
    forall t :: t in continuations ==> t.session == id && t.number < next && t.revision == continuations[t].revision <= revision
  }

  datatype Session = Session(
    id: SessionId,
    revision: nat,
    lastTick: nat,
    expanded: set<string>,
    pageSizes: map<string, nat>,
    continuations: map<Token, Page>,
    nextContinuation: nat,
    changes: seq<Event>,
    droppedChanges: nat,
    watches: map<WatchId, Watch>,
    nextWatch: nat,
    history: seq<Event>,
    drained: nat)
  {
    /** Revisions count the changes, the history is in strict tick order, and every
        queue accounts for it. */
    ghost predicate Sane(limits: Limits) {
      && Chronicle(id, revision, lastTick, history)
      && Tail(changes, history, drained + droppedChanges, limits.watchCapacity)
      && WatchesSane(id, watches, nextWatch, history, limits)
      && TokensSane(id, continuations, nextContinuation, revision)
    }

    /** Everything recorded so far is older than this tick. */
    ghost predicate Before(tick: nat) {
      forall i :: 0 <= i < |history| ==> history[i].tick < tick
    }

    ghost predicate SameChronicle(next: Session) {
      next.id == id && next.lastTick == lastTick && next.revision == revision && next.history == history
    }

    function Touched(tick: nat): Session {
      this.(lastTick := tick)
    }

    function Changed(kind: string, path: Option<string>, tick: nat, wall: Option<nat>, limits: Limits): Session {
      var event := Event(id, revision + 1, tick, wall, kind, path);
      this.(
        revision := revision + 1,
        changes := Bounded(changes, event, limits.watchCapacity),
        droppedChanges := if |changes| == limits.watchCapacity then droppedChanges + 1 else droppedChanges,
        watches := map w | w in watches :: watches[w].Push(event, limits.watchCapacity),
        history := history + [event])
    }

    function Drained(): Session {
      this.(changes := [], drained := drained + |changes|)
    }

    /** Draining the feed and reading the revision, as requests. */
    function Fed(): (Session, Result<seq<Event>, ServerError>) {
      (Drained(), Ok(changes))
    }

    function Read(): (Session, Result<nat, ServerError>) {
      (this, Ok(revision))
    }

    function Subscribed(limits: Limits): (Session, Result<WatchId, ServerError>) {
      if |watches| >= limits.maxWatches then (this, Err(WatchLimit))
      else
        var w := WatchId(id, nextWatch);
        (this.(watches := watches[w := Watch([], 0, false, revision, 0)], nextWatch := nextWatch + 1), Ok(w))
    }

    function Polled(w: WatchId, limit: nat): (Session, Result<Batch, ServerError>) {
      if w !in watches then (this, Err(UnknownWatch))
      else
        var state := watches[w];
        var count := Min(limit, |state.events|);
        (this.(watches := watches[w := state.(events := state.events[count..], polled := state.polled + count)]),
         Ok(Batch(state.events[..count], state.dropped, state.cancelled)))
    }

    function Cancelled(w: WatchId): (Session, Result<(), ServerError>) {
      if w !in watches then (this, Err(UnknownWatch))
      else (this.(watches := watches[w := watches[w].(cancelled := true, events := [])]), Ok(()))
    }

    /** apply_surface_local, past reading the operation's fields. */
    function Applied(tree: SessionId, stated: nat, op: LocalOp, limits: Limits): (Session, Result<bool, ServerError>) {
      if tree != id then (this, Err(SessionMismatch))
      else if stated != revision then (this, Err(StaleRevision(stated, revision)))
      else
        match op
        case Disclose(path, open) =>
          (this.(expanded := if open then expanded + {path}
                             else set e | e in expanded && (e == "/" || !Under(e, path))), Ok(true))
        case Continue(path, token) =>
          if token.None? || token.value !in continuations then (this, Err(InvalidContinuation))
          else
            var page := continuations[token.value];
            var spent := this.(continuations := continuations - {token.value});
            if page.revision != revision || page.path != path then (spent, Err(StaleContinuation))
            else (spent.(pageSizes := pageSizes[path := page.offset + limits.maxPageEntries]), Ok(true))
        case OpenPolicy(_) => (this, Ok(false))
        case OtherLocal(_) => (this, Err(InvalidOperation))
    }

    function Issued(cut: seq<(string, nat)>): Session
      decreases |cut|
    {
      if cut == [] then this
      else
        var (path, offset) := cut[0];
        this.(continuations := continuations[Token(id, revision, nextContinuation) := Page(path, offset, revision)],
              nextContinuation := nextContinuation + 1).Issued(cut[1..])
    }

    /** A snapshot forgets the earlier continuations and issues new ones. */
    function Rendered(rendering: Rendering): (Session, Result<nat, ServerError>) {
      (this.(continuations := map[]).Issued(rendering.cut), if rendering.ok then Ok(revision) else Err(Internal))
    }

    /** The local branch of a commit, on a record already touched by this request. */
    function Committed(expected: Option<nat>, tree: SessionId, stated: nat, op: LocalOp, kind: string, path: Option<string>,
                       wall: Option<nat>, rendering: Rendering, limits: Limits): (Session, Result<nat, ServerError>) {
      if expected.Some? && expected.value != revision then (this, Err(StaleRevision(expected.value, revision)))
      else
        var (next, applied) := Applied(tree, stated, op, limits);
        if applied.Err? then (next, Err(applied.error))
        else if applied.value then next.Changed(kind, path, lastTick, wall, limits).Rendered(rendering)
        else next.Rendered(rendering)
    }

    // ---- Every operation keeps it ----

    lemma TouchedSane(tick: nat, limits: Limits)
      requires Sane(limits) && lastTick <= tick
      ensures Touched(tick).Sane(limits)
    {
      hide Tail, WatchesSane, TokensSane;
    }

    /** A change is recorded at the next revision and at a later tick than all before. */
    lemma ChangedSane(kind: string, path: Option<string>, tick: nat, wall: Option<nat>, limits: Limits)
      requires Sane(limits) && limits.Valid() && Before(tick) && tick <= lastTick
      ensures Changed(kind, path, tick, wall, limits).Sane(limits)
      ensures Changed(kind, path, tick, wall, limits).revision == revision + 1
    {
      hide Tail, Chronicle, Bounded;
      var next := Changed(kind, path, tick, wall, limits);
      var event := next.history[|history|];
      PushKeepsTail(changes, history, drained + droppedChanges, limits.watchCapacity, event);
      forall w | w in next.watches ensures next.watches[w].Accounted(next.history, limits.watchCapacity) {
        if !watches[w].cancelled {
          PushKeepsTail(watches[w].events, history, watches[w].since - 1 + watches[w].polled + watches[w].dropped, limits.watchCapacity, event);
        }
      }
      assert next.watches.Keys == watches.Keys;
      ChronicleGrows(id, revision, lastTick, history, event);
    }

    lemma DrainedSane(limits: Limits)
      requires Sane(limits)
      ensures Drained().Sane(limits) && SameChronicle(Drained())
    {
      hide Chronicle, WatchesSane, TokensSane;
    }

    lemma SubscribedSane(limits: Limits)
      requires Sane(limits)
      ensures Subscribed(limits).0.Sane(limits) && SameChronicle(Subscribed(limits).0)
    {
      hide TokensSane;
    }

    lemma PolledSane(w: WatchId, limit: nat, limits: Limits)
      requires Sane(limits)
      ensures Polled(w, limit).0.Sane(limits) && SameChronicle(Polled(w, limit).0)
    {
      hide Chronicle, TokensSane, Tail;
      if w in watches && !watches[w].cancelled {
        var state := watches[w];
        DrainKeepsTail(state.events, history, state.since - 1 + state.polled + state.dropped, limits.watchCapacity, Min(limit, |state.events|));
      }
    }

    lemma CancelledSane(w: WatchId, limits: Limits)
      requires Sane(limits)
      ensures Cancelled(w).0.Sane(limits) && SameChronicle(Cancelled(w).0)
    {
      hide Chronicle, TokensSane, Tail;
    }

    lemma AppliedSane(tree: SessionId, stated: nat, op: LocalOp, limits: Limits)
      requires Sane(limits)
      ensures Applied(tree, stated, op, limits).0.Sane(limits)
      ensures Applied(tree, stated, op, limits).1.Ok? ==> tree == id && stated == revision
      ensures Applied(tree, stated, op, limits).0.history == history && Applied(tree, stated, op, limits).0.lastTick == lastTick
      ensures Applied(tree, stated, op, limits).0.id == id
    {
      hide Chronicle, WatchesSane, Tail, Under;
    }

    lemma {:induction false} IssuedSane(cut: seq<(string, nat)>, limits: Limits)
      requires Sane(limits)
      ensures Issued(cut).Sane(limits)
      ensures Issued(cut) == this.(continuations := Issued(cut).continuations, nextContinuation := Issued(cut).nextContinuation)
      decreases |cut|
    {
      hide Chronicle, WatchesSane, Tail;
      if cut != [] {
        var (path, offset) := cut[0];
        this.(continuations := continuations[Token(id, revision, nextContinuation) := Page(path, offset, revision)],
              nextContinuation := nextContinuation + 1).IssuedSane(cut[1..], limits);
      }
    }

    lemma RenderedSane(rendering: Rendering, limits: Limits)
      requires Sane(limits)
      ensures Rendered(rendering).0.Sane(limits) && SameChronicle(Rendered(rendering).0)
    {
      hide Chronicle, WatchesSane, Tail;
      this.(continuations := map[]).IssuedSane(rendering.cut, limits);
    }

    /** A local commit changes the session at most once, and only at the revision it
        states and expects. */
    lemma CommittedSane(expected: Option<nat>, tree: SessionId, stated: nat, op: LocalOp, kind: string, path: Option<string>,
                        wall: Option<nat>, rendering: Rendering, limits: Limits)
      requires Sane(limits) && limits.Valid() && Before(lastTick)
      ensures var next := Committed(expected, tree, stated, op, kind, path, wall, rendering, limits).0;
              && next.Sane(limits) && next.id == id && next.lastTick == lastTick
              && (next.revision == revision || next.revision == revision + 1)
              && history <= next.history
              && (next.revision == revision + 1 ==> stated == revision && (expected.Some? ==> expected.value == revision))
              && (next.revision == revision ==> next.history == history)
    {
      hide Chronicle, WatchesSane, Tail, TokensSane;
      AppliedSane(tree, stated, op, limits);
      var next := Applied(tree, stated, op, limits).0;
      next.RenderedSane(rendering, limits);
      AppliedKeepsRevision(tree, stated, op, limits);
      if Applied(tree, stated, op, limits).1 == Ok(true) {
        next.ChangedSane(kind, path, lastTick, wall, limits);
        next.Changed(kind, path, lastTick, wall, limits).RenderedSane(rendering, limits);
      }
    }

    lemma AppliedKeepsClock(tree: SessionId, stated: nat, op: LocalOp, limits: Limits)
      ensures Applied(tree, stated, op, limits).0.lastTick == lastTick
    {
      hide Under;
    }

    lemma AppliedKeepsRevision(tree: SessionId, stated: nat, op: LocalOp, limits: Limits)
      ensures Applied(tree, stated, op, limits).0.revision == revision
    {
      hide Under;
    }

    /** A poll hands out consecutive revisions, and they begin right after what the
        consumer has seen or lost: a gap is exactly the growth of `dropped`. */
    lemma PollIsGapless(w: WatchId, limit: nat, limits: Limits)
      requires Sane(limits) && w in watches
      ensures Polled(w, limit).1.Ok?
      ensures var batch, state := Polled(w, limit).1.value, watches[w];
              && batch.dropped == state.dropped
              && forall i :: 0 <= i < |batch.events| ==> batch.events[i].revision == state.since + 1 + state.polled + batch.dropped + i
    {
      var state := watches[w];
      if !state.cancelled {
        var start := state.since - 1 + state.polled + state.dropped;
        forall i | 0 <= i < |state.events| ensures state.events[i].revision == start + 2 + i {
          assert state.events[i] == history[start + i];
        }
      }
    }
  }

  // ---- The session as it is kept and changed in place ----

  method PushBounded(queue: seq<Event>, dropped: nat, event: Event, capacity: nat) returns (longer: seq<Event>, lost: nat)
    requires capacity > 0
    ensures longer == Bounded(queue, event, capacity)
    ensures lost == if |queue| == capacity then dropped + 1 else dropped
  {
    longer, lost := queue, dropped;
    if |longer| == capacity {
      longer := longer[1..];
      lost := lost + 1;
    }
    longer := longer + [event];
  }

  class SessionRecord {
    const id: SessionId
    var revision: nat
    var lastActivityTick: nat
    var expanded: set<string>
    var pageSizes: map<string, nat>
    var continuations: map<Token, Page>
    var nextContinuation: nat
    var changes: seq<Event>
    var droppedChanges: nat
    var watches: map<WatchId, Watch>
    var nextWatch: nat

    /** Every event recorded, and how many the change feed has handed out. */
    ghost var history: seq<Event>
    ghost var drained: nat

    ghost function View(): Session
      reads this
    {
      Session(id, revision, lastActivityTick, expanded, pageSizes, continuations, nextContinuation,
              changes, droppedChanges, watches, nextWatch, history, drained)
    }

    constructor (id: SessionId, tick: nat)
      ensures View() == NewSession(id, tick)
    {
      this.id := id;
      revision, lastActivityTick := 1, tick;
      expanded, pageSizes, continuations, nextContinuation := {"/"}, map[], map[], 1;
      changes, droppedChanges := [], 0;
      watches, nextWatch := map[], 1;
      history, drained := [], 0;
    }

    method Touch(tick: nat)
      modifies this
      ensures View() == old(View()).Touched(tick)
    {
      lastActivityTick := tick;
    }

    method Changed(kind: string, path: Option<string>, tick: nat, wall: Option<nat>, limits: Limits)
      requires limits.watchCapacity > 0
      modifies this
      ensures View() == old(View()).Changed(kind, path, tick, wall, limits)
    {
      hide Bounded;
      revision := revision + 1;
      var event := Event(id, revision, tick, wall, kind, path);
      changes, droppedChanges := PushBounded(changes, droppedChanges, event, limits.watchCapacity);
      history := history + [event];
      PushAll(event, limits.watchCapacity);
    }

    /** The loop over the watches. */
    method PushAll(event: Event, capacity: nat)
      requires capacity > 0
      modifies this`watches
      ensures watches == map w | w in old(watches) :: old(watches)[w].Push(event, capacity)
    {
      hide Watch.Push;
      var rest := watches.Keys;
      while rest != {}
        invariant rest <= watches.Keys == old(watches).Keys
        invariant forall w :: w in watches ==> watches[w] == if w in rest then old(watches)[w] else old(watches)[w].Push(event, capacity)
        decreases rest
      {
        var w :| w in rest;
        var state := PushWatch(watches[w], event, capacity);
        watches := watches[w := state];
        rest := rest - {w};
      }
    }

    /** WatchState::push. */
    static method PushWatch(state: Watch, event: Event, capacity: nat) returns (next: Watch)
      requires capacity > 0
      ensures next == state.Push(event, capacity)
    {
      next := state;
      if next.cancelled {
        return;
      }
      if |next.events| == capacity {
        next := next.(events := next.events[1..], dropped := next.dropped + 1);
      }
      next := next.(events := next.events + [event]);
    }

    method DrainChanges() returns (events: seq<Event>)
      modifies this
      ensures events == old(changes) && View() == old(View()).Drained()
    {
      events := changes;
      drained := drained + |changes|;
      changes := [];
    }

    method Subscribe(limits: Limits) returns (r: Result<WatchId, ServerError>)
      modifies this
      ensures (View(), r) == old(View()).Subscribed(limits)
    {
      if |watches| >= limits.maxWatches {
        return Err(WatchLimit);
      }
      var w := WatchId(id, nextWatch);
      nextWatch := nextWatch + 1;
      watches := watches[w := Watch([], 0, false, revision, 0)];
      return Ok(w);
    }

    method PollWatch(w: WatchId, limit: nat) returns (r: Result<Batch, ServerError>)
      modifies this
      ensures (View(), r) == old(View()).Polled(w, limit)
    {
      if w !in watches {
        return Err(UnknownWatch);
      }
      var state := watches[w];
      var count := Min(limit, |state.events|);
      watches := watches[w := state.(events := state.events[count..], polled := state.polled + count)];
      return Ok(Batch(state.events[..count], state.dropped, state.cancelled));
    }

    method CancelWatch(w: WatchId) returns (r: Result<(), ServerError>)
      modifies this
      ensures (View(), r) == old(View()).Cancelled(w)
    {
      if w !in watches {
        return Err(UnknownWatch);
      }
      watches := watches[w := watches[w].(cancelled := true, events := [])];
      return Ok(());
    }

    method ApplySurfaceLocal(tree: SessionId, stated: nat, op: LocalOp, limits: Limits) returns (r: Result<bool, ServerError>)
      modifies this
      ensures (View(), r) == old(View()).Applied(tree, stated, op, limits)
    {
      if tree != id {
        return Err(SessionMismatch);
      }
      if stated != revision {
        return Err(StaleRevision(stated, revision));
      }
      match op
      case Disclose(path, open) =>
        if open {
          expanded := expanded + {path};
        } else {
          expanded := set e | e in expanded && (e == "/" || !Under(e, path));
        }
        assert expanded == old(View()).Applied(tree, stated, op, limits).0.expanded;
        return Ok(true);
      case Continue(path, token) =>
        if token.None? || token.value !in continuations {
          return Err(InvalidContinuation);
        }
        var page := continuations[token.value];
        continuations := continuations - {token.value};
        if page.revision != revision || page.path != path {
          return Err(StaleContinuation);
        }
        pageSizes := pageSizes[path := page.offset + limits.maxPageEntries];
        return Ok(true);
      case OpenPolicy(_) =>
        return Ok(false);
      case OtherLocal(_) =>
        return Err(InvalidOperation);
    }

    /** A snapshot: continuations are issued in the order pages are cut short. */
    method Snapshot(rendering: Rendering) returns (r: Result<nat, ServerError>)
      modifies this
      ensures (View(), r) == old(View()).Rendered(rendering)
    {
      continuations := map[];
      assert rendering.cut[0..] == rendering.cut;
      for i := 0 to |rendering.cut|
        invariant revision == old(revision)
        invariant View().Issued(rendering.cut[i..]) == old(View()).(continuations := map[]).Issued(rendering.cut)
      {
        assert rendering.cut[i..][0] == rendering.cut[i] && rendering.cut[i..][1..] == rendering.cut[i + 1..];
        var (path, offset) := rendering.cut[i];
        Continuation(path, offset);
      }
      return if rendering.ok then Ok(revision) else Err(Internal);
    }

    method Continuation(path: string, offset: nat)
      modifies this`continuations, this`nextContinuation
      ensures View() == old(View()).(
                continuations := old(continuations)[Token(id, revision, old(nextContinuation)) := Page(path, offset, revision)],
                nextContinuation := old(nextContinuation) + 1)
    {
      continuations := continuations[Token(id, revision, nextContinuation) := Page(path, offset, revision)];
      nextContinuation := nextContinuation + 1;
    }
  }

  function NewSession(id: SessionId, tick: nat): Session {
    Session(id, 1, tick, {"/"}, map[], map[], 1, [], 0, map[], 1, [], 0)
  }
}
