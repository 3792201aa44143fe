/** What a turn does. */
module TurnEffects {
  // The effect of every kind of turn on the fields of the session it names and on the
  // registry around it, whatever the other sessions and threads do.

  import opened Syntax
  import opened PathText
  import opened Sessions
  import opened ServerProtocol

  // ---- What is recorded ----

  /** A bounded queue took the event: it grows, or its oldest event makes room and is
      counted as lost. */
  predicate Pushed(queue: seq<Event>, lost: nat, longer: seq<Event>, lostNow: nat, event: Event, capacity: nat) {
    if |queue| < capacity then longer == queue + [event] && lostNow == lost
    else queue != [] && longer == queue[1..] + [event] && lostNow == lost + 1
  }

  /** Exactly one change more: the next revision, one event in the history, and the same
      event in the feed and in every watch that is not cancelled. */
  ghost predicate Recorded(x: Session, y: Session, event: Event, capacity: nat) {
    && y.revision == x.revision + 1 && y.history == x.history + [event]
    && Pushed(x.changes, x.droppedChanges, y.changes, y.droppedChanges, event, capacity)
    && y.watches.Keys == x.watches.Keys
    && forall w :: w in x.watches ==> WatchRecorded(x.watches[w], y.watches[w], event, capacity)
  }

  ghost predicate WatchRecorded(a: Watch, b: Watch, event: Event, capacity: nat) {
    && (a.cancelled ==> b == a)
    && (!a.cancelled ==>
          !b.cancelled && b.since == a.since && b.polled == a.polled && Pushed(a.events, a.dropped, b.events, b.dropped, event, capacity))
  }

  /** Nothing is recorded. */
  ghost predicate Unrecorded(x: Session, y: Session) {
    && y.revision == x.revision && y.history == x.history
    && y.changes == x.changes && y.droppedChanges == x.droppedChanges && y.watches == x.watches
  }

  /** What no recording and no rendering touches. */
  predicate SameSurface(x: Session, y: Session) {
    && y.id == x.id && y.lastTick == x.lastTick && y.expanded == x.expanded && y.pageSizes == x.pageSizes
    && y.nextWatch == x.nextWatch && y.drained == x.drained
  }

  /** The continuations are one token for each page that was cut short, numbered on from
      the last one given out, and no others. */
  ghost predicate PagesOnly(x: Session, y: Session, cut: seq<(string, nat)>) {
    && y.nextContinuation == x.nextContinuation + |cut|
    && (forall t :: t in y.continuations <==>
          t.session == y.id && t.revision == y.revision && x.nextContinuation <= t.number < y.nextContinuation)
    && (forall t :: t in y.continuations ==>
          0 <= t.number - x.nextContinuation < |cut|
          && y.continuations[t] == Page(cut[t.number - x.nextContinuation].0, cut[t.number - x.nextContinuation].1, y.revision))
  }

  lemma {:induction false} IssuedMeans(x: Session, cut: seq<(string, nat)>)
    ensures var y := x.Issued(cut);
            && y == x.(continuations := y.continuations, nextContinuation := x.nextContinuation + |cut|)
            && (forall t :: t in y.continuations <==> t in x.continuations || New(x, t, |cut|))
            && (forall t :: t in y.continuations ==>
                  if New(x, t, |cut|)
                  then y.continuations[t] == Page(cut[t.number - x.nextContinuation].0, cut[t.number - x.nextContinuation].1, x.revision)
                  else y.continuations[t] == x.continuations[t])
    decreases |cut|
  {
    if cut != [] {
      var (path, offset) := cut[0];
      var next := x.(continuations := x.continuations[Token(x.id, x.revision, x.nextContinuation) := Page(path, offset, x.revision)],
                     nextContinuation := x.nextContinuation + 1);
      IssuedMeans(next, cut[1..]);
      var y := x.Issued(cut);
      assert y == next.Issued(cut[1..]);
      forall t
        ensures New(x, t, |cut|) <==> t == Token(x.id, x.revision, x.nextContinuation) || New(next, t, |cut| - 1)
        ensures New(next, t, |cut| - 1) ==>
                  cut[1..][t.number - next.nextContinuation] == cut[t.number - x.nextContinuation]
      {
      }
    }
  }

  predicate New(x: Session, t: Token, count: nat) {
    t.session == x.id && t.revision == x.revision && x.nextContinuation <= t.number < x.nextContinuation + count
  }

  /** A rendering replaces the continuations and changes nothing else. */
  lemma RenderedMeans(x: Session, rendering: Rendering)
    ensures var (y, r) := x.Rendered(rendering);
            && SameSurface(x, y) && Unrecorded(x, y) && PagesOnly(x, y, rendering.cut)
            && r == if rendering.ok then Ok(x.revision) else Err(Internal)
  {
    IssuedMeans(x.(continuations := map[]), rendering.cut);
  }

  lemma ChangedMeans(x: Session, kind: string, path: Option<string>, tick: nat, wall: Option<nat>, limits: Limits)
    requires x.Sane(limits) && limits.Valid()
    ensures var y := x.Changed(kind, path, tick, wall, limits);
            && Recorded(x, y, Event(x.id, x.revision + 1, tick, wall, kind, path), limits.watchCapacity)
            && SameSurface(x, y) && y.continuations == x.continuations && y.nextContinuation == x.nextContinuation
  {
    assert |x.changes| <= limits.watchCapacity;
    forall w | w in x.watches ensures |x.watches[w].events| <= limits.watchCapacity {
      assert x.watches[w].Accounted(x.history, limits.watchCapacity);
    }
    hide Chronicle, Tail, WatchesSane, TokensSane;
  }

  lemma RecordedThenRendered(x: Session, y: Session, z: Session, event: Event, capacity: nat)
    requires Unrecorded(y, z)
    ensures Recorded(x, y, event, capacity) <==> Recorded(x, z, event, capacity)
    ensures Unrecorded(x, y) <==> Unrecorded(x, z)
  {
  }

  // ---- The end of a runtime operation ----

  predicate ReadsOnly(kind: string) {
    kind == "ref" || kind == "list" || kind == "status" || kind == "explain" || kind == "open-policy"
  }

  /** The session after an operation: one change more if it worked and does not only
      read, and none otherwise; new continuations only if it was rendered. */
  ghost predicate Finished(x: Session, y: Session, worked: bool, kind: string, path: Option<string>, tick: nat, wall: Option<nat>,
                           snapshot: Option<Rendering>, capacity: nat) {
    && SameSurface(x, y)
    && (if worked && !ReadsOnly(kind) then Recorded(x, y, Event(x.id, x.revision + 1, tick, wall, kind, path), capacity)
        else Unrecorded(x, y))
    && (if worked && snapshot.Some? then PagesOnly(x, y, snapshot.value.cut)
        else y.continuations == x.continuations && y.nextContinuation == x.nextContinuation)
  }

  lemma ThenRendered(x: Session, y: Session, kind: string, path: Option<string>, tick: nat, wall: Option<nat>, rendering: Rendering, capacity: nat)
    requires Finished(x, y, true, kind, path, tick, wall, None, capacity)
    ensures Finished(x, y.Rendered(rendering).0, true, kind, path, tick, wall, Some(rendering), capacity)
  {
    hide Session.Rendered;
    RenderedMeans(y, rendering);
    RecordedThenRendered(x, y, y.Rendered(rendering).0, Event(x.id, x.revision + 1, tick, wall, kind, path), capacity);
    hide Recorded, Unrecorded;
  }

  lemma WorkedMeans(x: Session, kind: string, path: Option<string>, tick: nat, wall: Option<nat>, limits: Limits)
    requires x.Sane(limits) && limits.Valid()
    ensures Finished(x, if IsRevisionChange(kind) then x.Changed(kind, path, tick, wall, limits) else x,
                     true, kind, path, tick, wall, None, limits.watchCapacity)
  {
    ChangedMeans(x, kind, path, tick, wall, limits);
    hide Session.Sane, Session.Changed, Recorded;
  }

  lemma FinishMeans(server: Server, s: SessionId, tick: nat, worked: bool, kind: string, path: Option<string>, wall: Option<nat>,
                    snapshot: Option<Rendering>)
    requires s in server.inFlight && s in server.sessions && server.sessions[s].Sane(server.limits) && server.limits.Valid()
    ensures var (next, r) := server.Finish(s, tick, worked, kind, path, wall, snapshot);
            && next.sessions.Keys == server.sessions.Keys && next.inFlight == server.inFlight - {s}
            && next == server.(sessions := next.sessions, inFlight := next.inFlight)
            && (forall t :: t in next.sessions && t != s ==> next.sessions[t] == server.sessions[t])
            && Finished(server.sessions[s], next.sessions[s], worked, kind, path, tick, wall, snapshot, server.limits.watchCapacity)
            && r == if !worked then Err(OperationFailed) else if snapshot.Some? && !snapshot.value.ok then Err(Internal)
                    else Ok(next.sessions[s].revision)
  {
    var x, limits := server.sessions[s], server.limits;
    if worked {
      WorkedMeans(x, kind, path, tick, wall, limits);
      hide Session.Sane, Session.Changed, Session.Rendered, IsRevisionChange;
      var y := if IsRevisionChange(kind) then x.Changed(kind, path, tick, wall, limits) else x;
      if snapshot.Some? {
        ThenRendered(x, y, kind, path, tick, wall, snapshot.value, limits.watchCapacity);
        RenderedMeans(y, snapshot.value);
      }
      hide Finished;
    } else {
      hide Session.Sane;
    }
  }

  /** A reserved operation that worked and does not only read is recorded as one change,
      under the tick of its reservation; one that failed or only reads records nothing.
      The reservation is given back in every case, and only its session is touched. */
  lemma FinishRecords(w: World, step: Step)
    requires w.Safe() && step.Finish? && w.Enabled(step)
    ensures var k, next := w.tickets[step.thread], w.Next(step).server;
            && k.session in w.server.sessions
            && next.sessions.Keys == w.server.sessions.Keys && next.inFlight == w.server.inFlight - {k.session}
            && next == w.server.(sessions := next.sessions, inFlight := next.inFlight)
            && (forall s :: s in next.sessions && s != k.session ==> next.sessions[s] == w.server.sessions[s])
            && Finished(w.server.sessions[k.session], next.sessions[k.session], step.worked, step.kind, step.path, k.tick, step.wall,
                        step.snapshot, w.server.limits.watchCapacity)
  {
    w.FinishFindsItsSession(step);
    var k := w.tickets[step.thread];
    assert w.SessionSafe(k.session);
    w.LimitsValid();
    hide World.Safe, Finished, Server.Finish, Session.Sane;
    FinishMeans(w.server, k.session, k.tick, step.worked, step.kind, step.path, step.wall, step.snapshot);
  }

  // ---- Requests served in one turn ----

  /** Not reserved, and used recently enough to outlive the next tick. */
  predicate Reachable(server: Server, s: SessionId) {
    s in server.sessions && s !in server.inFlight && server.nextTick + 1 - server.sessions[s].lastTick <= server.limits.maxIdleTicks
  }

  predicate Outlives(server: Server, s: SessionId) {
    s in server.sessions && (s in server.inFlight || server.nextTick + 1 - server.sessions[s].lastTick <= server.limits.maxIdleTicks)
  }

  /** A turn takes one tick, lets go of the sessions that were idle too long and changes
      no session but this one; only the reservations are left open. */
  ghost predicate TurnOn(server: Server, next: Server, s: SessionId) {
    && next.limits == server.limits && next.nextTick == server.nextTick + 1 && next.nextSession == server.nextSession
    && (forall t :: t in next.sessions <==> Outlives(server, t))
    && (forall t :: t in next.sessions && t != s ==> next.sessions[t] == server.sessions[t])
  }

  /** Why a session that cannot be reached is not served. */
  function Refusal(server: Server, s: SessionId): ServerError {
    if s in server.inFlight then SessionBusy else UnknownSession
  }

  /** A request is served exactly if its session can be reached; then the session is as
      the operation leaves it, used at this tick, and otherwise as it was. */
  lemma AccessMeans<R>(server: Server, s: SessionId, op: Session -> (Session, Result<R, ServerError>))
    ensures var (next, r) := server.Access(s, op);
            && TurnOn(server, next, s) && next.inFlight == server.inFlight
            && (Reachable(server, s) ==> (next.sessions[s], r) == op(server.sessions[s].(lastTick := server.nextTick)))
            && (!Reachable(server, s) ==>
                  r == Err(Refusal(server, s)) && (s in next.sessions ==> next.sessions[s] == server.sessions[s]))
  {
  }

  /** A reservation is made exactly if the session can be reached at the revision
      expected, and then it is used at this tick and otherwise unchanged. */
  lemma ReserveMeans(server: Server, s: SessionId, expected: Option<nat>)
    ensures var (next, r) := server.Reserve(s, expected);
            && TurnOn(server, next, s)
            && (r.Ok? <==> Reachable(server, s) && (expected.Some? ==> expected.value == server.sessions[s].revision))
            && (r.Ok? ==> r.value == server.nextTick)
            && next.inFlight == server.inFlight + (if r.Ok? then {s} else {})
            && (s in next.sessions ==>
                  next.sessions[s] == if Reachable(server, s) then server.sessions[s].(lastTick := server.nextTick) else server.sessions[s])
            && (r.Err? ==> r.error == if Reachable(server, s) then StaleRevision(expected.value, server.sessions[s].revision) else Refusal(server, s))
  {
  }

  /** Closing refuses exactly a reserved session, and answers whether there was one. */
  lemma CloseMeans(server: Server, s: SessionId)
    ensures var (next, r) := server.Close(s);
            && next.limits == server.limits && next.nextTick == server.nextTick + 1 && next.nextSession == server.nextSession
            && next.inFlight == server.inFlight
            && r == (if s in server.inFlight then Err(SessionBusy) else Ok(Outlives(server, s)))
            && (forall t :: t in next.sessions <==> Outlives(server, t) && (t == s ==> s in server.inFlight))
            && (forall t :: t in next.sessions ==> next.sessions[t] == server.sessions[t])
  {
  }

  /** The first turn of a creation takes a number, if there is room. */
  lemma BeginCreateMeans(server: Server)
    ensures var (next, r) := server.BeginCreate();
            && (forall t :: t in next.sessions <==> Outlives(server, t))
            && (forall t :: t in next.sessions ==> next.sessions[t] == server.sessions[t])
            && next.limits == server.limits && next.inFlight == server.inFlight && next.nextTick == server.nextTick + 1
            && (r.Ok? <==> |next.sessions| < server.limits.maxSessions)
            && (r.Ok? ==> r.value == (server.nextSession, server.nextTick) && next.nextSession == server.nextSession + 1)
            && (r.Err? ==> r.error == SessionLimit && next.nextSession == server.nextSession)
  {
  }

  ghost function Live(server: Server): set<SessionId> {
    set t | t in server.sessions && (t in server.inFlight || server.nextTick - server.sessions[t].lastTick <= server.limits.maxIdleTicks)
  }

  /** A session that nothing has happened to. */
  predicate Untouched(x: Session, id: SessionId, tick: nat) {
    && x.id == id && x.revision == 1 && x.lastTick == tick && x.expanded == {"/"} && x.history == [] && x.changes == []
    && x.droppedChanges == 0 && x.watches == map[] && x.continuations == map[] && x.pageSizes == map[]
  }

  /** The second turn checks the room again and adds a session at revision one. */
  lemma FinishCreateMeans(server: Server, id: SessionId, tick: nat)
    ensures var (next, r) := server.FinishCreate(id, tick);
            && next == server.(sessions := next.sessions)
            && r == (if |Live(server)| < server.limits.maxSessions then Ok(id) else Err(SessionLimit))
            && next.sessions.Keys == Live(server) + (if r.Ok? then {id} else {})
            && (forall t :: t in next.sessions && (r.Ok? ==> t != id) ==> next.sessions[t] == server.sessions[t])
            && (r.Ok? ==> Untouched(next.sessions[id], id, tick))
  {
    ExpiredIsLive(server);
    NewIsUntouched(id, tick);
    hide Server.Expired, Live, NewSession, Untouched;
    var e := server.Expired();
    if |e.sessions| < server.limits.maxSessions {
      assert e.sessions[id := NewSession(id, tick)].Keys == e.sessions.Keys + {id};
    } else {
      assert e.sessions.Keys + {} == e.sessions.Keys;
    }
  }

  lemma NewIsUntouched(id: SessionId, tick: nat)
    ensures Untouched(NewSession(id, tick), id, tick)
  {
  }

  lemma ExpiredIsLive(server: Server)
    ensures var e := server.Expired();
            && e == server.(sessions := e.sessions) && e.sessions.Keys == Live(server) && |e.sessions| == |Live(server)|
            && forall t :: t in e.sessions ==> t in server.sessions && e.sessions[t] == server.sessions[t]
  {
    var e := server.Expired();
    assert e.sessions.Keys == Live(server);
    hide Live, Server.Expired;
    assert |e.sessions| == |e.sessions.Keys|;
  }

  // ---- What a session does on request ----

  /** The text of a path at or below another one. */
  predicate AtOrBelow(candidate: string, path: string) {
    candidate == path || (path == "/" && path <= candidate) || path + "/" <= candidate
  }

  /** The token is one that this session gave out at this revision for this path. */
  predicate Continues(x: Session, path: string, token: Option<Token>) {
    token.Some? && token.value in x.continuations
    && x.continuations[token.value].revision == x.revision && x.continuations[token.value].path == path
  }

  /** The operation names this session as it is and can be carried out. */
  predicate Carries(x: Session, tree: SessionId, stated: nat, op: LocalOp) {
    tree == x.id && stated == x.revision && (op.Disclose? || (op.Continue? && Continues(x, op.path, op.token)))
  }

  /** Opening adds the path, closing takes away all at or below it but the root; a valid
      continuation lengthens the page it was issued for; a token works once, whatever it
      answers; nothing else changes, and a policy is only shown. */
  lemma AppliedMeans(x: Session, tree: SessionId, stated: nat, op: LocalOp, limits: Limits)
    ensures var (y, r) := x.Applied(tree, stated, op, limits);
            && (r == Ok(true) <==> Carries(x, tree, stated, op))
            && (r == Ok(false) <==> tree == x.id && stated == x.revision && op.OpenPolicy?)
            && y == x.(expanded := y.expanded, pageSizes := y.pageSizes, continuations := y.continuations)
            && (forall e :: e in y.expanded <==>
                  if r == Ok(true) && op.Disclose? then
                    if op.open then e in x.expanded || e == op.path
                    else e in x.expanded && (e == "/" || !AtOrBelow(e, op.path))
                  else e in x.expanded)
            && y.continuations == (if tree == x.id && stated == x.revision && op.Continue? && op.token.Some?
                                   then x.continuations - {op.token.value} else x.continuations)
            && y.pageSizes == (if r == Ok(true) && op.Continue?
                               then x.pageSizes[op.path := x.continuations[op.token.value].offset + limits.maxPageEntries] else x.pageSizes)
            && (r.Err? ==>
                  r.error == if tree != x.id then SessionMismatch
                             else if stated != x.revision then StaleRevision(stated, x.revision)
                             else if op.OtherLocal? then InvalidOperation
                             else if op.token.Some? && op.token.value in x.continuations then StaleContinuation else InvalidContinuation)
  {
    if op.Disclose? && !op.open {
      forall e ensures AtOrBelow(e, op.path) <==> Under(e, op.path) {
        BelowIsUnder(e, op.path);
      }
    }
    hide Under, AtOrBelow;
  }

  lemma BelowIsUnder(e: string, path: string)
    ensures AtOrBelow(e, path) <==> Under(e, path)
  {
    if path + "/" <= e {
      assert e[..|path|] == path && e[|path|..][0] == e[|path|] == '/';
    }
    if path <= e && path != "/" && AtSlash(e[|path|..]) {
      assert e[..|path| + 1] == path + "/";
    }
  }

  /** A local commit is recorded as one change exactly if it expects and states the
      present revision of this session and can be carried out; it is rendered exactly
      if it was not refused. */
  lemma CommittedMeans(x: Session, expected: Option<nat>, tree: SessionId, stated: nat, op: LocalOp, kind: string, path: Option<string>,
                       wall: Option<nat>, rendering: Rendering, limits: Limits)
    requires x.Sane(limits) && limits.Valid()
    ensures var (y, r) := x.Committed(expected, tree, stated, op, kind, path, wall, rendering, limits);
            var fits := expected.Some? ==> expected.value == x.revision;
            && (if fits && Carries(x, tree, stated, op)
                then Recorded(x, y, Event(x.id, x.revision + 1, x.lastTick, wall, kind, path), limits.watchCapacity)
                else Unrecorded(x, y))
            && (r.Ok? <==>
                  fits && rendering.ok && (Carries(x, tree, stated, op) || (tree == x.id && stated == x.revision && op.OpenPolicy?)))
            && (r.Ok? ==> r.value == y.revision && PagesOnly(x, y, rendering.cut))
  {
    hide Session.Applied, Session.Changed, Session.Rendered, Session.Sane, Recorded, PagesOnly, AtOrBelow;
    var fits := expected.Some? ==> expected.value == x.revision;
    var (next, applied) := x.Applied(tree, stated, op, limits);
    AppliedMeans(x, tree, stated, op, limits);
    assert Unrecorded(x, next);
    if fits && applied == Ok(true) {
      x.AppliedSane(tree, stated, op, limits);
      ChangeOf(x, next, kind, path, x.lastTick, wall, limits);
      var changed := next.Changed(kind, path, x.lastTick, wall, limits);
      RenderedMeans(changed, rendering);
      RecordedThenRendered(x, changed, changed.Rendered(rendering).0, Event(x.id, x.revision + 1, x.lastTick, wall, kind, path),
                           limits.watchCapacity);
      SamePages(x, changed, changed.Rendered(rendering).0, rendering.cut);
    } else if fits && applied == Ok(false) {
      RenderedMeans(next, rendering);
      RecordedThenRendered(x, next, next.Rendered(rendering).0, Event(x.id, x.revision + 1, x.lastTick, wall, kind, path),
                           limits.watchCapacity);
      SamePages(x, next, next.Rendered(rendering).0, rendering.cut);
    }
  }

  lemma SamePages(x: Session, y: Session, z: Session, cut: seq<(string, nat)>)
    requires PagesOnly(y, z, cut) && y.nextContinuation == x.nextContinuation
    ensures PagesOnly(x, z, cut)
  {
  }

  /** The same change of a session that has recorded the same. */
  lemma ChangeOf(x: Session, next: Session, kind: string, path: Option<string>, tick: nat, wall: Option<nat>, limits: Limits)
    requires next.Sane(limits) && limits.Valid() && Unrecorded(x, next) && next.id == x.id && next.nextContinuation == x.nextContinuation
    ensures var y := next.Changed(kind, path, tick, wall, limits);
            Recorded(x, y, Event(x.id, x.revision + 1, tick, wall, kind, path), limits.watchCapacity)
            && y.nextContinuation == x.nextContinuation && y.revision == x.revision + 1
  {
    hide Session.Sane, Session.Changed;
    ChangedMeans(next, kind, path, tick, wall, limits);
    hide Pushed;
  }

  /** A local turn is one change of its session exactly if the session can be reached
      at the revision that is expected and stated and the operation can be carried out;
      otherwise nothing is recorded in it, and in no case in another session. */
  lemma LocalRecords(w: World, step: Step)
    requires w.Safe() && step.Local?
    ensures var s, server, next := step.session, w.server, w.Next(step).server;
            && TurnOn(server, next, s) && next.inFlight == server.inFlight
            && (s in next.sessions ==>
                  var x, y := server.sessions[s], next.sessions[s];
                  if Reachable(server, s) && (step.expected.Some? ==> step.expected.value == x.revision)
                     && Carries(x, step.tree, step.stated, step.op)
                  then Recorded(x, y, Event(x.id, x.revision + 1, server.nextTick, step.wall, step.kind, step.path), server.limits.watchCapacity)
                  else Unrecorded(x, y))
  {
    var s, server, limits := step.session, w.server, w.server.limits;
    var op := (x: Session) => x.Committed(step.expected, step.tree, step.stated, step.op, step.kind, step.path, step.wall, step.rendering, limits);
    AccessMeans(server, s, op);
    hide Session.Committed, Session.Sane, Recorded, AtOrBelow;
    if Reachable(server, s) {
      w.TouchedFacts(s);
      w.LimitsValid();
      var x, touched := server.sessions[s], server.sessions[s].(lastTick := server.nextTick);
      hide World.Safe;
      CommittedMeans(touched, step.expected, step.tree, step.stated, step.op, step.kind, step.path, step.wall, step.rendering, limits);
      TouchedRecords(x, touched, op(touched).0, Event(x.id, x.revision + 1, server.nextTick, step.wall, step.kind, step.path), limits.watchCapacity);
    }
  }

  lemma TouchedRecords(x: Session, touched: Session, y: Session, event: Event, capacity: nat)
    requires Unrecorded(x, touched)
    ensures Recorded(x, y, event, capacity) <==> Recorded(touched, y, event, capacity)
  {
  }

  /** A new watch starts empty, at the present revision, beside the others. */
  lemma SubscribedMeans(x: Session, limits: Limits)
    ensures var (y, r) := x.Subscribed(limits);
            && (r.Ok? <==> |x.watches| < limits.maxWatches) && (r.Err? ==> r.error == WatchLimit && y == x)
            && (r.Ok? ==>
                  && r.value == WatchId(x.id, x.nextWatch)
                  && y == x.(watches := x.watches[r.value := Watch([], 0, false, x.revision, 0)], nextWatch := x.nextWatch + 1))
  {
  }

  /** A poll hands out the oldest events, no more than asked for, and leaves the rest and
      every other watch; cancelling empties the one watch for good. */
  lemma PolledMeans(x: Session, w: WatchId, limit: nat)
    ensures var (y, r) := x.Polled(w, limit);
            && (r.Ok? <==> w in x.watches) && (r.Err? ==> r.error == UnknownWatch && y == x)
            && (r.Ok? ==>
                  && y.watches.Keys == x.watches.Keys && y == x.(watches := y.watches)
                  && (forall v :: v in x.watches && v != w ==> y.watches[v] == x.watches[v])
                  && r.value.events + y.watches[w].events == x.watches[w].events
                  && |r.value.events| <= limit && (|r.value.events| < limit ==> y.watches[w].events == [])
                  && r.value.dropped == x.watches[w].dropped && r.value.cancelled == x.watches[w].cancelled
                  && y.watches[w].dropped == x.watches[w].dropped && y.watches[w].cancelled == x.watches[w].cancelled)
    ensures var (y, r) := x.Cancelled(w);
            && (r.Ok? <==> w in x.watches) && (r.Err? ==> r.error == UnknownWatch && y == x)
            && (r.Ok? ==>
                  && y.watches.Keys == x.watches.Keys && y == x.(watches := y.watches)
                  && (forall v :: v in x.watches && v != w ==> y.watches[v] == x.watches[v])
                  && y.watches[w].cancelled && y.watches[w].events == [] && y.watches[w].dropped == x.watches[w].dropped)
  {
  }

  /** Draining hands out the whole feed, and only the feed is emptied. */
  lemma FedMeans(x: Session)
    ensures var (y, r) := x.Fed();
            r == Ok(x.changes) && y == x.(changes := [], drained := x.drained + |x.changes|)
    ensures x.Read() == (x, Ok(x.revision))
  {
  }
}
