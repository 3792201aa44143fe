/** The registry as it is kept: session records changed in place, one locked turn at
    a time.  Every turn does to the registry what the protocol says, so what is proved
    of every interleaving of the protocol is proved of these methods.  A runtime turn
    is two methods, with the work done in between. */
module Registries {
  import opened Syntax
  import opened Collections
  import opened Sessions
  import opened ServerProtocol

  class Registry {
    const limits: Limits
    var sessions: map<SessionId, SessionRecord>
    var inFlight: set<SessionId>
    var nextSession: SessionId
    var nextTick: nat

    /** Every record is its own object. */
    ghost predicate Valid()
      reads this`sessions
    {
      limits.watchCapacity > 0 && forall s, t :: s in sessions && t in sessions && s != t ==> sessions[s] != sessions[t]
    }

    ghost function Records(): map<SessionId, Session>
      reads this`sessions, sessions.Values
    {
      map s | s in sessions :: sessions[s].View()
    }

    ghost function View(): Server
      reads this, sessions.Values
    {
      Server(limits, Records(), inFlight, nextSession, nextTick)
    }

    constructor (limits: Limits)
      requires limits.Valid()
      ensures Valid() && this.limits == limits
      ensures View() == Start(limits).server
    {
      this.limits := limits;
      sessions, inFlight, nextSession, nextTick := map[], {}, 1, 1;
      new;
      assert Records() == map[];
    }

    // ---- Parts of a turn ----

    /** expire_idle keeps exactly the reserved and the recently used. */
    method ExpireIdle()
      requires Valid()
      modifies this`sessions
      ensures Valid() && (forall s :: s in sessions ==> s in old(sessions) && sessions[s] == old(sessions)[s])
      ensures View() == old(View()).Expired()
    {
      ghost var before := View();
      forall s | s in sessions ensures before.Alive(s) <==> s in inFlight || nextTick - sessions[s].lastActivityTick <= limits.maxIdleTicks {
      }
      hide SessionRecord.View, Server.Alive;
      sessions := map s | s in sessions && (s in inFlight || nextTick - sessions[s].lastActivityTick <= limits.maxIdleTicks) :: sessions[s];
      SameMap(Records(), before.Expired().sessions);
    }

    method BeginRequest() returns (tick: nat)
      requires Valid()
      modifies this`sessions, this`nextTick
      ensures Valid() && (forall s :: s in sessions ==> s in old(sessions) && sessions[s] == old(sessions)[s])
      ensures tick == old(nextTick) && View() == old(View()).Begun()
    {
      hide SessionRecord.View;
      tick := nextTick;
      nextTick := nextTick + 1;
      ExpireIdle();
    }

    method ReservedSession(s: SessionId) returns (r: Result<SessionRecord, ServerError>)
      ensures r == if s in sessions then Ok(sessions[s]) else Err(UnknownSession)
    {
      return if s in sessions then Ok(sessions[s]) else Err(UnknownSession);
    }

    method FreeSession(s: SessionId) returns (r: Result<SessionRecord, ServerError>)
      ensures r == if s in inFlight then Err(SessionBusy) else if s in sessions then Ok(sessions[s]) else Err(UnknownSession)
    {
      if s in inFlight {
        return Err(SessionBusy);
      }
      r := ReservedSession(s);
    }

    /** Changing one record leaves every other session as it was. */
    lemma OneRecord(before: map<SessionId, Session>, s: SessionId)
      requires sessions.Keys == before.Keys && s in sessions
      requires forall t :: t in sessions && t != s ==> sessions[t].View() == before[t]
      ensures Records() == before[s := sessions[s].View()]
    {
      hide SessionRecord.View;
      SameMap(Records(), before[s := sessions[s].View()]);
    }

    // ---- Requests served in one turn ----

    method Subscribe(s: SessionId) returns (r: Result<WatchId, ServerError>)
      requires Valid()
      modifies this`sessions, this`nextTick, sessions.Values
      ensures Valid()
      ensures (View(), r) == old(View()).Access(s, (x: Session) => x.Subscribed(limits))
    {
      hide SessionRecord.View, Session.Subscribed;
      var tick := BeginRequest();
      ghost var begun := Records();
      var found := FreeSession(s);
      if found.Err? {
        return Err(found.error);
      }
      found.value.Touch(tick);
      r := found.value.Subscribe(limits);
      OneRecord(begun, s);
    }

    method PollWatch(s: SessionId, w: WatchId, limit: nat) returns (r: Result<Batch, ServerError>)
      requires Valid()
      modifies this`sessions, this`nextTick, sessions.Values
      ensures Valid()
      ensures (View(), r) == old(View()).Access(s, (x: Session) => x.Polled(w, Min(limit, limits.watchCapacity)))
    {
      hide SessionRecord.View, Session.Polled;
      var tick := BeginRequest();
      ghost var begun := Records();
      var found := FreeSession(s);
      if found.Err? {
        return Err(found.error);
      }
      found.value.Touch(tick);
      r := found.value.PollWatch(w, Min(limit, limits.watchCapacity));
      OneRecord(begun, s);
    }

    method CancelWatch(s: SessionId, w: WatchId) returns (r: Result<(), ServerError>)
      requires Valid()
      modifies this`sessions, this`nextTick, sessions.Values
      ensures Valid()
      ensures (View(), r) == old(View()).Access(s, (x: Session) => x.Cancelled(w))
    {
      hide SessionRecord.View, Session.Cancelled;
      var tick := BeginRequest();
      ghost var begun := Records();
      var found := FreeSession(s);
      if found.Err? {
        return Err(found.error);
      }
      found.value.Touch(tick);
      r := found.value.CancelWatch(w);
      OneRecord(begun, s);
    }

    method DrainChanges(s: SessionId) returns (r: Result<seq<Event>, ServerError>)
      requires Valid()
      modifies this`sessions, this`nextTick, sessions.Values
      ensures Valid()
      ensures (View(), r) == old(View()).Access(s, (x: Session) => x.Fed())
    {
      hide SessionRecord.View, Session.Drained;
      var tick := BeginRequest();
      ghost var begun := Records();
      var found := FreeSession(s);
      if found.Err? {
        return Err(found.error);
      }
      found.value.Touch(tick);
      LooksLike(found.value);
      var events := found.value.DrainChanges();
      r := Ok(events);
      OneRecord(begun, s);
    }

    method Snapshot(s: SessionId, rendering: Rendering) returns (r: Result<nat, ServerError>)
      requires Valid()
      modifies this`sessions, this`nextTick, sessions.Values
      ensures Valid()
      ensures (View(), r) == old(View()).Access(s, (x: Session) => x.Rendered(rendering))
    {
      hide SessionRecord.View, Session.Rendered;
      var tick := BeginRequest();
      ghost var begun := Records();
      var found := FreeSession(s);
      if found.Err? {
        return Err(found.error);
      }
      found.value.Touch(tick);
      r := found.value.Snapshot(rendering);
      OneRecord(begun, s);
    }

    method Revision(s: SessionId) returns (r: Result<nat, ServerError>)
      requires Valid()
      modifies this`sessions, this`nextTick, sessions.Values
      ensures Valid()
      ensures (View(), r) == old(View()).Access(s, (x: Session) => x.Read())
    {
      hide SessionRecord.View, Session.Rendered;
      var tick := BeginRequest();
      ghost var begun := Records();
      var found := FreeSession(s);
      if found.Err? {
        return Err(found.error);
      }
      found.value.Touch(tick);
      LooksLike(found.value);
      r := Ok(found.value.revision);
      OneRecord(begun, s);
    }

    /** commit_surface_operation for an operation the view handles itself. */
    method CommitLocal(s: SessionId, expected: Option<nat>, tree: SessionId, stated: nat, op: LocalOp,
                       kind: string, path: Option<string>, wall: Option<nat>, rendering: Rendering) returns (r: Result<nat, ServerError>)
      requires Valid()
      modifies this`sessions, this`nextTick, sessions.Values
      ensures Valid()
      ensures (View(), r) == old(View()).Access(s, (x: Session) => x.Committed(expected, tree, stated, op, kind, path, wall, rendering, limits))
    {
      hide SessionRecord.View, Session.Applied, Session.Changed, Session.Rendered;
      var tick := BeginRequest();
      ghost var begun := Records();
      var found := FreeSession(s);
      if found.Err? {
        return Err(found.error);
      }
      found.value.Touch(tick);
      r := CommitOn(found.value, expected, tree, stated, op, kind, path, wall, rendering, tick);
      OneRecord(begun, s);
    }

    method CommitOn(record: SessionRecord, expected: Option<nat>, tree: SessionId, stated: nat, op: LocalOp,
                    kind: string, path: Option<string>, wall: Option<nat>, rendering: Rendering, tick: nat)
      returns (r: Result<nat, ServerError>)
      requires limits.watchCapacity > 0 && record.View().lastTick == tick
      modifies record
      ensures (record.View(), r) == old(record.View()).Committed(expected, tree, stated, op, kind, path, wall, rendering, limits)
    {
      LooksLike(record);
      record.View().AppliedKeepsClock(tree, stated, op, limits);
      hide SessionRecord.View, Session.Applied, Session.Changed, Session.Rendered;
      if expected.Some? && expected.value != record.revision {
        return Err(StaleRevision(expected.value, record.revision));
      }
      var applied := record.ApplySurfaceLocal(tree, stated, op, limits);
      if applied.Err? {
        return Err(applied.error);
      }
      if applied.value {
        record.Changed(kind, path, tick, wall, limits);
      }
      r := record.Snapshot(rendering);
    }

    lemma LooksLike(record: SessionRecord)
      ensures record.View().revision == record.revision && record.View().changes == record.changes
    {
    }

    // ---- Creation ----

    /** The first turn of create_session; the tree is opened after it, unlocked. */
    method BeginCreate() returns (r: Result<(SessionId, nat), ServerError>)
      requires Valid()
      modifies this`sessions, this`nextTick, this`nextSession
      ensures Valid()
      ensures (View(), r) == old(View()).BeginCreate()
    {
      hide SessionRecord.View, Server.Begun;
      var tick := BeginRequest();
      assert |sessions| == |Records()| by {
        assert sessions.Keys == Records().Keys;
      }
      if |sessions| >= limits.maxSessions {
        return Err(SessionLimit);
      }
      var id := nextSession;
      nextSession := nextSession + 1;
      return Ok((id, tick));
    }

    /** The second turn of create_session. */
    method FinishCreate(id: SessionId, tick: nat) returns (r: Result<SessionId, ServerError>)
      requires Valid()
      modifies this`sessions
      ensures Valid()
      ensures (View(), r) == old(View()).FinishCreate(id, tick)
    {
      hide SessionRecord.View, Server.Expired;
      ExpireIdle();
      assert |sessions| == |Records()| by {
        assert sessions.Keys == Records().Keys;
      }
      if |sessions| >= limits.maxSessions {
        return Err(SessionLimit);
      }
      ghost var before := Records();
      var record := new SessionRecord(id, tick);
      sessions := sessions[id := record];
      SameMap(Records(), before[id := NewSession(id, tick)]);
      return Ok(id);
    }

    // ---- Operations of the runtime ----

    /** reserve_runtime: after this turn the runtime works with the registry unlocked. */
    method Reserve(s: SessionId, expected: Option<nat>) returns (r: Result<nat, ServerError>)
      requires Valid()
      modifies this`sessions, this`nextTick, this`inFlight, sessions.Values
      ensures Valid()
      ensures (View(), r) == old(View()).Reserve(s, expected)
    {
      hide SessionRecord.View, Server.Begun;
      var tick := BeginRequest();
      ghost var begun := Records();
      var found := FreeSession(s);
      if found.Err? {
        return Err(found.error);
      }
      var revision := TouchOne(s, tick);
      hide Registry.Records;
      if expected.Some? && expected.value != revision {
        return Err(StaleRevision(expected.value, revision));
      }
      inFlight := inFlight + {s};
      return Ok(tick);
    }

    method TouchOne(s: SessionId, tick: nat) returns (revision: nat)
      requires Valid() && s in sessions
      modifies sessions.Values
      ensures Valid() && revision == old(Records())[s].revision
      ensures Records() == old(Records())[s := old(Records())[s].Touched(tick)]
    {
      hide SessionRecord.View;
      ghost var before := Records();
      var record := sessions[s];
      LooksLike(record);
      revision := record.revision;
      record.Touch(tick);
      OneRecord(before, s);
    }

    /** The last turn of a runtime operation: commit_surface_operation when there is
        a snapshot to render, execute_direct_operation when there is none. */
    method Finish(s: SessionId, tick: nat, worked: bool, kind: string, path: Option<string>, wall: Option<nat>,
                  snapshot: Option<Rendering>) returns (r: Result<nat, ServerError>)
      requires Valid()
      modifies this`inFlight, sessions.Values
      ensures Valid()
      ensures (View(), r) == old(View()).Finish(s, tick, worked, kind, path, wall, snapshot)
    {
      hide SessionRecord.View, Session.Changed, Session.Rendered, IsRevisionChange;
      ghost var before := Records();
      if s !in inFlight {
        return Err(LostReservation);
      }
      inFlight := inFlight - {s};
      var found := ReservedSession(s);
      if found.Err? {
        return Err(found.error);
      }
      if !worked {
        return Err(OperationFailed);
      }
      var record := found.value;
      if IsRevisionChange(kind) {
        record.Changed(kind, path, tick, wall, limits);
      }
      LooksLike(record);
      r := Ok(record.revision);
      if snapshot.Some? {
        r := record.Snapshot(snapshot.value);
      }
      OneRecord(before, s);
    }

    // ---- Lifecycle ----

    method Close(s: SessionId) returns (r: Result<bool, ServerError>)
      requires Valid()
      modifies this`sessions, this`nextTick
      ensures Valid()
      ensures (View(), r) == old(View()).Close(s)
    {
      hide SessionRecord.View, Server.Begun;
      var tick := BeginRequest();
      if s in inFlight {
        return Err(SessionBusy);
      }
      ghost var before := Records();
      r := Ok(s in sessions);
      sessions := sessions - {s};
      SameMap(Records(), before - {s});
    }

    method MaintenanceTick(steps: nat) returns (expired: nat)
      requires Valid()
      modifies this`sessions, this`nextTick
      ensures Valid() && View() == old(View()).Maintained(steps)
      ensures |sessions| + expired == |old(sessions)|
    {
      hide SessionRecord.View, Server.Expired, Registry.Records;
      nextTick := nextTick + steps;
      ghost var keys := sessions.Keys;
      var before := |sessions|;
      ExpireIdle();
      assert sessions.Keys <= keys;
      SubsetSmaller(keys, sessions.Keys);
      expired := before - |sessions|;
    }
  }
}
