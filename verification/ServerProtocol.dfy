/** The server as a protocol. */
module ServerProtocol {
  // Every request is one turn with the registry locked, or two turns with the
  // runtime working in between while the session is reserved.  Any number of
  // threads interleave their turns.

  import opened Syntax
  import opened Collections
  import opened Sessions

  type Thread = nat

  datatype Server = Server(
    limits: Limits, sessions: map<SessionId, Session>, inFlight: set<SessionId>, nextSession: SessionId, nextTick: nat)
  {
    // ---- One turn each ----

    predicate Alive(s: SessionId)
      requires s in sessions
    {
      s in inFlight || nextTick - sessions[s].lastTick <= limits.maxIdleTicks
    }

    function Expired(): Server {
      this.(sessions := map s | s in sessions && Alive(s) :: sessions[s])
    }

    /** begin_request; its tick is the old next tick. */
    function Begun(): Server {
      this.(nextTick := nextTick + 1).Expired()
    }

    function Lookup(s: SessionId): Result<Session, ServerError> {
      if s in inFlight then Err(SessionBusy) else if s !in sessions then Err(UnknownSession) else Ok(sessions[s])
    }

    /** A request served in one turn by the session's record. */
    function Access<R>(s: SessionId, op: Session -> (Session, Result<R, ServerError>)): (Server, Result<R, ServerError>) {
      var b := Begun();
      if b.Lookup(s).Err? then (b, Err(b.Lookup(s).error))
      else
        var (next, r) := op(b.sessions[s].Touched(nextTick));
        (b.(sessions := b.sessions[s := next]), r)
    }

    function BeginCreate(): (Server, Result<(SessionId, nat), ServerError>) {
      var b := Begun();
      if |b.sessions| >= limits.maxSessions then (b, Err(SessionLimit))
      else (b.(nextSession := nextSession + 1), Ok((nextSession, nextTick)))
    }

    function FinishCreate(id: SessionId, tick: nat): (Server, Result<SessionId, ServerError>) {
      var e := Expired();
      if |e.sessions| >= limits.maxSessions then (e, Err(SessionLimit))
      else (e.(sessions := e.sessions[id := NewSession(id, tick)]), Ok(id))
    }

    function Reserve(s: SessionId, expected: Option<nat>): (Server, Result<nat, ServerError>) {
      var b := Begun();
      if b.Lookup(s).Err? then (b, Err(b.Lookup(s).error))
      else
        var touched := b.(sessions := b.sessions[s := b.sessions[s].Touched(nextTick)]);
        if expected.Some? && expected.value != b.sessions[s].revision
        then (touched, Err(StaleRevision(expected.value, b.sessions[s].revision)))
        else (touched.(inFlight := inFlight + {s}), Ok(nextTick))
    }

    /** The end of a reserved operation; a surface commit also renders a snapshot. */
    function Finish(s: SessionId, tick: nat, worked: bool, kind: string, path: Option<string>, wall: Option<nat>,
                    snapshot: Option<Rendering>): (Server, Result<nat, ServerError>) {
      if s !in inFlight then (this, Err(LostReservation))
      else
        var freed := this.(inFlight := inFlight - {s});
        if s !in sessions then (freed, Err(UnknownSession))
        else if !worked then (freed, Err(OperationFailed))
        else
          var changed := if IsRevisionChange(kind) then sessions[s].Changed(kind, path, tick, wall, limits) else sessions[s];
          var (next, r) := if snapshot.Some? then changed.Rendered(snapshot.value) else (changed, Ok(changed.revision));
          (freed.(sessions := sessions[s := next]), r)
    }

    function Close(s: SessionId): (Server, Result<bool, ServerError>) {
      var b := Begun();
      if s in b.inFlight then (b, Err(SessionBusy)) else (b.(sessions := b.sessions - {s}), Ok(s in b.sessions))
    }

    function Maintained(steps: nat): Server {
      this.(nextTick := nextTick + steps).Expired()
    }
  }

  // ---- Interleaved runs ----

  /** What a thread carries between its two turns. */
  datatype Ticket =
    | Creating(id: SessionId, tick: nat)
    | Running(session: SessionId, tick: nat, expected: Option<nat>)

  datatype Step =
    | BeginCreate(thread: Thread)
    | FinishCreate(thread: Thread)
    | Abandon(thread: Thread)
    | Reserve(thread: Thread, session: SessionId, expected: Option<nat>)
    | Finish(thread: Thread, worked: bool, kind: string, path: Option<string>, wall: Option<nat>, snapshot: Option<Rendering>)
    | Local(session: SessionId, expected: Option<nat>, tree: SessionId, stated: nat, op: LocalOp,
            kind: string, path: Option<string>, wall: Option<nat>, rendering: Rendering)
    | Subscribe(session: SessionId)
    | Poll(session: SessionId, watch: WatchId, limit: nat)
    | CancelWatch(session: SessionId, watch: WatchId)
    | Drain(session: SessionId)
    | Snapshot(session: SessionId, rendering: Rendering)
    | ReadRevision(session: SessionId)
    | Close(session: SessionId)
    | Maintain(steps: nat)

  /** A commit that changed a session, with the revision it expected. */
  datatype Commit = Commit(session: SessionId, expected: nat)

  datatype World = World(server: Server, tickets: map<Thread, Ticket>, commits: seq<Commit>)
  {
    /** A thread finishes only what it began and begins one thing at a time. */
    predicate Enabled(step: Step) {
      match step
      case BeginCreate(t) => t !in tickets
      case Reserve(t, _, _) => t !in tickets
      case FinishCreate(t) => t in tickets && tickets[t].Creating?
      case Abandon(t) => t in tickets && tickets[t].Creating?
      case Finish(t, _, _, _, _, _) => t in tickets && tickets[t].Running?
      case _ => true
    }

    function Next(step: Step): World
      requires Enabled(step)
    {
      var limits := server.limits;
      match step
      case BeginCreate(t) =>
        var (next, r) := server.BeginCreate();
        World(next, if r.Ok? then tickets[t := Creating(r.value.0, r.value.1)] else tickets, commits)
      case FinishCreate(t) => World(server.FinishCreate(tickets[t].id, tickets[t].tick).0, tickets - {t}, commits)
      case Abandon(t) => this.(tickets := tickets - {t})
      case Reserve(t, s, expected) =>
        var (next, r) := server.Reserve(s, expected);
        World(next, if r.Ok? then tickets[t := Running(s, r.value, expected)] else tickets, commits)
      case Finish(t, worked, kind, path, wall, snapshot) =>
        var k := tickets[t];
        var next := server.Finish(k.session, k.tick, worked, kind, path, wall, snapshot).0;
        World(next, tickets - {t}, if k.expected.Some? then Logged(next, Commit(k.session, k.expected.value)) else commits)
      case Local(s, expected, tree, stated, op, kind, path, wall, rendering) =>
        var next := server.Access(s, (x: Session) => x.Committed(expected, tree, stated, op, kind, path, wall, rendering, limits)).0;
        World(next, tickets, Logged(next, Commit(s, stated)))
      case Subscribe(s) => this.(server := server.Access(s, (x: Session) => x.Subscribed(limits)).0)
      case Poll(s, w, limit) => this.(server := server.Access(s, (x: Session) => x.Polled(w, Min(limit, limits.watchCapacity))).0)
      case CancelWatch(s, w) => this.(server := server.Access(s, (x: Session) => x.Cancelled(w)).0)
      case Drain(s) => this.(server := server.Access(s, (x: Session) => x.Fed()).0)
      case Snapshot(s, rendering) => this.(server := server.Access(s, (x: Session) => x.Rendered(rendering)).0)
      case ReadRevision(s) => this.(server := server.Access(s, (x: Session) => x.Read()).0)
      case Close(s) => this.(server := server.Close(s).0)
      case Maintain(steps) => this.(server := server.Maintained(steps))
    }

    /** The commits, with this one if it changed its session. */
    function Logged(next: Server, commit: Commit): seq<Commit> {
      if commit.session in server.sessions && commit.session in next.sessions
         && next.sessions[commit.session].revision != server.sessions[commit.session].revision
      then commits + [commit] else commits
    }

    // ---- The invariant ----

    ghost predicate Safe() {
      && server.limits.Valid()
      && |server.sessions| <= server.limits.maxSessions
      && (forall s {:trigger SessionSafe(s)} :: s in server.sessions ==> SessionSafe(s))
      && (forall s :: s in server.inFlight ==> exists t :: Owns(t, s))
      && (forall t {:trigger TicketSafe(t)} :: t in tickets ==> TicketSafe(t))
      && (forall t, u :: t in tickets && u in tickets && t != u ==> !Conflict(tickets[t], tickets[u]))
      && CommitsSafe()
    }

    ghost predicate SessionSafe(s: SessionId)
      requires s in server.sessions
    {
      var x := server.sessions[s];
      x.id == s && s < server.nextSession && x.lastTick < server.nextTick && x.Sane(server.limits)
    }

    ghost predicate Owns(t: Thread, s: SessionId) {
      t in tickets && tickets[t].Running? && tickets[t].session == s
    }

    ghost predicate TicketSafe(t: Thread)
      requires t in tickets
    {
      match tickets[t]
      case Creating(id, tick) =>
        id < server.nextSession && tick < server.nextTick && id !in server.sessions
        && (forall c :: 0 <= c < |commits| ==> commits[c].session != id)
      case Running(s, tick, expected) =>
        s in server.inFlight && s in server.sessions
        && server.sessions[s].lastTick == tick && server.sessions[s].Before(tick)
        && (expected.Some? ==> expected.value == server.sessions[s].revision)
    }

    static predicate Conflict(a: Ticket, b: Ticket) {
      (a.Creating? && b.Creating? && a.id == b.id) || (a.Running? && b.Running? && a.session == b.session)
    }

    /** No two commits expected the same revision of the same session. */
    ghost predicate CommitsSafe() {
      && (forall c :: 0 <= c < |commits| ==> commits[c].session < server.nextSession)
      && (forall c :: 0 <= c < |commits| && commits[c].session in server.sessions ==>
            commits[c].expected < server.sessions[commits[c].session].revision)
      && (forall c, d :: 0 <= c < d < |commits| ==> commits[c] != commits[d])
    }

    // ---- Every turn keeps it ----

    /** Time passes and idle sessions go, but none that is reserved. */
    lemma ShrinkSafe(next: Server)
      requires Safe()
      requires next.limits == server.limits && next.inFlight == server.inFlight
      requires next.nextSession == server.nextSession && next.nextTick >= server.nextTick
      requires next.sessions.Keys <= server.sessions.Keys && server.inFlight <= next.sessions.Keys
      requires forall s :: s in next.sessions ==> next.sessions[s] == server.sessions[s]
      ensures this.(server := next).Safe()
    {
      hide Session.Sane, Session.Before;
      var w := this.(server := next);
      SubsetSmaller(server.sessions.Keys, next.sessions.Keys);
      forall s | s in next.sessions ensures w.SessionSafe(s) { assert SessionSafe(s); }
      forall t | t in tickets ensures w.TicketSafe(t) { assert TicketSafe(t); }
      forall s | s in next.inFlight ensures exists t :: w.Owns(t, s) {
        var t :| Owns(t, s);
        assert w.Owns(t, s);
      }
    }

    lemma InFlightAlive()
      requires Safe()
      ensures server.inFlight <= server.sessions.Keys
    {
      hide Session.Sane, Session.Before;
      forall s | s in server.inFlight ensures s in server.sessions {
        var t :| Owns(t, s);
        assert TicketSafe(t);
      }
    }

    lemma BegunSafe()
      requires Safe()
      ensures this.(server := server.Begun()).Safe()
    {
      InFlightAlive();
      hide World.Safe;
      ShrinkSafe(server.Begun());
    }

    /** A session that is not reserved changes, at most to the next revision, which
        a commit may record. */
    lemma UpdateSafe(s: SessionId, next: Session, commit: bool)
      requires Safe() && s in server.sessions && s !in server.inFlight
      requires next.id == s && next.Sane(server.limits) && next.lastTick < server.nextTick
      requires next.revision == server.sessions[s].revision + (if commit then 1 else 0) || (!commit && next.revision > server.sessions[s].revision)
      ensures World(server.(sessions := server.sessions[s := next]), tickets,
                    if commit then commits + [Commit(s, server.sessions[s].revision)] else commits).Safe()
    {
      hide Session.Sane, Session.Before;
      var w := World(server.(sessions := server.sessions[s := next]), tickets,
                     if commit then commits + [Commit(s, server.sessions[s].revision)] else commits);
      assert w.server.sessions.Keys == server.sessions.Keys;
      forall x | x in w.server.sessions ensures w.SessionSafe(x) { assert SessionSafe(x); }
      forall t | t in tickets ensures w.TicketSafe(t) { assert TicketSafe(t); }
      forall x | x in w.server.inFlight ensures exists t :: w.Owns(t, x) {
        var t :| Owns(t, x);
        assert w.Owns(t, x);
      }
    }

    lemma AccessSafe<R>(s: SessionId, op: Session -> (Session, Result<R, ServerError>))
      requires Safe()
      requires var b := server.Begun();
               b.Lookup(s).Ok? ==>
                 var x := b.sessions[s].Touched(server.nextTick);
                 var next := op(x).0;
                 x.Sane(server.limits) && x.Before(x.lastTick) ==>
                   next.id == x.id && next.Sane(server.limits) && next.lastTick == x.lastTick && next.revision >= x.revision
      ensures this.(server := server.Access(s, op).0).Safe()
    {
      BegunSafe();
      var b := server.Begun();
      if b.Lookup(s).Ok? {
        TouchedFacts(s);
        hide World.Safe;
        this.(server := b).UpdateSafe(s, op(b.sessions[s].Touched(server.nextTick)).0, false);
      }
    }

    lemma TouchedFacts(s: SessionId)
      requires Safe() && server.Begun().Lookup(s).Ok?
      ensures var x := server.Begun().sessions[s].Touched(server.nextTick);
              s in server.sessions && server.Begun().sessions[s] == server.sessions[s]
              && x.id == s && x.Sane(server.limits) && x.Before(x.lastTick) && x.revision == server.sessions[s].revision
    {
      assert SessionSafe(s);
      hide World.Safe;
      server.sessions[s].TouchedSane(server.nextTick, server.limits);
    }

    lemma LocalSafe(step: Step)
      requires Safe() && step.Local?
      ensures Next(step).Safe()
    {
      var limits := server.limits;
      var op := (x: Session) => x.Committed(step.expected, step.tree, step.stated, step.op, step.kind, step.path, step.wall, step.rendering, limits);
      BegunSafe();
      var b := server.Begun();
      if b.Lookup(step.session).Ok? {
        TouchedFacts(step.session);
        var x := b.sessions[step.session].Touched(server.nextTick);
        hide World.Safe, Session.Sane;
        assert limits.Valid() by { LimitsValid(); }
        x.CommittedSane(step.expected, step.tree, step.stated, step.op, step.kind, step.path, step.wall, step.rendering, limits);
        this.(server := b).UpdateSafe(step.session, op(x).0, op(x).0.revision != x.revision);
      }
    }

    lemma LimitsValid()
      requires Safe()
      ensures server.limits.Valid()
    {
    }

    lemma OneTurnSane(x: Session, step: Step, limits: Limits)
      requires x.Sane(limits)
      requires step.Subscribe? || step.Poll? || step.CancelWatch? || step.Drain? || step.Snapshot? || step.ReadRevision?
      ensures var y := match step
                       case Subscribe(_) => x.Subscribed(limits).0
                       case Poll(_, w, limit) => x.Polled(w, Min(limit, limits.watchCapacity)).0
                       case CancelWatch(_, w) => x.Cancelled(w).0
                       case Drain(_) => x.Drained()
                       case Snapshot(_, rendering) => x.Rendered(rendering).0
                       case _ => x;
              y.Sane(limits) && x.SameChronicle(y)
    {
      hide Session.Sane, Session.Subscribed, Session.Polled, Session.Cancelled, Session.Drained, Session.Rendered;
      match step {
        case Subscribe(_) => x.SubscribedSane(limits);
        case Drain(_) => x.DrainedSane(limits);
        case Poll(_, w, limit) => x.PolledSane(w, Min(limit, limits.watchCapacity), limits);
        case CancelWatch(_, w) => x.CancelledSane(w, limits);
        case Snapshot(_, rendering) => x.RenderedSane(rendering, limits);
        case _ =>
      }
    }

    lemma OneTurnSafe(step: Step)
      requires Safe()
      requires step.Subscribe? || step.Poll? || step.CancelWatch? || step.Drain? || step.Snapshot? || step.ReadRevision?
      ensures Next(step).Safe()
    {
      hide World.Safe, Session.Sane, Session.Before, Session.Subscribed, Session.Polled, Session.Cancelled, Session.Drained, Session.Rendered;
      var limits, s := server.limits, step.session;
      var b := server.Begun();
      if b.Lookup(s).Ok? {
        TouchedFacts(s);
        OneTurnSane(b.sessions[s].Touched(server.nextTick), step, limits);
      }
      match step {
        case Subscribe(_) => AccessSafe(s, (x: Session) => x.Subscribed(limits));
        case Poll(_, w, limit) => AccessSafe(s, (x: Session) => x.Polled(w, Min(limit, limits.watchCapacity)));
        case CancelWatch(_, w) => AccessSafe(s, (x: Session) => x.Cancelled(w));
        case Drain(_) => AccessSafe(s, (x: Session) => x.Fed());
        case Snapshot(_, rendering) => AccessSafe(s, (x: Session) => x.Rendered(rendering));
        case ReadRevision(_) => AccessSafe(s, (x: Session) => x.Read());
      }
    }

    lemma ReserveSafe(step: Step)
      requires Safe() && step.Reserve? && Enabled(step)
      ensures Next(step).Safe()
    {
      var s := step.session;
      BegunSafe();
      var b := server.Begun();
      if b.Lookup(s).Ok? {
        TouchedFacts(s);
        var x := b.sessions[s].Touched(server.nextTick);
        {
          hide World.Safe, Session.Sane;
          this.(server := b).UpdateSafe(s, x, false);
        }
        if step.expected.Some? ==> step.expected.value == x.revision {
          hide Session.Sane, Session.Before;
          this.(server := b.(sessions := b.sessions[s := x])).ClaimSafe(step.thread, s, step.expected);
        }
      }
    }

    /** A free session whose record is up to date can be reserved. */
    lemma ClaimSafe(t: Thread, s: SessionId, expected: Option<nat>)
      requires Safe() && t !in tickets && s in server.sessions && s !in server.inFlight
      requires server.sessions[s].Before(server.sessions[s].lastTick)
      requires expected.Some? ==> expected.value == server.sessions[s].revision
      ensures World(server.(inFlight := server.inFlight + {s}), tickets[t := Running(s, server.sessions[s].lastTick, expected)], commits).Safe()
    {
      hide Session.Sane, Session.Before;
      var w := World(server.(inFlight := server.inFlight + {s}), tickets[t := Running(s, server.sessions[s].lastTick, expected)], commits);
      forall x | x in w.server.sessions ensures w.SessionSafe(x) { assert SessionSafe(x); }
      forall u | u in w.tickets ensures w.TicketSafe(u) {
        if u != t { assert TicketSafe(u); }
      }
      forall u | u in tickets && u != t ensures !Conflict(tickets[u], w.tickets[t]) && !Conflict(w.tickets[t], tickets[u]) { assert TicketSafe(u); }
      forall x | x in w.server.inFlight ensures exists u :: w.Owns(u, x) {
        if x == s {
          assert w.Owns(t, x);
        } else {
          var u :| Owns(u, x);
          assert w.Owns(u, x);
        }
      }
    }

    /** When a thread finishes, its reservation and its session are still there. */
    lemma FinishFindsItsSession(step: Step)
      requires Safe() && step.Finish? && Enabled(step)
      ensures var k := tickets[step.thread];
              && k.session in server.inFlight && k.session in server.sessions
              && server.Finish(k.session, k.tick, step.worked, step.kind, step.path, step.wall, step.snapshot).1 != Err(LostReservation)
              && server.Finish(k.session, k.tick, step.worked, step.kind, step.path, step.wall, step.snapshot).1 != Err(UnknownSession)
    {
      hide Session.Sane, Session.Before;
      assert TicketSafe(step.thread);
    }

    /** A reservation is given back. */
    lemma ReleaseSafe(t: Thread)
      requires Safe() && t in tickets && tickets[t].Running?
      ensures World(server.(inFlight := server.inFlight - {tickets[t].session}), tickets - {t}, commits).Safe()
    {
      hide Session.Sane, Session.Before;
      var w := World(server.(inFlight := server.inFlight - {tickets[t].session}), tickets - {t}, commits);
      forall x | x in w.server.sessions ensures w.SessionSafe(x) { assert SessionSafe(x); }
      forall u | u in w.tickets ensures w.TicketSafe(u) { assert TicketSafe(u); }
      forall x | x in w.server.inFlight ensures exists u :: w.Owns(u, x) {
        var u :| Owns(u, x);
        assert w.Owns(u, x);
      }
    }

    lemma FinishSafe(step: Step)
      requires Safe() && step.Finish? && Enabled(step)
      ensures Next(step).Safe()
    {
      var t := step.thread;
      var k := tickets[t];
      var s := k.session;
      FinishFindsItsSession(step);
      assert TicketSafe(t) && SessionSafe(s);
      ReleaseSafe(t);
      LimitsValid();
      var x, limits := server.sessions[s], server.limits;
      hide World.Safe;
      var w := World(server.(inFlight := server.inFlight - {s}), tickets - {t}, commits);
      if step.worked {
        x.ChangedSane(step.kind, step.path, k.tick, step.wall, limits);
        var y := if IsRevisionChange(step.kind) then x.Changed(step.kind, step.path, k.tick, step.wall, limits) else x;
        hide Session.Sane, Session.Before, IsRevisionChange;
        if step.snapshot.Some? {
          y.RenderedSane(step.snapshot.value, limits);
        }
        var z := if step.snapshot.Some? then y.Rendered(step.snapshot.value).0 else y;
        assert Next(step).server == w.server.(sessions := server.sessions[s := z]);
        w.UpdateSafe(s, z, k.expected.Some? && z.revision != x.revision);
      }
    }

    lemma CreateSafe(step: Step)
      requires Safe() && Enabled(step) && (step.BeginCreate? || step.FinishCreate? || step.Abandon?)
      ensures Next(step).Safe()
    {
      match step
      case BeginCreate(t) =>
        BegunSafe();
        if server.BeginCreate().1.Ok? {
          hide Session.Sane, Session.Before;
          this.(server := server.Begun()).NumberedSafe(t, server.nextTick);
        }
      case FinishCreate(t) =>
        InFlightAlive();
        ShrinkSafe(server.Expired());
        if server.FinishCreate(tickets[t].id, tickets[t].tick).1.Ok? {
          hide Session.Sane, Session.Before;
          this.(server := server.Expired()).ArrivalSafe(t);
        } else {
          hide Session.Sane, Session.Before;
          this.(server := server.Expired()).DropSafe(t);
        }
      case Abandon(t) => DropSafe(t);
    }

    /** A thread is given a fresh session number. */
    lemma NumberedSafe(t: Thread, tick: nat)
      requires Safe() && t !in tickets && tick < server.nextTick
      ensures World(server.(nextSession := server.nextSession + 1), tickets[t := Creating(server.nextSession, tick)], commits).Safe()
    {
      hide Session.Sane, Session.Before;
      var w := World(server.(nextSession := server.nextSession + 1), tickets[t := Creating(server.nextSession, tick)], commits);
      assert server.nextSession in server.sessions ==> SessionSafe(server.nextSession);
      forall x | x in w.server.sessions ensures w.SessionSafe(x) { assert SessionSafe(x); }
      forall u | u in w.tickets ensures w.TicketSafe(u) {
        if u != t { assert TicketSafe(u); }
      }
      forall u | u in tickets && u != t ensures !Conflict(tickets[u], w.tickets[t]) && !Conflict(w.tickets[t], tickets[u]) { assert TicketSafe(u); }
      forall x | x in w.server.inFlight ensures exists u :: w.Owns(u, x) {
        var u :| Owns(u, x);
        assert w.Owns(u, x);
      }
    }

    lemma DropSafe(t: Thread)
      requires Safe() && t in tickets && tickets[t].Creating?
      ensures this.(tickets := tickets - {t}).Safe()
    {
      hide Session.Sane, Session.Before;
      var w := this.(tickets := tickets - {t});
      forall x | x in w.server.sessions ensures w.SessionSafe(x) { assert SessionSafe(x); }
      forall u | u in w.tickets ensures w.TicketSafe(u) { assert TicketSafe(u); }
      forall x | x in w.server.inFlight ensures exists u :: w.Owns(u, x) {
        var u :| Owns(u, x);
        assert w.Owns(u, x);
      }
    }

    /** The created session joins the registry. */
    lemma ArrivalSafe(t: Thread)
      requires Safe() && t in tickets && tickets[t].Creating? && |server.sessions| < server.limits.maxSessions
      ensures World(server.(sessions := server.sessions[tickets[t].id := NewSession(tickets[t].id, tickets[t].tick)]), tickets - {t}, commits).Safe()
    {
      hide Session.Sane, Session.Before, NewSession;
      var id, tick := tickets[t].id, tickets[t].tick;
      assert TicketSafe(t);
      forall u | u in tickets && u != t ensures !(tickets[u].Creating? && tickets[u].id == id) {
        assert !Conflict(tickets[u], tickets[t]);
      }
      DropSafe(t);
      this.(tickets := tickets - {t}).JoinSafe(id, tick);
    }

    /** A session under a number nobody uses or is about to use. */
    lemma JoinSafe(id: SessionId, tick: nat)
      requires Safe() && id !in server.sessions && id < server.nextSession && tick < server.nextTick
      requires |server.sessions| < server.limits.maxSessions
      requires forall u :: u in tickets ==> !(tickets[u].Creating? && tickets[u].id == id)
      requires forall c :: 0 <= c < |commits| ==> commits[c].session != id
      ensures this.(server := server.(sessions := server.sessions[id := NewSession(id, tick)])).Safe()
    {
      NewSessionSane(id, tick, server.limits);
      hide Session.Sane, Session.Before, NewSession;
      var w := this.(server := server.(sessions := server.sessions[id := NewSession(id, tick)]));
      forall x | x in w.server.sessions ensures w.SessionSafe(x) {
        if x != id { assert SessionSafe(x); }
      }
      forall u | u in w.tickets ensures w.TicketSafe(u) { assert TicketSafe(u); }
      forall x | x in w.server.inFlight ensures exists u :: w.Owns(u, x) {
        var u :| Owns(u, x);
        assert w.Owns(u, x);
      }
    }

    /** Every turn of every thread keeps the invariant. */
    lemma StepSafe(step: Step)
      requires Safe() && Enabled(step)
      ensures Next(step).Safe()
    {
      hide World.Safe;
      match step {
        case BeginCreate(_) => CreateSafe(step);
        case FinishCreate(_) => CreateSafe(step);
        case Abandon(_) => CreateSafe(step);
        case Reserve(_, _, _) => ReserveSafe(step);
        case Finish(_, _, _, _, _, _) => FinishSafe(step);
        case Local(_, _, _, _, _, _, _, _, _) => LocalSafe(step);
        case Close(s) =>
          InFlightAlive();
          BegunSafe();
          if s !in server.inFlight {
            this.(server := server.Begun()).InFlightAlive();
            this.(server := server.Begun()).ShrinkSafe(server.Close(s).0);
          }
        case Maintain(steps) =>
          InFlightAlive();
          ShrinkSafe(server.Maintained(steps));
        case _ => OneTurnSafe(step);
      }
    }

    /** A reserved session is neither expired, closed nor changed by any turn but
        its owner's finish. */
    lemma ReservedUntouched(step: Step, s: SessionId)
      requires Safe() && Enabled(step) && s in server.inFlight
      requires !(step.Finish? && tickets[step.thread].session == s)
      ensures s in server.sessions && s in Next(step).server.inFlight
      ensures s in Next(step).server.sessions && Next(step).server.sessions[s] == server.sessions[s]
    {
      InFlightAlive();
      if step.FinishCreate? {
        assert TicketSafe(step.thread);
      }
      hide World.Safe, Session.Committed, Session.Changed, Session.Rendered;
    }

    /** One turn adds at most one event to a session and rewrites none. */
    lemma HistoryGrows(step: Step, s: SessionId)
      requires Safe() && Enabled(step) && s in server.sessions && s in Next(step).server.sessions
      ensures Grows(server.sessions[s], Next(step).server.sessions[s])
    {
      var limits := server.limits;
      match step {
        case Local(q, expected, tree, stated, op, kind, path, wall, rendering) => LocalGrows(step, s);
        case Finish(_, _, _, _, _, _) => FinishGrows(step, s);
        case FinishCreate(t) =>
          assert TicketSafe(t);
          hide World.Safe, Session.Sane, Session.Before;
        case Subscribe(_) => OneTurnGrows(step, s);
        case Poll(_, _, _) => OneTurnGrows(step, s);
        case CancelWatch(_, _) => OneTurnGrows(step, s);
        case Drain(_) => OneTurnGrows(step, s);
        case Snapshot(_, _) => OneTurnGrows(step, s);
        case ReadRevision(_) => OneTurnGrows(step, s);
        case _ => hide World.Safe, Session.Sane, Session.Before;
      }
    }

    static ghost predicate Grows(x: Session, y: Session) {
      x.history <= y.history && |y.history| <= |x.history| + 1
    }

    lemma OneTurnGrows(step: Step, s: SessionId)
      requires Safe() && Enabled(step) && s in server.sessions && s in Next(step).server.sessions
      requires step.Subscribe? || step.Poll? || step.CancelWatch? || step.Drain? || step.Snapshot? || step.ReadRevision?
      ensures Grows(server.sessions[s], Next(step).server.sessions[s])
    {
      hide World.Safe, Session.Sane, Session.Before, Session.Subscribed, Session.Polled, Session.Cancelled, Session.Drained, Session.Rendered;
      if server.Begun().Lookup(step.session).Ok? {
        TouchedFacts(step.session);
        OneTurnSane(server.Begun().sessions[step.session].Touched(server.nextTick), step, server.limits);
      }
    }

    lemma LocalGrows(step: Step, s: SessionId)
      requires Safe() && step.Local? && Enabled(step) && s in server.sessions && s in Next(step).server.sessions
      ensures Grows(server.sessions[s], Next(step).server.sessions[s])
    {
      hide Session.Committed, Session.Before;
      if server.Begun().Lookup(step.session).Ok? {
        TouchedFacts(step.session);
        LimitsValid();
        var x := server.Begun().sessions[step.session].Touched(server.nextTick);
        x.CommittedSane(step.expected, step.tree, step.stated, step.op, step.kind, step.path, step.wall, step.rendering, server.limits);
        CommitLength(x, x.Committed(step.expected, step.tree, step.stated, step.op, step.kind, step.path, step.wall, step.rendering, server.limits).0,
                     server.limits);
      }
      hide World.Safe, Session.Sane;
    }

    lemma FinishGrows(step: Step, s: SessionId)
      requires Safe() && step.Finish? && Enabled(step) && s in server.sessions && s in Next(step).server.sessions
      ensures Grows(server.sessions[s], Next(step).server.sessions[s])
    {
      FinishFindsItsSession(step);
      var k := tickets[step.thread];
      assert TicketSafe(step.thread) && SessionSafe(k.session);
      LimitsValid();
      hide World.Safe, Session.Rendered, Session.Before;
      var x, limits := server.sessions[k.session], server.limits;
      x.ChangedSane(step.kind, step.path, k.tick, step.wall, limits);
      if step.snapshot.Some? {
        x.RenderedSane(step.snapshot.value, limits);
        x.Changed(step.kind, step.path, k.tick, step.wall, limits).RenderedSane(step.snapshot.value, limits);
      }
      hide Session.Sane;
    }

    lemma CommitLength(x: Session, y: Session, limits: Limits)
      requires x.Sane(limits) && y.Sane(limits) && (y.revision == x.revision || y.revision == x.revision + 1)
      ensures |y.history| <= |x.history| + 1
    {
    }
  }

  lemma NewSessionSane(id: SessionId, tick: nat, limits: Limits)
    ensures NewSession(id, tick).Sane(limits) && NewSession(id, tick).id == id && NewSession(id, tick).lastTick == tick
    ensures NewSession(id, tick).revision == 1
  {
  }

  function Start(limits: Limits): World {
    World(Server(limits, map[], {}, 1, 1), map[], [])
  }

  /** Turns that threads can take one after another. */
  ghost predicate Admissible(w: World, run: seq<Step>)
    decreases |run|
  {
    run == [] || (w.Enabled(run[0]) && Admissible(w.Next(run[0]), run[1..]))
  }

  ghost function After(w: World, run: seq<Step>): World
    requires Admissible(w, run)
    decreases |run|
  {
    if run == [] then w else After(w.Next(run[0]), run[1..])
  }

  /** However the threads interleave, the server stays safe. */
  lemma {:induction false} RunSafe(w: World, run: seq<Step>)
    requires w.Safe() && Admissible(w, run)
    ensures After(w, run).Safe()
    decreases |run|
  {
    hide World.Safe;
    if run != [] {
      w.StepSafe(run[0]);
      RunSafe(w.Next(run[0]), run[1..]);
    }
  }

  /** Between a thread's two turns nothing the others do reaches its session. */
  lemma {:induction false} ReservationHolds(w: World, run: seq<Step>, t: Thread)
    requires w.Safe() && Admissible(w, run) && t in w.tickets && w.tickets[t].Running?
    requires forall i :: 0 <= i < |run| ==> !(run[i].Finish? && run[i].thread == t)
    ensures w.tickets[t].session in w.server.sessions
    ensures var s, later := w.tickets[t].session, After(w, run);
            && t in later.tickets && later.tickets[t] == w.tickets[t] && s in later.server.inFlight
            && s in later.server.sessions && later.server.sessions[s] == w.server.sessions[s]
    decreases |run|
  {
    TicketReserves(w, t);
    if run != [] {
      var s := w.tickets[t].session;
      if run[0].Finish? {
        OwnersDiffer(w, t, run[0].thread);
      }
      w.ReservedUntouched(run[0], s);
      w.StepSafe(run[0]);
      hide World.Safe;
      assert forall i :: 0 <= i < |run[1..]| ==> run[1..][i] == run[i + 1];
      TicketStays(w, run[0], t);
      ReservationHolds(w.Next(run[0]), run[1..], t);
    }
  }

  lemma TicketReserves(w: World, t: Thread)
    requires w.Safe() && t in w.tickets && w.tickets[t].Running?
    ensures w.tickets[t].session in w.server.inFlight && w.tickets[t].session in w.server.sessions
  {
    assert w.TicketSafe(t);
  }

  lemma OwnersDiffer(w: World, t: Thread, u: Thread)
    requires w.Safe() && t in w.tickets && u in w.tickets && t != u && w.tickets[t].Running? && w.tickets[u].Running?
    ensures w.tickets[t].session != w.tickets[u].session
  {
    assert !World.Conflict(w.tickets[t], w.tickets[u]);
  }

  lemma OneOwner(w: World, t: Thread, u: Thread, s: SessionId)
    requires w.Safe() && w.Owns(t, s) && w.Owns(u, s)
    ensures t == u && s in w.server.inFlight
  {
    hide Session.Sane, Session.Before;
    TicketReserves(w, t);
    if t != u {
      OwnersDiffer(w, t, u);
    }
  }

  lemma TicketStays(w: World, step: Step, t: Thread)
    requires w.Enabled(step) && t in w.tickets && w.tickets[t].Running? && !(step.Finish? && step.thread == t)
    ensures t in w.Next(step).tickets && w.Next(step).tickets[t] == w.tickets[t]
  {
    hide Session.Committed, Session.Rendered, Session.Changed;
  }

  lemma StartSafe(limits: Limits)
    requires limits.Valid()
    ensures Start(limits).Safe()
  {
  }

  /** The protocol, over every run from an empty server: reserved sessions are live
      and owned by exactly one thread, the session limit holds, and of all commits
      that expected one revision of one session at most one took effect. */
  lemma ProtocolHolds(limits: Limits, run: seq<Step>)
    requires limits.Valid() && Admissible(Start(limits), run)
    ensures var w := After(Start(limits), run);
            && w.server.inFlight <= w.server.sessions.Keys
            && |w.server.sessions| <= w.server.limits.maxSessions
            && (forall s :: s in w.server.inFlight ==> exists t :: w.Owns(t, s))
            && (forall t, u, s :: w.Owns(t, s) && w.Owns(u, s) ==> t == u && s in w.server.inFlight)
            && (forall c, d :: 0 <= c < d < |w.commits| ==> w.commits[c] != w.commits[d])
            && (forall s :: s in w.server.sessions ==> w.server.sessions[s].Sane(w.server.limits))
  {
    StartSafe(limits);
    RunSafe(Start(limits), run);
    var w := After(Start(limits), run);
    w.InFlightAlive();
    forall s | s in w.server.sessions ensures w.server.sessions[s].Sane(w.server.limits) {
      assert w.SessionSafe(s);
    }
    hide Session.Sane, Session.Before;
    forall t, u, s | w.Owns(t, s) && w.Owns(u, s) ensures t == u && s in w.server.inFlight {
      OneOwner(w, t, u, s);
    }
  }
}
