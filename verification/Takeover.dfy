/** Human takeover sessions and their audit log. */
module Takeover {
  import opened Common

  /** Takeover ids are UUIDs: plain numbers, drawn fresh. */
  type TakeoverId = nat

  datatype ControlOwner = Agent | Human

  datatype TakeoverState = Requested | Active | Paused | Completed | Expired

  datatype Session = Session(
    id: TakeoverId, agentId: string, reason: string, owner: ControlOwner, state: TakeoverState, expiresAt: nat)

  datatype AuditEvent = AuditEvent(takeoverId: TakeoverId, state: TakeoverState, tick: nat)

  datatype Manager = Manager(sessions: map<TakeoverId, Session>, audit: seq<AuditEvent>)

  predicate Terminal(state: TakeoverState) {
    state.Completed? || state.Expired?
  }

  // ----------------------------------------------------------- specification

  /** A session moves unless it is unknown or already over. */
  predicate Movable(m: Manager, id: TakeoverId) {
    id in m.sessions && !Terminal(m.sessions[id].state)
  }

  function Moved(m: Manager, id: TakeoverId, owner: ControlOwner, state: TakeoverState, now: nat): Manager {
    if !Movable(m, id) then m
    else Manager(m.sessions[id := m.sessions[id].(owner := owner, state := state)],
                 m.audit + [AuditEvent(id, state, now)])
  }

  predicate Due(m: Manager, id: TakeoverId, now: nat) {
    id in m.sessions && !m.sessions[id].state.Completed? && m.sessions[id].expiresAt <= now
  }

  function ExpiredAll(m: Manager, ids: seq<TakeoverId>, now: nat): Manager {
    if ids == [] then m
    else Moved(ExpiredAll(m, ids[..|ids| - 1], now), ids[|ids| - 1], Agent, Expired, now)
  }

  /** The human moves of a takeover. */
  datatype Move = Accept | Pause | Resume | Complete

  function Target(move: Move): TakeoverState {
    match move
    case Accept => Active
    case Pause => Paused
    case Resume => Active
    case Complete => Completed
  }

  /** A call: a request with the id drawn for it, a human move, or an expiry sweep
      with the order in which the session map lists the due ids. */
  datatype Call =
    | Request(agentId: string, reason: string, timeout: nat, now: nat, id: TakeoverId)
    | Transition(move: Move, id: TakeoverId, now: nat)
    | Expire(now: nat, ids: seq<TakeoverId>)

  ghost predicate Legal(m: Manager, call: Call) {
    match call
    case Request(_, _, _, _, id) => id !in m.sessions
    case Transition(_, _, _) => true
    case Expire(now, ids) => forall id :: id in ids <==> Due(m, id, now)
  }

  function After(m: Manager, call: Call): Manager {
    match call
    case Request(agentId, reason, timeout, now, id) =>
      Manager(m.sessions[id := Session(id, agentId, reason, Agent, Requested, SatAdd(now, Max(timeout, 1)))],
              m.audit + [AuditEvent(id, Requested, now)])
    case Transition(move, id, now) => Moved(m, id, Human, Target(move), now)
    case Expire(now, ids) => ExpiredAll(m, ids, now)
  }

  ghost predicate LegalRun(m: Manager, calls: seq<Call>)
    decreases calls
  {
    calls == [] || (Legal(m, calls[0]) && LegalRun(After(m, calls[0]), calls[1..]))
  }

  ghost function Run(m: Manager, calls: seq<Call>): Manager
    decreases calls
  {
    if calls == [] then m else Run(After(m, calls[0]), calls[1..])
  }

  // -------------------------------------------------------------------- laws

  /** The state a replay of the log gives to `id`. */
  ghost function LastState(audit: seq<AuditEvent>, id: TakeoverId): Option<TakeoverState> {
    if audit == [] then None
    else
      var e := audit[|audit| - 1];
      if e.takeoverId == id then Some(e.state) else LastState(audit[..|audit| - 1], id)
  }

  /** Nothing follows a Completed or Expired event of the same session. */
  ghost predicate TerminalIsLast(audit: seq<AuditEvent>) {
    forall i, j | 0 <= i < j < |audit| && audit[i].takeoverId == audit[j].takeoverId :: !Terminal(audit[i].state)
  }

  ghost predicate OwnerMatches(s: Session) {
    s.owner.Human? <==> (s.state.Active? || s.state.Paused? || s.state.Completed?)
  }

  /** The log replays to exactly the sessions' states, ends each session at its
      terminal event, and the human owns exactly the human states. */
  ghost predicate Consistent(m: Manager) {
    && (forall id :: LastState(m.audit, id) == if id in m.sessions then Some(m.sessions[id].state) else None)
    && (forall id | id in m.sessions :: m.sessions[id].id == id && OwnerMatches(m.sessions[id]))
    && TerminalIsLast(m.audit)
  }

  lemma LastStateAfter(audit: seq<AuditEvent>, e: AuditEvent, id: TakeoverId)
    ensures LastState(audit + [e], id) == if e.takeoverId == id then Some(e.state) else LastState(audit, id)
  {
    assert (audit + [e])[..|audit|] == audit;
  }

  /** Some event of `id` carries its last state, unless it has no event. */
  lemma {:induction false} EventsBeforeLast(audit: seq<AuditEvent>, i: nat)
    requires TerminalIsLast(audit) && i < |audit| && Terminal(audit[i].state)
    ensures LastState(audit, audit[i].takeoverId) == Some(audit[i].state)
    decreases |audit|
  {
    if i == |audit| - 1 {
    } else {
      var front := audit[..|audit| - 1];
      assert front[i] == audit[i];
      EventsBeforeLast(front, i);
    }
  }

  lemma AppendKeepsTerminal(audit: seq<AuditEvent>, e: AuditEvent)
    requires TerminalIsLast(audit)
    requires LastState(audit, e.takeoverId).None? || !Terminal(LastState(audit, e.takeoverId).value)
    ensures TerminalIsLast(audit + [e])
  {
    forall i | 0 <= i < |audit| && audit[i].takeoverId == e.takeoverId
      ensures !Terminal(audit[i].state)
    {
      if Terminal(audit[i].state) {
        EventsBeforeLast(audit, i);
      }
    }
  }

  lemma MovedConsistent(m: Manager, id: TakeoverId, owner: ControlOwner, state: TakeoverState, now: nat)
    requires Consistent(m)
    requires owner.Human? <==> (state.Active? || state.Paused? || state.Completed?)
    ensures Consistent(Moved(m, id, owner, state, now))
  {
    if Movable(m, id) {
      var e := AuditEvent(id, state, now);
      AppendKeepsTerminal(m.audit, e);
      forall x
        ensures LastState(m.audit + [e], x) == if x == id then Some(state) else LastState(m.audit, x)
      {
        LastStateAfter(m.audit, e, x);
      }
    }
  }

  /** An expiry sweep ends exactly the listed sessions that are not yet over. */
  lemma {:induction false} ExpiredAllConsistent(m: Manager, ids: seq<TakeoverId>, now: nat)
    requires Consistent(m)
    ensures var swept := ExpiredAll(m, ids, now);
            && Consistent(swept) && swept.sessions.Keys == m.sessions.Keys
            && forall id | id in m.sessions :: swept.sessions[id] == SweptSession(m, ids, id)
  {
    if ids == [] {
    } else {
      ExpiredAllConsistent(m, ids[..|ids| - 1], now);
      MovedConsistent(ExpiredAll(m, ids[..|ids| - 1], now), ids[|ids| - 1], Agent, Expired, now);
    }
    forall id | id in m.sessions
      ensures ExpiredAll(m, ids, now).sessions[id] == SweptSession(m, ids, id)
    {
      ExpiredAllAt(m, ids, now, id);
    }
  }

  /** A session after a sweep of `ids`. */
  ghost function SweptSession(m: Manager, ids: seq<TakeoverId>, id: TakeoverId): Session
    requires id in m.sessions
  {
    if id in ids && Movable(m, id) then m.sessions[id].(owner := Agent, state := Expired) else m.sessions[id]
  }

  lemma {:induction false} ExpiredAllAt(m: Manager, ids: seq<TakeoverId>, now: nat, id: TakeoverId)
    requires id in m.sessions
    ensures id in ExpiredAll(m, ids, now).sessions
    ensures ExpiredAll(m, ids, now).sessions[id] == SweptSession(m, ids, id)
  {
    if ids == [] {
    } else {
      var front, last := ids[..|ids| - 1], ids[|ids| - 1];
      assert ids == front + [last];
      ExpiredAllAt(m, front, now, id);
    }
  }

  lemma {:induction false} ExpiredAllKeys(m: Manager, ids: seq<TakeoverId>, now: nat)
    ensures ExpiredAll(m, ids, now).sessions.Keys == m.sessions.Keys
  {
    if ids == [] {
    } else {
      ExpiredAllKeys(m, ids[..|ids| - 1], now);
    }
  }

  // ------------------------------------------------- what the last call decides

  /** The state an accepted call gives to session `id`. */
  predicate Brings(call: Call, id: TakeoverId, state: TakeoverState) {
    match call
    case Request(_, _, _, _, x) => x == id && state == Requested
    case Transition(move, x, _) =>
      x == id && (if move.Pause? then state == Paused else if move.Complete? then state == Completed
                  else state == Active)
    case Expire(_, ids) => id in ids && state == Expired
  }

  /** One call changes a session only to the state it brings, and leaves agent,
      reason and deadline of a known session alone. */
  lemma StepBrings(m: Manager, call: Call, id: TakeoverId)
    requires Legal(m, call) && id in After(m, call).sessions
    ensures var s := After(m, call).sessions[id];
            && (id !in m.sessions ==> call.Request? && Brings(call, id, s.state))
            && (id in m.sessions && s != m.sessions[id] ==>
                  && m.sessions[id].state in {Requested, Active, Paused} && Brings(call, id, s.state)
                  && s == m.sessions[id].(owner := s.owner, state := s.state))
  {
    if call.Expire? {
      ExpiredAllKeys(m, call.ids, call.now);
      ExpiredAllAt(m, call.ids, call.now, id);
    }
  }

  /** A human move on a session that is not over takes effect. */
  lemma MoveTakesEffect(m: Manager, move: Move, id: TakeoverId, now: nat)
    requires id in m.sessions && m.sessions[id].state in {Requested, Active, Paused}
    ensures var t := After(m, Transition(move, id, now));
            && id in t.sessions && Brings(Transition(move, id, now), id, t.sessions[id].state)
            && t.sessions[id].owner == Human
  {
  }

  lemma StepConsistent(m: Manager, call: Call)
    requires Consistent(m) && Legal(m, call)
    ensures Consistent(After(m, call))
  {
    match call
    case Request(_, _, _, now, id) =>
      var e := AuditEvent(id, Requested, now);
      AppendKeepsTerminal(m.audit, e);
      forall x
        ensures LastState(m.audit + [e], x) == if x == id then Some(Requested) else LastState(m.audit, x)
      {
        LastStateAfter(m.audit, e, x);
      }
    case Transition(move, id, now) => MovedConsistent(m, id, Human, Target(move), now);
    case Expire(now, ids) => ExpiredAllConsistent(m, ids, now);
  }

  /** After any run the audit log replays to the sessions. */
  lemma {:induction false} RunConsistent(m: Manager, calls: seq<Call>)
    requires Consistent(m) && LegalRun(m, calls)
    ensures Consistent(Run(m, calls))
    decreases calls
  {
    if calls == [] {
    } else {
      StepConsistent(m, calls[0]);
      RunConsistent(After(m, calls[0]), calls[1..]);
    }
  }

  /** A terminal event is the only terminal one of its id and its last event. */
  lemma TerminalOncePerId(calls: seq<Call>, i: nat, j: nat)
    requires LegalRun(Manager(map[], []), calls)
    requires var audit := Run(Manager(map[], []), calls).audit;
             && i < |audit| && j < |audit| && audit[i].takeoverId == audit[j].takeoverId
             && Terminal(audit[i].state)
    ensures j <= i
    ensures Terminal(Run(Manager(map[], []), calls).audit[j].state) ==> i == j
  {
    RunConsistent(Manager(map[], []), calls);
  }

  /** After an expiry sweep every session due by then is over. */
  lemma SweepEndsDueSessions(m: Manager, now: nat, ids: seq<TakeoverId>)
    requires Consistent(m) && Legal(m, Expire(now, ids))
    ensures forall id | id in After(m, Expire(now, ids)).sessions &&
                        After(m, Expire(now, ids)).sessions[id].expiresAt <= now ::
              Terminal(After(m, Expire(now, ids)).sessions[id].state)
  {
    ExpiredAllConsistent(m, ids, now);
    forall id | id in m.sessions && m.sessions[id].expiresAt <= now
      ensures Terminal(After(m, Expire(now, ids)).sessions[id].state)
    {
      assert id in ids <==> Due(m, id, now);
    }
  }

  // ---------------------------------------------------------- implementation

  class TakeoverManager {
    var sessions: map<TakeoverId, Session>
    var audit: seq<AuditEvent>

    ghost function View(): Manager
      reads this
    {
      Manager(sessions, audit)
    }

    constructor ()
      ensures View() == Manager(map[], [])
    {
      sessions, audit := map[], [];
    }

    method RequestTakeover(agentId: string, reason: string, timeout: nat, now: nat, id: TakeoverId)
      requires id !in sessions
      modifies this
      ensures View() == After(old(View()), Request(agentId, reason, timeout, now, id))
      ensures sessions == old(sessions)[id := Session(id, agentId, reason, Agent, Requested,
                                                      SatAdd(now, if timeout == 0 then 1 else timeout))]
      ensures audit == old(audit) + [AuditEvent(id, Requested, now)]
    {
      sessions := sessions[id := Session(id, agentId, reason, Agent, Requested, SatAdd(now, Max(timeout, 1)))];
      audit := audit + [AuditEvent(id, Requested, now)];
    }

    method MoveSession(move: Move, id: TakeoverId, now: nat) returns (moved: bool)
      modifies this
      ensures moved == Movable(old(View()), id)
      ensures View() == After(old(View()), Transition(move, id, now))
      ensures moved <==> id in old(sessions) && old(sessions)[id].state !in {Completed, Expired}
      ensures !moved ==> View() == old(View())
      ensures moved ==>
                && id in sessions && sessions[id].owner == Human
                && (move in {Accept, Resume} ==> sessions[id].state == Active)
                && (move == Pause ==> sessions[id].state == Paused)
                && (move == Complete ==> sessions[id].state == Completed)
                && sessions == old(sessions)[id := old(sessions)[id].(owner := Human, state := sessions[id].state)]
                && audit == old(audit) + [AuditEvent(id, sessions[id].state, now)]
    {
      moved := ChangeState(id, Human, Target(move), now);
    }

    method ChangeState(id: TakeoverId, owner: ControlOwner, state: TakeoverState, now: nat) returns (moved: bool)
      modifies this
      ensures moved == Movable(old(View()), id)
      ensures View() == Moved(old(View()), id, owner, state, now)
      ensures moved <==> id in old(sessions) && old(sessions)[id].state !in {Completed, Expired}
      ensures !moved ==> View() == old(View())
      ensures moved ==>
                && sessions == old(sessions)[id := old(sessions)[id].(owner := owner, state := state)]
                && audit == old(audit) + [AuditEvent(id, state, now)]
    {
      if id !in sessions || Terminal(sessions[id].state) {
        return false;
      }
      sessions := sessions[id := sessions[id].(owner := owner, state := state)];
      audit := audit + [AuditEvent(id, state, now)];
      moved := true;
    }

    method ExpireSessions(now: nat) returns (ghost ids: seq<TakeoverId>)
      modifies this
      ensures Legal(old(View()), Expire(now, ids))
      ensures View() == After(old(View()), Expire(now, ids))
      ensures sessions.Keys == old(sessions).Keys
      ensures forall id | id in sessions ::
                sessions[id] == if old(sessions)[id].state in {Requested, Active, Paused}
                                   && old(sessions)[id].expiresAt <= now
                                then old(sessions)[id].(owner := Agent, state := Expired) else old(sessions)[id]
    {
      var due := DueIds(now);
      ids := due;
      for i := 0 to |due|
        invariant View() == ExpiredAll(old(View()), due[..i], now)
      {
        var _ := ChangeState(due[i], Agent, Expired, now);
        assert due[..i + 1][..i] == due[..i];
      }
      assert due[..|due|] == due;
      ExpiredAllKeys(old(View()), due, now);
      forall id | id in old(sessions)
        ensures id in sessions && sessions[id] == SweptSession(old(View()), due, id)
      {
        ExpiredAllAt(old(View()), due, now, id);
      }
    }

    method DueIds(now: nat) returns (ids: seq<TakeoverId>)
      ensures forall id :: id in ids <==> Due(View(), id, now)
    {
      ids := [];
      var pending := set id | id in sessions && !sessions[id].state.Completed? && sessions[id].expiresAt <= now;
      while pending != {}
        invariant forall id :: Due(View(), id, now) <==> id in ids || id in pending
      {
        var id :| id in pending;
        ids := ids + [id];
        pending := pending - {id};
      }
    }
  }
}
