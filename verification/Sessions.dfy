/** The in-memory session store. */
module Sessions {
  import opened Wrappers
  import opened Clock

  datatype Session = Session(
    id: string,
    userId: Option<int>,
    data: map<string, string>,
    createdAt: Time,
    accessedAt: Time,
    expiresAt: Time
  ) {
    predicate IsValid(now: Time) {
      now < expiresAt
    }
  }

  type SessionMap = map<string, Session>

  /** What looking up a session answers: an expired one is not found. */
  function Visible(sessions: SessionMap, id: string, now: Time): Option<Session> {
    if id in sessions && sessions[id].IsValid(now) then Some(sessions[id]) else None
  }

  function OfUser(sessions: SessionMap, userId: int): set<string> {
    set id | id in sessions && sessions[id].userId == Some(userId)
  }

  function Expired(sessions: SessionMap, now: Time): set<string> {
    set id | id in sessions && sessions[id].expiresAt < now
  }

  datatype Change =
    | SetSession(session: Session)
    | DeleteSession(id: string)
    | DeleteUser(userId: int)
    | Cleanup

  /** The store after one change. */
  function Changed(sessions: SessionMap, change: Change, now: Time): SessionMap {
    match change
    case SetSession(session) => sessions[session.id := session]
    case DeleteSession(id) => sessions - {id}
    case DeleteUser(userId) => sessions - OfUser(sessions, userId)
    case Cleanup => sessions - Expired(sessions, now)
  }

  class MemorySessionStore {
    var sessions: SessionMap

    constructor ()
      ensures sessions == map[]
    {
      sessions := map[];
    }

    method Get(id: string, now: Time) returns (session: Option<Session>)
      ensures session == Visible(sessions, id, now)
    {
      if id in sessions && sessions[id].IsValid(now) {
        return Some(sessions[id]);
      }
      return None;
    }

    method Set(session: Session)
      modifies this
      ensures forall now :: sessions == Changed(old(sessions), SetSession(session), now)
    {
      sessions := sessions[session.id := session];
    }

    method Delete(id: string)
      modifies this
      ensures forall now :: sessions == Changed(old(sessions), DeleteSession(id), now)
    {
      sessions := sessions - {id};
    }

    method DeleteUserSessions(userId: int) returns (count: nat)
      modifies this
      ensures forall now :: sessions == Changed(old(sessions), DeleteUser(userId), now)
      ensures count == |OfUser(old(sessions), userId)|
    {
      count := RemoveAll(OfUser(sessions, userId));
    }

    method CleanupExpired(now: Time) returns (count: nat)
      modifies this
      ensures sessions == Changed(old(sessions), Cleanup, now)
      ensures count == |Expired(old(sessions), now)|
    {
      count := RemoveAll(Expired(sessions, now));
    }

    method RemoveAll(ids: set<string>) returns (count: nat)
      modifies this
      ensures sessions == old(sessions) - ids && count == |ids|
    {
      count := |ids|;
      var rest := ids;
      while rest != {}
        invariant rest <= ids && sessions == old(sessions) - (ids - rest)
      {
        var id :| id in rest;
        sessions := sessions - {id};
        rest := rest - {id};
      }
      assert ids - rest == ids;
    }
  }

  // ---------- cleaning up is invisible ----------

  /** The answers and the changes of the store in terms of the sessions' fields. A session is found until the moment it
      expires; deleting a user's sessions takes away exactly those of that user; cleaning up exactly those past their
      moment; and each leaves the others as they are. */
  lemma StoreMeans(sessions: SessionMap, id: string, userId: int, session: Session, now: Time)
    ensures Visible(sessions, id, now)
            == if id in sessions && now < sessions[id].expiresAt then Some(sessions[id]) else None
    ensures Changed(sessions, SetSession(session), now) == sessions[session.id := session]
    ensures Changed(sessions, DeleteSession(id), now) == sessions - {id}
    ensures var left := Changed(sessions, DeleteUser(userId), now);
            && (id in left <==> id in sessions && sessions[id].userId != Some(userId))
            && (id in left ==> left[id] == sessions[id])
    ensures var left := Changed(sessions, Cleanup, now);
            && (id in left <==> id in sessions && now <= sessions[id].expiresAt)
            && (id in left ==> left[id] == sessions[id])
    ensures OfUser(sessions, userId) == set k | k in sessions && sessions[k].userId == Some(userId)
    ensures Expired(sessions, now) == set k | k in sessions && sessions[k].expiresAt < now
  {
  }

  /** The store after a list of changes, each at its time. */
  function AfterAll(sessions: SessionMap, changes: seq<(Change, Time)>): SessionMap {
    if changes == [] then sessions
    else
      var last := changes[|changes| - 1];
      Changed(AfterAll(sessions, changes[..|changes| - 1]), last.0, last.1)
  }

  function WithoutCleanups(changes: seq<(Change, Time)>): seq<(Change, Time)> {
    if changes == [] then []
    else
      var last := changes[|changes| - 1];
      WithoutCleanups(changes[..|changes| - 1]) + if last.0.Cleanup? then [] else [last]
  }

  ghost predicate AllBy(changes: seq<(Change, Time)>, now: Time) {
    forall i :: 0 <= i < |changes| ==> changes[i].1 <= now
  }

  /** However often and whenever expired sessions are cleaned up in between, every lookup at or after the
      last of those moments answers as if that had never been done. */
  lemma {:induction false} CleanupIsInvisible(sessions: SessionMap, changes: seq<(Change, Time)>, id: string, now: Time)
    requires AllBy(changes, now)
    ensures Visible(AfterAll(sessions, changes), id, now)
            == Visible(AfterAll(sessions, WithoutCleanups(changes)), id, now)
    decreases |changes|
  {
    if changes != [] {
      var front, last := changes[..|changes| - 1], changes[|changes| - 1];
      CleanupIsInvisible(sessions, front, id, now);
      if !last.0.Cleanup? {
        var kept := WithoutCleanups(front) + [last];
        assert kept[..|kept| - 1] == WithoutCleanups(front);
        SameChange(AfterAll(sessions, front), AfterAll(sessions, WithoutCleanups(front)), last.0, last.1, id, now);
      } else {
        assert WithoutCleanups(changes) == WithoutCleanups(front);
      }
    }
  }

  /** A change other than a cleanup does not tell apart stores that agree on a session. */
  lemma SameChange(a: SessionMap, b: SessionMap, change: Change, at: Time, id: string, now: Time)
    requires Visible(a, id, now) == Visible(b, id, now) && !change.Cleanup?
    ensures Visible(Changed(a, change, at), id, now) == Visible(Changed(b, change, at), id, now)
  {
  }
}
