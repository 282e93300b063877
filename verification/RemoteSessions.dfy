/** Remote-control sessions and the signalling channels that belong to them, with each handler method atomic. */
module RemoteSessions {
  import opened Common

  /** Identifiers are compared, never looked into. */
  type Id = nat

  datatype SessionState = Created | Connecting | Active | Ended

  datatype Session = Session(orgId: Id, deviceId: Id, userId: Id, state: SessionState, quality: string,
                             createdAt: int, lastActivity: int, endedAt: Option<int>)

  /** The quality a change asks for is None where its payload cannot be parsed. */
  datatype MessageType = Offer | Answer | Candidate | Bye | QualityChange(quality: Option<string>) | OtherType

  datatype Party = Admin | Device | Server | Unnamed

  datatype Message = Message(sessionId: Id, kind: MessageType, from: Party, to: Party, payload: string)

  const CAPACITY: nat := 100

  /** One direction of a channel: what was routed into it, what its reader took, what waits, and how many were dropped. */
  datatype Pipe = Pipe(routed: seq<Message>, received: seq<Message>, waiting: seq<Message>, dropped: nat)

  const NEW_PIPE := Pipe([], [], [], 0)

  datatype Channel = Channel(admin: Pipe, device: Pipe)

  /** `closings` counts every close; closed channels can still be read out; `used` are all ids ever given. */
  datatype World = World(sessions: map<Id, Session>, channels: map<Id, Channel>, closed: map<Id, Channel>, closings: multiset<Id>, used: set<Id>)

  const EMPTY := World(map[], map[], map[], multiset{}, {})

  // ----- Channels -----

  /** A send that would block is dropped. */
  function Pushed(p: Pipe, m: Message): Pipe {
    if |p.waiting| < CAPACITY then p.(routed := p.routed + [m], waiting := p.waiting + [m])
    else p.(routed := p.routed + [m], dropped := p.dropped + 1)
  }

  function Taken(p: Pipe): Pipe {
    if p.waiting == [] then p else p.(received := p.received + [p.waiting[0]], waiting := p.waiting[1..])
  }

  /** The addressee decides; without one, what does not come from the admin goes to the admin. */
  predicate ToDevice(m: Message) {
    m.to.Device? || (!m.to.Admin? && m.from.Admin?)
  }

  function Routed(w: World, m: Message): World {
    if m.sessionId !in w.channels then w
    else
      var c := w.channels[m.sessionId];
      w.(channels := w.channels[m.sessionId := if ToDevice(m) then c.(device := Pushed(c.device, m)) else c.(admin := Pushed(c.admin, m))])
  }

  function Closed(w: World, id: Id): World {
    if id !in w.channels then w
    else w.(channels := w.channels - {id}, closed := w.closed[id := w.channels[id]], closings := w.closings + multiset{id})
  }

  /** A reader takes the next message, from an open or a closed channel. */
  function Read(w: World, id: Id, device: bool): World {
    if id in w.channels then
      var c := w.channels[id];
      w.(channels := w.channels[id := if device then c.(device := Taken(c.device)) else c.(admin := Taken(c.admin))])
    else if id in w.closed then
      var c := w.closed[id];
      w.(closed := w.closed[id := if device then c.(device := Taken(c.device)) else c.(admin := Taken(c.admin))])
    else w
  }

  // ----- Sessions -----

  predicate IsLive(s: Session) {
    !s.state.Ended?
  }

  predicate HasActive(sessions: map<Id, Session>, deviceId: Id) {
    exists id :: id in sessions && sessions[id].deviceId == deviceId && IsLive(sessions[id])
  }

  function WithState(s: Session, state: SessionState, now: int): Session {
    s.(state := state, lastActivity := now, endedAt := if state.Ended? then Some(now) else s.endedAt)
  }

  function Opened(w: World, id: Id, orgId: Id, deviceId: Id, userId: Id, now: int): World {
    if HasActive(w.sessions, deviceId) then w
    else
      w.(sessions := w.sessions[id := Session(orgId, deviceId, userId, Created, "medium", now, now, None)],
         channels := w.channels[id := Channel(NEW_PIPE, NEW_PIPE)], used := w.used + {id})
  }

  function Signalled(s: Session, kind: MessageType, now: int): Session {
    match kind
    case Offer => WithState(s, Connecting, now)
    case Answer => WithState(s, Active, now)
    case QualityChange(Some(q)) => s.(quality := q, lastActivity := now)
    case _ => s.(lastActivity := now)
  }

  predicate Accepts(w: World, m: Message) {
    m.sessionId in w.sessions && IsLive(w.sessions[m.sessionId])
  }

  function AfterSignal(w: World, m: Message, now: int): World {
    if !Accepts(w, m) then w
    else Routed(w.(sessions := w.sessions[m.sessionId := Signalled(w.sessions[m.sessionId], m.kind, now)]), m)
  }

  function ByeMessage(id: Id): Message {
    Message(id, Bye, Server, Unnamed, "")
  }

  function AfterEnd(w: World, id: Id, now: int): World {
    if id !in w.sessions then w
    else Closed(Routed(w.(sessions := w.sessions[id := WithState(w.sessions[id], Ended, now)]), ByeMessage(id)), id)
  }

  function AfterEnds(w: World, ids: seq<Id>, now: int): World {
    if ids == [] then w else AfterEnd(AfterEnds(w, ids[..|ids| - 1], now), ids[|ids| - 1], now)
  }

  predicate IsExpired(s: Session, cutoff: int) {
    IsLive(s) && s.lastActivity < cutoff
  }

  predicate IsStale(s: Session, cutoff: int) {
    s.lastActivity < cutoff || (s.state.Ended? && s.createdAt < cutoff)
  }

  function WithoutStale(sessions: map<Id, Session>, cutoff: int): map<Id, Session> {
    map id | id in sessions && !IsStale(sessions[id], cutoff) :: sessions[id]
  }

  ghost predicate ListsExpired(sessions: map<Id, Session>, cutoff: int, ids: seq<Id>) {
    (forall id :: id in ids <==> id in sessions && IsExpired(sessions[id], cutoff))
    && forall i, j :: 0 <= i < j < |ids| ==> ids[i] != ids[j]
  }

  /** Expired sessions are ended at one clock reading, old records removed at a second one. */
  function AfterCleanup(w: World, ids: seq<Id>, ttl: int, now: int, later: int): World {
    var ended := AfterEnds(w, ids, now);
    ended.(sessions := WithoutStale(ended.sessions, later - 2 * ttl))
  }

  // ----- The handler -----

  class Handler {
    var sessions: map<Id, Session>
    var channels: map<Id, Channel>
    var closed: map<Id, Channel>
    ghost var closings: multiset<Id>
    ghost var used: set<Id>

    ghost function Contents(): World
      reads this
    {
      World(sessions, channels, closed, closings, used)
    }

    constructor ()
      ensures Contents() == EMPTY
    {
      sessions, channels, closed := map[], map[], map[];
      closings, used := multiset{}, {};
    }

    method HasActiveSession(deviceId: Id) returns (found: bool)
      ensures found == HasActive(sessions, deviceId)
    {
      var left := sessions.Keys;
      while left != {}
        invariant left <= sessions.Keys
        invariant forall id :: id in sessions && id !in left ==> !(sessions[id].deviceId == deviceId && IsLive(sessions[id]))
      {
        var id :| id in left;
        left := left - {id};
        if sessions[id].deviceId == deviceId && IsLive(sessions[id]) {
          return true;
        }
      }
      return false;
    }

    method CreateSession(id: Id, orgId: Id, deviceId: Id, userId: Id, now: int) returns (done: bool)
      modifies this
      ensures done == !HasActive(old(sessions), deviceId)
      ensures Contents() == Opened(old(Contents()), id, orgId, deviceId, userId, now)
    {
      var busy := HasActiveSession(deviceId);
      if busy {
        return false;
      }
      sessions := sessions[id := Session(orgId, deviceId, userId, Created, "medium", now, now, None)];
      used := used + {id};
      channels := channels[id := Channel(NEW_PIPE, NEW_PIPE)];
      return true;
    }

    method RouteMessage(m: Message)
      modifies this`channels
      ensures Contents() == Routed(old(Contents()), m)
    {
      if m.sessionId !in channels {
        return;
      }
      var c := channels[m.sessionId];
      if m.to.Device? || (!m.to.Admin? && m.from.Admin?) {
        channels := channels[m.sessionId := c.(device := Pushed(c.device, m))];
      } else {
        channels := channels[m.sessionId := c.(admin := Pushed(c.admin, m))];
      }
    }

    method HandleSignaling(m: Message, now: int) returns (accepted: bool)
      modifies this
      ensures accepted == Accepts(old(Contents()), m)
      ensures Contents() == AfterSignal(old(Contents()), m, now)
    {
      if m.sessionId !in sessions || sessions[m.sessionId].state.Ended? {
        return false;
      }
      var s := sessions[m.sessionId];
      match m.kind {
        case Offer => s := WithState(s, Connecting, now);
        case Answer => s := WithState(s, Active, now);
        case QualityChange(Some(q)) => s := s.(quality := q);
        case _ =>
      }
      sessions := sessions[m.sessionId := s.(lastActivity := now)];
      RouteMessage(m);
      return true;
    }

    method EndSession(id: Id, now: int) returns (done: bool)
      modifies this
      ensures done == (id in old(sessions))
      ensures Contents() == AfterEnd(old(Contents()), id, now)
    {
      if id !in sessions {
        return false;
      }
      sessions := sessions[id := WithState(sessions[id], Ended, now)];
      RouteMessage(ByeMessage(id));
      CloseChannel(id);
      return true;
    }

    method CloseChannel(id: Id)
      modifies this
      ensures Contents() == Closed(old(Contents()), id)
    {
      if id in channels {
        closed := closed[id := channels[id]];
        channels := channels - {id};
        closings := closings + multiset{id};
      }
    }

    /** The expired sessions, in whatever order the map yields them. */
    method GetExpiredActive(cutoff: int) returns (ids: seq<Id>)
      ensures ListsExpired(sessions, cutoff, ids)
    {
      ids := [];
      var left := sessions.Keys;
      while left != {}
        invariant left <= sessions.Keys
        invariant forall id :: id in ids <==> id in sessions && id !in left && IsExpired(sessions[id], cutoff)
        invariant forall i, j :: 0 <= i < j < |ids| ==> ids[i] != ids[j]
      {
        var id :| id in left;
        left := left - {id};
        if IsLive(sessions[id]) && sessions[id].lastActivity < cutoff {
          ids := ids + [id];
        }
      }
    }

    method CleanupExpired(cutoff: int) returns (count: nat)
      modifies this`sessions
      ensures sessions == WithoutStale(old(sessions), cutoff)
      ensures count == |old(sessions)| - |sessions|
    {
      count := 0;
      var left := sessions.Keys;
      while left != {}
        invariant left <= sessions.Keys <= old(sessions).Keys
        invariant forall id :: id in sessions ==> sessions[id] == old(sessions)[id]
        invariant forall id :: id in old(sessions) && id !in left ==> (id in sessions <==> !IsStale(old(sessions)[id], cutoff))
        invariant count == |old(sessions)| - |sessions|
      {
        var id :| id in left;
        left := left - {id};
        if IsStale(sessions[id], cutoff) {
          ghost var before := sessions;
          sessions := sessions - {id};
          OneLess(before, id);
          count := count + 1;
        }
      }
    }

    method CleanupExpiredSessions(ttl: int, now: int, later: int) returns (ghost ids: seq<Id>, count: nat)
      modifies this
      ensures ListsExpired(old(sessions), now - ttl, ids)
      ensures Contents() == AfterCleanup(old(Contents()), ids, ttl, now, later)
    {
      var expiredIds := GetExpiredActive(now - ttl);
      ids := expiredIds;
      EndSessions(expiredIds, now);
      count := CleanupExpired(later - 2 * ttl);
    }

    method EndSessions(ids: seq<Id>, now: int)
      modifies this
      ensures Contents() == AfterEnds(old(Contents()), ids, now)
    {
      for i := 0 to |ids|
        invariant Contents() == AfterEnds(old(Contents()), ids[..i], now)
      {
        assert ids[..i + 1][..i] == ids[..i];
        var _ := EndSession(ids[i], now);
      }
      assert ids[..|ids|] == ids;
    }
  }

  lemma OneLess(sessions: map<Id, Session>, id: Id)
    requires id in sessions
    ensures |sessions - {id}| == |sessions| - 1
  {
    assert (sessions - {id}).Keys == sessions.Keys - {id};
    assert |sessions.Keys| == |sessions| && |(sessions - {id}).Keys| == |sessions - {id}|;
  }
}
