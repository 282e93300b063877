/** Which side of a remote-control session gets which messages, and what they make of the session. */
module RemoteRouting {
  import opened Common
  import opened RemoteSessions
  import opened RemoteRuns

  /** Addressed to the device, or from the admin to neither of the two. */
  predicate ForDevice(m: Message) {
    m.to == Device || (m.to != Admin && m.from == Admin)
  }

  predicate IsOpen(w: World, id: Id) {
    id in w.sessions && w.sessions[id].state != Ended
  }

  /** One more message: the hundredth waiting one is the last that is kept. */
  predicate Delivered(before: Pipe, after: Pipe, m: Message) {
    && after.routed == before.routed + [m] && after.received == before.received
    && if |before.waiting| < 100 then after.waiting == before.waiting + [m] && after.dropped == before.dropped
       else after.waiting == before.waiting && after.dropped == before.dropped + 1
  }

  /** A message for a session that is unknown or has ended changes nothing. */
  lemma SignalIsRefused(w: World, m: Message, now: int)
    requires !IsOpen(w, m.sessionId)
    ensures !Accepts(w, m) && AfterSignal(w, m, now) == w
  {
  }

  /** An accepted message goes to its side and to no other; an offer connects, an answer activates, other kinds keep the state. */
  lemma SignalIsRouted(w: World, m: Message, now: int)
    requires Inv(w) && IsOpen(w, m.sessionId)
    ensures Accepts(w, m) && m.sessionId in w.channels && m.sessionId in AfterSignal(w, m, now).channels
    ensures var c, d := w.channels[m.sessionId], AfterSignal(w, m, now).channels[m.sessionId];
      if ForDevice(m) then Delivered(c.device, d.device, m) && d.admin == c.admin
      else Delivered(c.admin, d.admin, m) && d.device == c.device
    ensures var s, t := w.sessions[m.sessionId], AfterSignal(w, m, now).sessions[m.sessionId];
      && t.state == (if m.kind == Offer then Connecting else if m.kind == Answer then Active else s.state)
      && t.quality == (if m.kind.QualityChange? && m.kind.quality.Some? then m.kind.quality.value else s.quality)
      && t.lastActivity == now && t.endedAt == s.endedAt && t.createdAt == s.createdAt
      && t.orgId == s.orgId && t.deviceId == s.deviceId && t.userId == s.userId
    ensures forall id :: id != m.sessionId ==>
      && (id in w.sessions <==> id in AfterSignal(w, m, now).sessions) && (id in w.channels <==> id in AfterSignal(w, m, now).channels)
      && (id in w.sessions ==> AfterSignal(w, m, now).sessions[id] == w.sessions[id])
      && (id in w.channels ==> AfterSignal(w, m, now).channels[id] == w.channels[id])
    ensures AfterSignal(w, m, now).closed == w.closed
  {
  }

  // ----- Runs -----

  /** The channel of a session, open or closed; None before the session. */
  function ChannelOf(w: World, id: Id): Channel {
    if id in w.channels then w.channels[id] else if id in w.closed then w.closed[id] else Channel(NEW_PIPE, NEW_PIPE)
  }

  /** What an event adds to the device's side of a session: an accepted message of it that is for the device. */
  function DeviceMail(w: World, e: Event, id: Id): seq<Message> {
    if e.Signal? && e.message.sessionId == id && IsOpen(w, id) && ForDevice(e.message) then [e.message] else []
  }

  /** To the admin's side go the other accepted messages, and one bye when the session ends or is cleaned up. */
  function AdminMail(w: World, e: Event, id: Id): seq<Message> {
    if !IsOpen(w, id) then []
    else if e.Signal? && e.message.sessionId == id && !ForDevice(e.message) then [e.message]
    else if (e.End? && e.id == id) || (e.Cleanup? && id in e.ids) then [Message(id, Bye, Server, Unnamed, "")]
    else []
  }

  ghost function AllDeviceMail(w: World, events: seq<Event>, id: Id): seq<Message>
    decreases |events|
  {
    if events == [] then [] else DeviceMail(w, events[0], id) + AllDeviceMail(Next(w, events[0]), events[1..], id)
  }

  ghost function AllAdminMail(w: World, events: seq<Event>, id: Id): seq<Message>
    decreases |events|
  {
    if events == [] then [] else AdminMail(w, events[0], id) + AllAdminMail(Next(w, events[0]), events[1..], id)
  }

  /** What the sides of a session were sent between two states. */
  predicate Sent(w: World, t: World, id: Id, device: seq<Message>, admin: seq<Message>) {
    && ChannelOf(t, id).device.routed == ChannelOf(w, id).device.routed + device
    && ChannelOf(t, id).admin.routed == ChannelOf(w, id).admin.routed + admin
  }

  lemma SentThen(w: World, t: World, u: World, id: Id, device: seq<Message>, admin: seq<Message>, device': seq<Message>, admin': seq<Message>)
    requires Sent(w, t, id, device, admin) && Sent(t, u, id, device', admin')
    ensures Sent(w, u, id, device + device', admin + admin')
  {
  }

  function ByeIf(holds: bool, id: Id): seq<Message> {
    if holds then [Message(id, Bye, Server, Unnamed, "")] else []
  }

  lemma EndSends(w: World, last: Id, now: int, id: Id)
    requires ChannelsMatch(w)
    ensures Sent(w, AfterEnd(w, last, now), id, [], ByeIf(last == id && IsOpen(w, id), id))
  {
    var c := ChannelOf(w, id);
    assert c.device.routed + [] == c.device.routed && c.admin.routed + [] == c.admin.routed;
  }

  lemma {:induction false} EndsSend(w: World, ids: seq<Id>, now: int, id: Id)
    requires Inv(w) && forall i :: i in ids ==> i in w.sessions
    requires forall i, j :: 0 <= i < j < |ids| ==> ids[i] != ids[j]
    ensures Sent(w, AfterEnds(w, ids, now), id, [], ByeIf(id in ids && IsOpen(w, id), id))
  {
    if ids == [] {
      assert Sent(w, w, id, [], []);
    } else {
      var front, last := ids[..|ids| - 1], ids[|ids| - 1];
      assert ids == front + [last] && last !in front;
      EndsSend(w, front, now, id);
      EndsKeepInv(w, front, now);
      OneMoreEnds(w, AfterEnds(w, front, now), front, last, now, id);
    }
  }

  lemma OneMoreEnds(w: World, t: World, front: seq<Id>, last: Id, now: int, id: Id)
    requires ChannelsMatch(t) && t.sessions == AllEnded(w.sessions, front, now) && last in w.sessions && last !in front
    requires Sent(w, t, id, [], ByeIf(id in front && IsOpen(w, id), id))
    ensures Sent(w, AfterEnd(t, last, now), id, [], ByeIf(id in front + [last] && IsOpen(w, id), id))
  {
    EndSends(t, last, now, id);
    SentThen(w, t, AfterEnd(t, last, now), id, [], ByeIf(id in front && IsOpen(w, id), id), [], ByeIf(last == id && IsOpen(t, id), id));
    assert last == id ==> IsOpen(t, id) == IsOpen(w, id);
  }

  lemma CleanupSends(w: World, ids: seq<Id>, ttl: int, now: int, later: int, id: Id)
    requires Inv(w) && ListsExpired(w.sessions, now - ttl, ids)
    ensures Sent(w, AfterCleanup(w, ids, ttl, now, later), id, [], ByeIf(id in ids && IsOpen(w, id), id))
  {
    EndsSend(w, ids, now, id);
  }

  lemma SignalSends(w: World, m: Message, now: int, id: Id)
    requires Inv(w)
    ensures Sent(w, AfterSignal(w, m, now), id, DeviceMail(w, Signal(m, now), id), AdminMail(w, Signal(m, now), id))
  {
    var c := ChannelOf(w, id);
    assert c.device.routed + [] == c.device.routed && c.admin.routed + [] == c.admin.routed;
    if IsOpen(w, m.sessionId) {
      SignalIsRouted(w, m, now);
    } else {
      SignalIsRefused(w, m, now);
    }
  }

  lemma NothingSent(w: World, e: Event, id: Id)
    requires ChannelsMatch(w) && Allowed(w, e) && (e.Create? || e.Receive?)
    ensures Sent(w, Next(w, e), id, [], [])
  {
    var c := ChannelOf(w, id);
    assert c.device.routed + [] == c.device.routed && c.admin.routed + [] == c.admin.routed;
  }

  lemma EventSends(w: World, e: Event, id: Id)
    requires Inv(w) && Allowed(w, e)
    ensures Sent(w, Next(w, e), id, DeviceMail(w, e, id), AdminMail(w, e, id))
  {
    match e
    case Create(_, _, _, _, _) => NothingSent(w, e, id);
    case Signal(m, now) => SignalSends(w, m, now, id);
    case End(last, now) => EndSends(w, last, now, id);
    case Cleanup(ids, ttl, now, later) => CleanupSends(w, ids, ttl, now, later, id);
    case Receive(_, _) => NothingSent(w, e, id);
  }

  /** In every run each side of a session gets exactly its own messages, each once and in order, whatever else happens. */
  lemma {:induction false} SidesGetTheirMail(w: World, events: seq<Event>, id: Id)
    requires Inv(w) && IsRun(w, events)
    ensures Sent(w, After(w, events), id, AllDeviceMail(w, events, id), AllAdminMail(w, events, id))
    decreases |events|
  {
    if events == [] {
      assert Sent(w, w, id, [], []);
    } else {
      var e, next := events[0], Next(w, events[0]);
      NextKeepsInv(w, e);
      EventSends(w, e, id);
      SidesGetTheirMail(next, events[1..], id);
      SentThen(w, next, After(w, events), id, DeviceMail(w, e, id), AdminMail(w, e, id),
               AllDeviceMail(next, events[1..], id), AllAdminMail(next, events[1..], id));
    }
  }

  lemma MailFromEmpty(events: seq<Event>, id: Id)
    requires IsRun(EMPTY, events)
    ensures ChannelOf(After(EMPTY, events), id).device.routed == AllDeviceMail(EMPTY, events, id)
    ensures ChannelOf(After(EMPTY, events), id).admin.routed == AllAdminMail(EMPTY, events, id)
  {
    SidesGetTheirMail(EMPTY, events, id);
  }

  // ----- Sessions -----

  /** A session is created unless the device has one that has not ended; it starts unconnected, with an empty channel. */
  lemma SessionIsCreated(w: World, id: Id, orgId: Id, deviceId: Id, userId: Id, now: int)
    ensures var t := Opened(w, id, orgId, deviceId, userId, now);
      if exists i :: i in w.sessions && w.sessions[i].deviceId == deviceId && w.sessions[i].state != Ended then t == w
      else
        && t.sessions == w.sessions[id := Session(orgId, deviceId, userId, Created, "medium", now, now, None)]
        && t.channels == w.channels[id := Channel(Pipe([], [], [], 0), Pipe([], [], [], 0))]
        && t.used == w.used + {id} && t.closed == w.closed && t.closings == w.closings
  {
  }

  /** A session that is ended is marked at that time; ending an unknown one changes nothing. */
  lemma SessionIsEnded(w: World, id: Id, now: int)
    ensures id !in w.sessions ==> AfterEnd(w, id, now) == w
    ensures id in w.sessions ==>
      && AfterEnd(w, id, now).sessions == w.sessions[id := w.sessions[id].(state := Ended, lastActivity := now, endedAt := Some(now))]
      && AfterEnd(w, id, now).channels == w.channels - {id}
  {
  }

  /**
   A cleanup ends the sessions without activity for the time to live; it removes the records without activity for twice
   that time, and those of ended sessions created before that.
   */
  lemma CleanupSettles(w: World, ids: seq<Id>, ttl: int, now: int, later: int, id: Id)
    requires Inv(w) && ListsExpired(w.sessions, now - ttl, ids) && id in w.sessions
    ensures var s, t := w.sessions[id], AfterCleanup(w, ids, ttl, now, later).sessions;
      var ends := s.state != Ended && now - s.lastActivity > ttl;
      var activity := if ends then now else s.lastActivity;
      && (id in t <==> later - activity <= 2 * ttl && !((ends || s.state == Ended) && later - s.createdAt > 2 * ttl))
      && (id in t ==> t[id] == if ends then s.(state := Ended, lastActivity := now, endedAt := Some(now)) else s)
  {
    EndsKeepInv(w, ids, now);
    assert id in ids <==> IsExpired(w.sessions[id], now - ttl);
  }
}
