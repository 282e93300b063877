/** What holds of remote-control sessions and their channels over every sequence of handler calls and reads. */
module RemoteRuns {
  import opened RemoteSessions

  datatype Event =
    | Create(id: Id, orgId: Id, deviceId: Id, userId: Id, now: int)
    | Signal(message: Message, now: int)
    | End(id: Id, now: int)
    | Cleanup(ids: seq<Id>, ttl: int, now: int, later: int)
    | Receive(id: Id, device: bool)

  /** Session ids are new; a cleanup takes no longer than the time to live it is given. */
  ghost predicate Allowed(w: World, e: Event) {
    match e
    case Create(id, _, _, _, _) => id !in w.used
    case Cleanup(ids, ttl, now, later) => ListsExpired(w.sessions, now - ttl, ids) && later <= now + ttl
    case _ => true
  }

  function Next(w: World, e: Event): World {
    match e
    case Create(id, orgId, deviceId, userId, now) => Opened(w, id, orgId, deviceId, userId, now)
    case Signal(m, now) => AfterSignal(w, m, now)
    case End(id, now) => AfterEnd(w, id, now)
    case Cleanup(ids, ttl, now, later) => AfterCleanup(w, ids, ttl, now, later)
    case Receive(id, device) => Read(w, id, device)
  }

  ghost predicate IsRun(w: World, events: seq<Event>)
    decreases |events|
  {
    events == [] || (Allowed(w, events[0]) && IsRun(Next(w, events[0]), events[1..]))
  }

  ghost function After(w: World, events: seq<Event>): World
    decreases |events|
  {
    if events == [] then w else After(Next(w, events[0]), events[1..])
  }

  // ----- The invariant -----

  ghost predicate OneLivePerDevice(sessions: map<Id, Session>) {
    forall i, j :: i in sessions && j in sessions && BothLive(sessions[i], sessions[j]) ==> i == j
  }

  /** Both are live sessions of one device. */
  predicate BothLive(s: Session, t: Session) {
    IsLive(s) && IsLive(t) && s.deviceId == t.deviceId
  }

  /** Channels exist for exactly the live sessions, and every other id ever used was closed exactly once. */
  ghost predicate ChannelsMatch(w: World) {
    && (forall id :: id in w.channels <==> id in w.sessions && IsLive(w.sessions[id]))
    && (forall id :: id in w.sessions ==> id in w.used)
    && (forall id :: w.closings[id] == if id in w.used && id !in w.channels then 1 else 0)
    && (forall id :: id in w.closed <==> id in w.used && id !in w.channels)
  }

  /** s can be had from t by leaving out messages, the order kept. */
  predicate IsSubsequence(s: seq<Message>, t: seq<Message>) {
    s == [] || (t != []
      && ((s[|s| - 1] == t[|t| - 1] && IsSubsequence(s[..|s| - 1], t[..|t| - 1])) || IsSubsequence(s, t[..|t| - 1])))
  }

  ghost predicate PipeInv(p: Pipe) {
    && |p.waiting| <= CAPACITY
    && IsSubsequence(p.received + p.waiting, p.routed)
    && |p.routed| == |p.received| + |p.waiting| + p.dropped
  }

  ghost predicate ChannelInv(c: Channel) {
    PipeInv(c.admin) && PipeInv(c.device)
  }

  ghost predicate PipesInv(channels: map<Id, Channel>) {
    forall id :: id in channels ==> ChannelInv(channels[id])
  }

  ghost predicate Inv(w: World) {
    OneLivePerDevice(w.sessions) && ChannelsMatch(w) && PipesInv(w.channels) && PipesInv(w.closed)
  }

  // ----- Pipes -----

  lemma SubsequenceGrows(s: seq<Message>, t: seq<Message>, m: Message)
    requires IsSubsequence(s, t)
    ensures IsSubsequence(s, t + [m]) && IsSubsequence(s + [m], t + [m])
  {
    assert (t + [m])[..|t|] == t && (s + [m])[..|s|] == s;
  }

  lemma PushedKeepsInv(p: Pipe, m: Message)
    requires PipeInv(p)
    ensures PipeInv(Pushed(p, m))
  {
    SubsequenceGrows(p.received + p.waiting, p.routed, m);
    assert p.received + p.waiting + [m] == p.received + (p.waiting + [m]);
  }

  lemma TakenKeepsInv(p: Pipe)
    requires PipeInv(p)
    ensures PipeInv(Taken(p))
  {
    if p.waiting != [] {
      assert p.received + [p.waiting[0]] + p.waiting[1..] == p.received + p.waiting;
    }
  }

  /** A subsequence as long as the whole is the whole: where nothing was dropped, everything routed arrives, in order. */
  lemma {:induction false} FullSubsequence(s: seq<Message>, t: seq<Message>)
    requires IsSubsequence(s, t)
    ensures |s| <= |t| && (|s| == |t| ==> s == t)
  {
    if s != [] {
      var front := t[..|t| - 1];
      if IsSubsequence(s, front) {
        FullSubsequence(s, front);
      } else {
        FullSubsequence(s[..|s| - 1], front);
        assert s == s[..|s| - 1] + [s[|s| - 1]] && t == front + [t[|t| - 1]];
      }
    }
  }

  lemma NothingDroppedMeansAll(p: Pipe)
    requires PipeInv(p) && p.dropped == 0
    ensures p.received + p.waiting == p.routed
  {
    FullSubsequence(p.received + p.waiting, p.routed);
  }

  // ----- Steps -----

  lemma PipesUpdate(channels: map<Id, Channel>, id: Id, c: Channel)
    requires PipesInv(channels) && ChannelInv(c)
    ensures PipesInv(channels[id := c])
  {
  }

  lemma MatchChannelUpdate(w: World, id: Id, c: Channel)
    requires ChannelsMatch(w) && id in w.channels
    ensures ChannelsMatch(w.(channels := w.channels[id := c]))
  {
  }

  lemma RoutedKeepsInv(w: World, m: Message)
    requires Inv(w)
    ensures Inv(Routed(w, m))
  {
    if m.sessionId in w.channels {
      var c := w.channels[m.sessionId];
      PushedToOneSide(c, m);
      var d := if ToDevice(m) then c.(device := Pushed(c.device, m)) else c.(admin := Pushed(c.admin, m));
      PipesUpdate(w.channels, m.sessionId, d);
      MatchChannelUpdate(w, m.sessionId, d);
    }
  }

  lemma PushedToOneSide(c: Channel, m: Message)
    requires ChannelInv(c)
    ensures ChannelInv(c.(device := Pushed(c.device, m))) && ChannelInv(c.(admin := Pushed(c.admin, m)))
  {
    PushedKeepsInv(c.device, m);
    PushedKeepsInv(c.admin, m);
  }

  lemma TakenFromOneSide(c: Channel)
    requires ChannelInv(c)
    ensures ChannelInv(c.(device := Taken(c.device))) && ChannelInv(c.(admin := Taken(c.admin)))
  {
    TakenKeepsInv(c.device);
    TakenKeepsInv(c.admin);
  }

  /** A session that does not come to life leaves at most one live per device. */
  lemma OneLiveUpdate(sessions: map<Id, Session>, id: Id, s: Session)
    requires OneLivePerDevice(sessions) && id in sessions
    requires IsLive(s) ==> IsLive(sessions[id]) && s.deviceId == sessions[id].deviceId
    ensures OneLivePerDevice(sessions[id := s])
  {
    var t := sessions[id := s];
    forall i, j | i in t && j in t && BothLive(t[i], t[j])
      ensures i == j
    {
      assert BothLive(sessions[i], sessions[j]);
    }
  }

  lemma MatchSessionUpdate(w: World, id: Id, s: Session)
    requires ChannelsMatch(w) && id in w.sessions && IsLive(w.sessions[id]) == IsLive(s)
    ensures ChannelsMatch(w.(sessions := w.sessions[id := s]))
  {
  }

  /** Marking a session ended and closing its channel, if it has one. */
  lemma CloseEndedKeepsInv(w: World, id: Id, s: Session)
    requires Inv(w) && id in w.sessions && s.state.Ended?
    ensures Inv(Closed(w.(sessions := w.sessions[id := s]), id))
  {
    OneLiveUpdate(w.sessions, id, s);
    ClosedMatches(w, id, s);
    if id in w.channels {
      PipesUpdate(w.closed, id, w.channels[id]);
      PipesFewer(w.channels, id);
    }
  }

  lemma PipesFewer(channels: map<Id, Channel>, id: Id)
    requires PipesInv(channels)
    ensures PipesInv(channels - {id})
  {
  }

  lemma ClosedMatches(w: World, id: Id, s: Session)
    requires ChannelsMatch(w) && id in w.sessions && s.state.Ended?
    ensures ChannelsMatch(Closed(w.(sessions := w.sessions[id := s]), id))
  {
  }

  lemma OpenedKeepsInv(w: World, id: Id, orgId: Id, deviceId: Id, userId: Id, now: int)
    requires Inv(w) && id !in w.used
    ensures Inv(Opened(w, id, orgId, deviceId, userId, now))
  {
  }

  lemma SignalKeepsInv(w: World, m: Message, now: int)
    requires Inv(w)
    ensures Inv(AfterSignal(w, m, now))
  {
    if Accepts(w, m) {
      var t := Signalled(w.sessions[m.sessionId], m.kind, now);
      OneLiveUpdate(w.sessions, m.sessionId, t);
      MatchSessionUpdate(w, m.sessionId, t);
      RoutedKeepsInv(w.(sessions := w.sessions[m.sessionId := t]), m);
    }
  }

  lemma ReadKeepsInv(w: World, id: Id, device: bool)
    requires Inv(w)
    ensures Inv(Read(w, id, device))
  {
    if id in w.channels {
      var c := w.channels[id];
      TakenFromOneSide(c);
      var d := if device then c.(device := Taken(c.device)) else c.(admin := Taken(c.admin));
      PipesUpdate(w.channels, id, d);
      MatchChannelUpdate(w, id, d);
    } else if id in w.closed {
      var c := w.closed[id];
      TakenFromOneSide(c);
      PipesUpdate(w.closed, id, if device then c.(device := Taken(c.device)) else c.(admin := Taken(c.admin)));
    }
  }

  /** Ending marks the session, and closes the channel of one that was live. */
  lemma EndKeepsInv(w: World, id: Id, now: int)
    requires Inv(w)
    ensures Inv(AfterEnd(w, id, now))
  {
    if id in w.sessions {
      RoutedKeepsInv(w, ByeMessage(id));
      CloseEndedKeepsInv(Routed(w, ByeMessage(id)), id, WithState(w.sessions[id], Ended, now));
    }
  }

  lemma EndMarksSession(w: World, id: Id, now: int)
    requires id in w.sessions
    ensures AfterEnd(w, id, now).sessions == w.sessions[id := WithState(w.sessions[id], Ended, now)]
  {
  }

  /** The listed sessions ended, the others as they were. */
  function AllEnded(sessions: map<Id, Session>, ids: seq<Id>, now: int): map<Id, Session> {
    map id | id in sessions :: if id in ids then WithState(sessions[id], Ended, now) else sessions[id]
  }

  lemma AllEndedGrows(sessions: map<Id, Session>, ids: seq<Id>, last: Id, now: int)
    requires last in sessions && last !in ids
    ensures AllEnded(sessions, ids, now)[last := WithState(sessions[last], Ended, now)] == AllEnded(sessions, ids + [last], now)
  {
  }

  lemma {:induction false} EndsKeepInv(w: World, ids: seq<Id>, now: int)
    requires Inv(w) && forall id :: id in ids ==> id in w.sessions
    requires forall i, j :: 0 <= i < j < |ids| ==> ids[i] != ids[j]
    ensures Inv(AfterEnds(w, ids, now)) && AfterEnds(w, ids, now).sessions == AllEnded(w.sessions, ids, now)
  {
    if ids == [] {
      assert AllEnded(w.sessions, [], now) == w.sessions;
    } else {
      var front, last := ids[..|ids| - 1], ids[|ids| - 1];
      assert ids == front + [last] && last !in front;
      EndsKeepInv(w, front, now);
      EndKeepsInv(AfterEnds(w, front, now), last, now);
      EndMarksSession(AfterEnds(w, front, now), last, now);
      AllEndedGrows(w.sessions, front, last, now);
    }
  }

  lemma RemovalKeepsInv(w: World, cutoff: int)
    requires Inv(w) && forall id :: id in w.sessions && IsStale(w.sessions[id], cutoff) ==> !IsLive(w.sessions[id])
    ensures Inv(w.(sessions := WithoutStale(w.sessions, cutoff)))
  {
  }

  /** A cleanup removes no live session exactly where its second clock reading leaves every session it kept its full time. */
  lemma CleanupSparesLiveSessions(w: World, ids: seq<Id>, ttl: int, now: int, later: int)
    requires Inv(w) && ListsExpired(w.sessions, now - ttl, ids)
    ensures (forall id :: id in w.sessions && IsLive(w.sessions[id]) && id !in ids ==> id in AfterCleanup(w, ids, ttl, now, later).sessions)
      <==> forall id :: id in w.sessions && IsLive(w.sessions[id]) && now - ttl <= w.sessions[id].lastActivity
                        ==> later - 2 * ttl <= w.sessions[id].lastActivity
  {
    EndsKeepInv(w, ids, now);
    var t, done := AfterEnds(w, ids, now), AfterCleanup(w, ids, ttl, now, later);
    forall id | id in w.sessions && IsLive(w.sessions[id])
      ensures id !in ids ==> (id in done.sessions <==> later - 2 * ttl <= w.sessions[id].lastActivity)
      ensures id in ids <==> w.sessions[id].lastActivity < now - ttl
    {
      assert id !in ids ==> t.sessions[id] == w.sessions[id];
    }
  }

  lemma CleanupKeepsInv(w: World, ids: seq<Id>, ttl: int, now: int, later: int)
    requires Inv(w) && ListsExpired(w.sessions, now - ttl, ids) && later <= now + ttl
    ensures Inv(AfterCleanup(w, ids, ttl, now, later))
  {
    EndsKeepInv(w, ids, now);
    RemovalKeepsInv(AfterEnds(w, ids, now), later - 2 * ttl);
  }

  lemma NextKeepsInv(w: World, e: Event)
    requires Inv(w) && Allowed(w, e)
    ensures Inv(Next(w, e))
  {
    match e
    case Create(id, orgId, deviceId, userId, now) => OpenedKeepsInv(w, id, orgId, deviceId, userId, now);
    case Signal(m, now) => SignalKeepsInv(w, m, now);
    case End(id, now) => EndKeepsInv(w, id, now);
    case Cleanup(ids, ttl, now, later) => CleanupKeepsInv(w, ids, ttl, now, later);
    case Receive(id, device) => ReadKeepsInv(w, id, device);
  }

  /**
   In every run: at most one live session per device; channels for exactly the live sessions, each closed once;
   and on each side an ordered subsequence of what was routed there, with at most 100 messages waiting.
   */
  lemma {:induction false} RunsKeepInv(w: World, events: seq<Event>)
    requires Inv(w) && IsRun(w, events)
    ensures Inv(After(w, events))
    decreases |events|
  {
    if events != [] {
      NextKeepsInv(w, events[0]);
      RunsKeepInv(Next(w, events[0]), events[1..]);
    }
  }

  lemma RunsFromEmpty(events: seq<Event>)
    requires IsRun(EMPTY, events)
    ensures Inv(After(EMPTY, events))
  {
    RunsKeepInv(EMPTY, events);
  }

  // ----- Ended is absorbing -----

  ghost predicate IsEnded(w: World, id: Id) {
    id in w.used && (id in w.sessions ==> w.sessions[id].state.Ended?)
  }

  lemma NextKeepsEnded(w: World, e: Event, id: Id)
    requires Inv(w) && Allowed(w, e) && IsEnded(w, id)
    ensures IsEnded(Next(w, e), id)
  {
    match e
    case Cleanup(ids, ttl, now, later) =>
      EndsKeepInv(w, ids, now);
      EndsKeepUsed(w, ids, now);
    case _ =>
  }

  lemma {:induction false} EndsKeepUsed(w: World, ids: seq<Id>, now: int)
    ensures AfterEnds(w, ids, now).used == w.used
  {
    if ids != [] {
      EndsKeepUsed(w, ids[..|ids| - 1], now);
    }
  }

  /** Once ended, a session stays ended until its record is removed, and its id never comes back to life. */
  lemma {:induction false} EndedIsAbsorbing(w: World, events: seq<Event>, id: Id)
    requires Inv(w) && IsRun(w, events) && IsEnded(w, id)
    ensures IsEnded(After(w, events), id) && id !in After(w, events).channels
    decreases |events|
  {
    if events != [] {
      NextKeepsInv(w, events[0]);
      NextKeepsEnded(w, events[0], id);
      EndedIsAbsorbing(Next(w, events[0]), events[1..], id);
    }
  }

  /** A session that ends is ended, closed, and announced to the admin side alone. */
  lemma ByeReachesOnlyAdmin(w: World, id: Id, now: int)
    requires Inv(w) && id in w.sessions && IsLive(w.sessions[id])
    ensures var t := AfterEnd(w, id, now);
      && IsEnded(t, id) && id in t.closed && id in w.channels
      && t.closed[id].device == w.channels[id].device
      && t.closed[id].admin == Pushed(w.channels[id].admin, ByeMessage(id))
  {
  }
}
