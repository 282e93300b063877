/** Location reports of all devices at all geofences, and the list of devices inside a geofence. */
module GeofenceTracker {
  import opened Common
  import opened GeofenceVisits
  import G = Geo

  datatype Shape =
    | Circle(center: G.Point, radius: real)
    | Polygon(points: Option<seq<G.Point>>)
    | UnknownShape

  datatype Fence = Fence(id: string, shape: Shape, dwellSeconds: int)

  type Key = (string, string)

  datatype Event = Event(deviceId: string, fenceId: string, trigger: Trigger, at: int)

  /** The state keys, the dwell flags and the saved events. */
  datatype World = World(states: map<Key, Stored>, flags: map<Key, int>, events: seq<Event>) {
    function CellOf(key: Key): Cell {
      Cell(if key in states then Some(states[key]) else None, if key in flags then Some(flags[key]) else None)
    }
  }

  /** A polygon that cannot be parsed, or an unknown type, holds no point. */
  predicate IsInside(inCircle: (G.Point, G.Point, real) -> bool, point: G.Point, fence: Fence) {
    match fence.shape
    case Circle(center, radius) => inCircle(point, center, radius)
    case Polygon(points) => points.Some? && G.InPolygon(point, points.value)
    case UnknownShape => false
  }

  lemma ShapesHoldPoints(inCircle: (G.Point, G.Point, real) -> bool, point: G.Point, id: string, fence: Fence)
    ensures fence.shape.Circle? ==> IsInside(inCircle, point, fence) == inCircle(point, fence.shape.center, fence.shape.radius)
    ensures fence.shape == Polygon(None) || fence.shape == UnknownShape ==> !IsInside(inCircle, point, fence)
    ensures fence.shape.Polygon? && fence.shape.points.Some? ==> IsInside(inCircle, point, fence) == G.InPolygon(point, fence.shape.points.value)
  {
  }

  // ----- One report at one geofence -----

  function Reported(w: World, key: Key, u: Update): World {
    var c := CellAfter(w.CellOf(key), u);
    World(w.states[key := c.state.value],
          if c.flag.Some? then w.flags[key := c.flag.value] else w.flags - {key},
          w.events + EventsOf(w.CellOf(key), key, u))
  }

  function EventsOf(c: Cell, key: Key, u: Update): seq<Event> {
    var t := TriggerOf(c, u);
    if t.Some? then [Event(key.0, key.1, t.value, u.now)] else []
  }

  /** Only the reported cell changes, and it changes as a single visit does. */
  lemma ReportedCells(w: World, key: Key, u: Update, other: Key)
    ensures Reported(w, key, u).CellOf(other) == if other == key then CellAfter(w.CellOf(key), u) else w.CellOf(other)
  {
  }

  /** One report of a device against the geofences in turn. */
  function Processed(w: World, deviceId: string, fences: seq<Fence>, insideIds: set<string>, now: int): World
    decreases |fences|
  {
    if fences == [] then w
    else
      var fence := fences[|fences| - 1];
      Reported(Processed(w, deviceId, fences[..|fences| - 1], insideIds, now), (deviceId, fence.id),
               Update(fence.id in insideIds, fence.dwellSeconds, now))
  }

  class Tracker {
    var states: map<Key, Stored>
    var flags: map<Key, int>
    var events: seq<Event>

    ghost function Contents(): World
      reads this
    {
      World(states, flags, events)
    }

    constructor ()
      ensures Contents() == World(map[], map[], [])
    {
      states, flags, events := map[], map[], [];
    }

    /** Every active geofence is handled once; a failed listing leaves everything as it was. */
    method ProcessLocationEvent(deviceId: string, fences: Option<seq<Fence>>, inCircle: (G.Point, G.Point, real) -> bool,
                                point: G.Point, now: int)
      returns (triggered: Option<seq<Event>>)
      modifies this
      ensures fences.None? ==> triggered.None? && Contents() == old(Contents())
      ensures fences.Some? ==> forall insideIds: set<string> {:trigger Processed(old(Contents()), deviceId, fences.value, insideIds, now)} ::
        InsideIds(inCircle, point, fences.value, insideIds) ==> Contents() == Processed(old(Contents()), deviceId, fences.value, insideIds, now)
      ensures fences.Some? ==> triggered.Some? && events == old(events) + triggered.value
    {
      if fences.None? {
        return None;
      }
      var list := fences.value;
      var fired: seq<Event> := [];
      for i := 0 to |list|
        invariant events == old(events) + fired
        invariant forall insideIds: set<string> {:trigger Processed(old(Contents()), deviceId, list[..i], insideIds, now)} ::
          InsideIds(inCircle, point, list, insideIds) ==> Contents() == Processed(old(Contents()), deviceId, list[..i], insideIds, now)
      {
        var fence := list[i];
        assert list[..i + 1][..i] == list[..i];
        var inside := IsPointInGeofence(inCircle, point, fence);
        var t := Report((deviceId, fence.id), inside, fence.dwellSeconds, now);
        if t.Some? {
          fired := fired + [Event(deviceId, fence.id, t.value, now)];
        }
      }
      assert list[..|list|] == list;
      return Some(fired);
    }

    /** The transition for one geofence: new state, dwell flag and, if one is triggered, the saved event. */
    method Report(key: Key, inside: bool, dwellSeconds: int, now: int) returns (t: Option<Trigger>)
      modifies this
      ensures t == TriggerOf(old(Contents()).CellOf(key), Update(inside, dwellSeconds, now))
      ensures Contents() == Reported(old(Contents()), key, Update(inside, dwellSeconds, now))
      ensures events == old(events) + if t.Some? then [Event(key.0, key.1, t.value, now)] else []
    {
      var wasInside := key in states && now < states[key].expires && states[key].inside;
      t := None;
      if inside && !wasInside {
        t := Some(Enter);
        states := states[key := Stored(true, now, now, now + STATE_TTL)];
      } else if !inside && wasInside {
        t := Some(Exit);
        states := states[key := Stored(false, 0, now, now + STATE_TTL)];
      } else if inside && wasInside {
        var enteredAt := states[key].enteredAt;
        states := states[key := Stored(true, enteredAt, now, now + STATE_TTL)];
        if dwellSeconds > 0 && enteredAt + dwellSeconds * SECOND < now {
          if !(key in flags && now < flags[key]) {
            t := Some(Dwell);
            flags := flags[key := now + DWELL_TTL];
          }
        }
      } else {
        states := states[key := Stored(false, 0, now, now + STATE_TTL)];
      }
      if !inside && wasInside {
        flags := flags - {key};
      }
      if t.Some? {
        events := events + [Event(key.0, key.1, t.value, now)];
      }
    }

    method IsPointInGeofence(inCircle: (G.Point, G.Point, real) -> bool, point: G.Point, fence: Fence) returns (inside: bool)
      ensures inside == IsInside(inCircle, point, fence)
    {
      match fence.shape
      case Circle(center, radius) =>
        inside := inCircle(point, center, radius);
      case Polygon(points) =>
        if points.None? {
          return false;
        }
        inside := G.PointInPolygon(point, points.value);
      case UnknownShape =>
        inside := false;
    }
  }

  /** The ids of the geofences that hold the point. */
  ghost predicate InsideIds(inCircle: (G.Point, G.Point, real) -> bool, point: G.Point, fences: seq<Fence>, insideIds: set<string>) {
    forall i :: 0 <= i < |fences| ==> (fences[i].id in insideIds <==> IsInside(inCircle, point, fences[i]))
  }

  /** Whether a geofence counts as inside is decided by its own shape. */
  lemma InsideByShape(inCircle: (G.Point, G.Point, real) -> bool, point: G.Point, fences: seq<Fence>, insideIds: set<string>, i: nat)
    requires InsideIds(inCircle, point, fences, insideIds) && i < |fences|
    ensures fences[i].shape.Circle? ==> (fences[i].id in insideIds <==> inCircle(point, fences[i].shape.center, fences[i].shape.radius))
    ensures fences[i].shape.Polygon? ==>
      (fences[i].id in insideIds <==> fences[i].shape.points.Some? && G.InPolygon(point, fences[i].shape.points.value))
    ensures fences[i].shape == UnknownShape ==> fences[i].id !in insideIds
  {
  }

  // ----- Runs over all devices -----

  datatype Location = Location(deviceId: string, fences: seq<Fence>, insideIds: set<string>, now: int)

  const EMPTY := World(map[], map[], [])

  function Run(locations: seq<Location>): World {
    if locations == [] then EMPTY
    else
      var l := Last(locations);
      Processed(Run(Front(locations)), l.deviceId, l.fences, l.insideIds, l.now)
  }

  ghost predicate DistinctIds(fences: seq<Fence>) {
    forall i, j :: 0 <= i < j < |fences| ==> fences[i].id != fences[j].id
  }

  /** What one cell sees of one location: at most one report. */
  function Seen(fences: seq<Fence>, l: Location, key: Key): seq<Update> {
    if fences == [] || key.0 != l.deviceId then []
    else
      var fence := Last(fences);
      Seen(Front(fences), l, key) + if fence.id == key.1 then [Update(fence.id in l.insideIds, fence.dwellSeconds, l.now)] else []
  }

  /** What one cell sees of a run. */
  function ReportsOf(locations: seq<Location>, key: Key): seq<Update> {
    if locations == [] then [] else ReportsOf(Front(locations), key) + Seen(Last(locations).fences, Last(locations), key)
  }

  /** The events of one cell, in the order in which they were saved. */
  function EventsAt(events: seq<Event>, key: Key): seq<Logged> {
    if events == [] then []
    else EventsAt(Front(events), key) + if (Last(events).deviceId, Last(events).fenceId) == key then [Logged(Last(events).trigger, Last(events).at)] else []
  }

  lemma {:induction false} EventsAtAppend(events: seq<Event>, more: seq<Event>, key: Key)
    ensures EventsAt(events + more, key) == EventsAt(events, key) + EventsAt(more, key)
  {
    if more == [] {
      assert events + more == events;
    } else {
      EventsAtAppend(events, Front(more), key);
      assert Front(events + more) == events + Front(more);
    }
  }

  /** The cell and the events of the world agree with a run of that cell alone. */
  ghost predicate Agrees(w: World, key: Key, updates: seq<Update>) {
    w.CellOf(key) == After(updates) && EventsAt(w.events, key) == Log(updates)
  }

  lemma ReportAgrees(w: World, reported: Key, u: Update, key: Key, updates: seq<Update>)
    requires Agrees(w, key, updates)
    ensures Agrees(Reported(w, reported, u), key, if reported == key then updates + [u] else updates)
  {
    ReportedCells(w, reported, u, key);
    EventsAtAppend(w.events, EventsOf(w.CellOf(reported), reported, u), key);
    EventsOfOne(w.CellOf(reported), reported, u, key);
    assert Front(updates + [u]) == updates;
  }

  lemma EventsOfOne(c: Cell, reported: Key, u: Update, key: Key)
    ensures EventsAt(EventsOf(c, reported, u), key)
         == if reported == key && TriggerOf(c, u).Some? then [Logged(TriggerOf(c, u).value, u.now)] else []
  {
    var t := TriggerOf(c, u);
    if t.Some? {
      assert Front([Event(reported.0, reported.1, t.value, u.now)]) == [];
    }
  }

  lemma {:induction false} LocationAgrees(w: World, l: Location, fences: seq<Fence>, key: Key, updates: seq<Update>)
    requires Agrees(w, key, updates)
    ensures Agrees(Processed(w, l.deviceId, fences, l.insideIds, l.now), key, updates + Seen(fences, l, key))
  {
    if fences == [] {
      assert updates + [] == updates;
    } else {
      var front, fence := Front(fences), Last(fences);
      LocationAgrees(w, l, front, key, updates);
      var u := Update(fence.id in l.insideIds, fence.dwellSeconds, l.now);
      ReportAgrees(Processed(w, l.deviceId, front, l.insideIds, l.now), (l.deviceId, fence.id), u, key, updates + Seen(front, l, key));
      if key.0 != l.deviceId {
        assert updates + [] == updates;
      } else if fence.id == key.1 {
        assert updates + Seen(front, l, key) + [u] == updates + (Seen(front, l, key) + [u]);
      } else {
        assert Seen(front, l, key) + [] == Seen(front, l, key);
      }
    }
  }

  /** However the reports of other devices and geofences come between, each cell runs as if it were alone. */
  lemma {:induction false} CellsAreIndependent(locations: seq<Location>, key: Key)
    ensures Agrees(Run(locations), key, ReportsOf(locations, key))
  {
    if locations != [] {
      var l := Last(locations);
      CellsAreIndependent(Front(locations), key);
      LocationAgrees(Run(Front(locations)), l, l.fences, key, ReportsOf(Front(locations), key));
    }
  }

  // ----- The devices inside a geofence, from the events -----

  /** Rows of a geofence, newest first. */
  ghost predicate NewestFirst(rows: seq<Event>) {
    forall i, j :: 0 <= i < j < |rows| ==> rows[i].at >= rows[j].at
  }

  /** The first row of a device. */
  ghost predicate FirstRow(rows: seq<Event>, deviceId: string, i: nat) {
    i < |rows| && rows[i].deviceId == deviceId && forall k :: 0 <= k < i ==> rows[k].deviceId != deviceId
  }

  /** Lists, once each, the devices whose first row is an enter or a dwell. */
  method InsideDevices(rows: seq<Event>) returns (devices: seq<string>)
    ensures forall i, j :: 0 <= i < j < |devices| ==> devices[i] != devices[j]
    ensures forall d :: d in devices <==> exists i: nat :: FirstRow(rows, d, i) && !rows[i].trigger.Exit?
  {
    var order: seq<string> := [];
    var deviceStates: map<string, Trigger> := map[];
    for n := 0 to |rows|
      invariant forall i, j :: 0 <= i < j < |order| ==> order[i] != order[j]
      invariant forall d :: d in order <==> d in deviceStates
      invariant forall d :: d in deviceStates <==> exists i: nat :: i < n && FirstRow(rows, d, i)
      invariant forall d, i: nat :: i < n && FirstRow(rows, d, i) ==> d in deviceStates && deviceStates[d] == rows[i].trigger
    {
      var d := rows[n].deviceId;
      if d !in deviceStates {
        FirstSighting(rows, d, n);
        deviceStates := deviceStates[d := rows[n].trigger];
        order := order + [d];
      }
    }
    devices := [];
    for n := 0 to |order|
      invariant forall i, j :: 0 <= i < j < |devices| ==> devices[i] != devices[j]
      invariant forall d :: d in devices <==> d in order[..n] && !deviceStates[d].Exit?
    {
      assert order[..n + 1] == order[..n] + [order[n]];
      if !deviceStates[order[n]].Exit? {
        devices := devices + [order[n]];
      }
    }
    assert order[..|order|] == order;
  }

  lemma {:induction false} FirstSighting(rows: seq<Event>, deviceId: string, n: nat)
    requires n < |rows| && rows[n].deviceId == deviceId
    requires !exists i: nat :: i < n && FirstRow(rows, deviceId, i)
    ensures FirstRow(rows, deviceId, n)
  {
    if k :| 0 <= k < n && rows[k].deviceId == deviceId {
      var i := EarliestRow(rows, deviceId, k);
    }
  }

  lemma {:induction false} EarliestRow(rows: seq<Event>, deviceId: string, k: nat) returns (i: nat)
    requires k < |rows| && rows[k].deviceId == deviceId
    ensures i <= k && FirstRow(rows, deviceId, i)
    decreases k
  {
    if j :| 0 <= j < k && rows[j].deviceId == deviceId {
      i := EarliestRow(rows, deviceId, j);
    } else {
      i := k;
    }
  }

  // ----- The view agrees with the stored state -----

  /** The reports of each device come at increasing times, each against distinct geofences. */
  ghost predicate Ordered(locations: seq<Location>) {
    && (forall i, j :: 0 <= i < j < |locations| && locations[i].deviceId == locations[j].deviceId ==> locations[i].now < locations[j].now)
    && forall i :: 0 <= i < |locations| ==> DistinctIds(locations[i].fences)
  }

  lemma {:induction false} SeenOnce(fences: seq<Fence>, l: Location, key: Key)
    requires DistinctIds(fences)
    ensures var seen := Seen(fences, l, key);
      |seen| <= 1 && (seen != [] ==> seen[0].now == l.now && l.deviceId == key.0 && exists i :: 0 <= i < |fences| && fences[i].id == key.1)
  {
    if fences != [] && key.0 == l.deviceId {
      SeenOnce(Front(fences), l, key);
      if Last(fences).id == key.1 {
        assert fences[|fences| - 1].id == key.1;
      }
    }
  }

  lemma {:induction false} ReportsAreOrdered(locations: seq<Location>, key: Key)
    requires Ordered(locations)
    ensures Increasing(ReportsOf(locations, key))
    ensures forall k :: 0 <= k < |ReportsOf(locations, key)| ==> MadeAt(locations, key.0, ReportsOf(locations, key)[k].now)
  {
    if locations != [] {
      var front, l := Front(locations), Last(locations);
      ReportsAreOrdered(front, key);
      SeenOnce(l.fences, l, key);
      var before, seen := ReportsOf(front, key), Seen(l.fences, l, key);
      forall k | 0 <= k < |before|
        ensures MadeAt(locations, key.0, before[k].now)
        ensures seen != [] ==> before[k].now < l.now
      {
        assert MadeAt(front, key.0, before[k].now);
        var i :| 0 <= i < |front| && front[i].deviceId == key.0 && front[i].now == before[k].now;
        assert locations[i] == front[i];
      }
      if seen != [] {
        assert locations[|locations| - 1] == l;
      }
    }
  }

  ghost predicate MadeAt(locations: seq<Location>, deviceId: string, now: int) {
    exists i :: 0 <= i < |locations| && locations[i].deviceId == deviceId && locations[i].now == now
  }

  lemma {:induction false} LogIsOrdered(updates: seq<Update>)
    requires Increasing(updates)
    ensures forall i, j :: 0 <= i < j < |Log(updates)| ==> Log(updates)[i].at < Log(updates)[j].at
    ensures forall i :: 0 <= i < |Log(updates)| ==> updates != [] && Log(updates)[i].at <= Last(updates).now
  {
    if updates != [] {
      var front := Front(updates);
      LogIsOrdered(front);
      LogGrows(updates);
      if front != [] {
        assert Last(front).now < Last(updates).now;
      } else {
        assert Log(front) == [];
      }
      forall i | 0 <= i < |Log(updates)|
        ensures Log(updates)[i].at <= Last(updates).now
        ensures i < |Log(front)| ==> Log(updates)[i] == Log(front)[i] && Log(front)[i].at < Last(updates).now
      {
      }
    } else {
      assert Log(updates) == [];
    }
  }

  lemma {:induction false} EventsAtMembers(events: seq<Event>, key: Key, x: Logged)
    ensures x in EventsAt(events, key) <==> Event(key.0, key.1, x.trigger, x.at) in events
  {
    if events != [] {
      EventsAtMembers(Front(events), key, x);
      assert events == Front(events) + [Last(events)];
    }
  }

  /** In the rows of a geofence, a device's first row is its latest event there. */
  lemma FirstRowIsLatest(events: seq<Event>, rows: seq<Event>, key: Key, i: nat)
    requires NewestFirst(rows) && forall e :: e in rows <==> e in events && e.fenceId == key.1
    requires forall j, k :: 0 <= j < k < |EventsAt(events, key)| ==> EventsAt(events, key)[j].at < EventsAt(events, key)[k].at
    requires FirstRow(rows, key.0, i)
    ensures EventsAt(events, key) != [] && Last(EventsAt(events, key)).trigger == rows[i].trigger
  {
    var log, first := EventsAt(events, key), Logged(rows[i].trigger, rows[i].at);
    assert rows[i] in events;
    EventsAtMembers(events, key, first);
    var latest := Event(key.0, key.1, Last(log).trigger, Last(log).at);
    EventsAtMembers(events, key, Last(log));
    assert latest in rows;
  }

  /** A device with an event has a row. */
  lemma EventHasRow(events: seq<Event>, rows: seq<Event>, key: Key)
    requires forall e :: e in rows <==> e in events && e.fenceId == key.1
    requires EventsAt(events, key) != []
    ensures exists i: nat :: FirstRow(rows, key.0, i)
  {
    var x := Last(EventsAt(events, key));
    EventsAtMembers(events, key, x);
    var k :| 0 <= k < |rows| && rows[k] == Event(key.0, key.1, x.trigger, x.at);
    var i := EarliestRow(rows, key.0, k);
  }

  /** The rows of a geofence as the query returns them: its saved events, newest first. */
  ghost predicate RowsOf(events: seq<Event>, fenceId: string, rows: seq<Event>) {
    NewestFirst(rows) && forall e :: e in rows <==> e in events && e.fenceId == fenceId
  }

  /** The view lists a device exactly where its stored state is inside, or its exit was missed while the state key had lapsed. */
  lemma ViewMatchesState(locations: seq<Location>, fenceId: string, rows: seq<Event>, deviceId: string)
    requires Ordered(locations) && RowsOf(Run(locations).events, fenceId, rows)
    ensures var key, reports := (deviceId, fenceId), ReportsOf(locations, (deviceId, fenceId));
      (exists i: nat :: FirstRow(rows, deviceId, i) && !rows[i].trigger.Exit?)
      <==> (key in Run(locations).states && Run(locations).states[key].inside) || MissedExit(reports)
  {
    var key, w := (deviceId, fenceId), Run(locations);
    var reports := ReportsOf(locations, key);
    CellsAreIndependent(locations, key);
    ReportsAreOrdered(locations, key);
    LogIsOrdered(reports);
    assert EventsAt(w.events, key) == Log(reports);
    if reports != [] {
      ViewIsRightIffNoMissedExit(reports);
      StateIsLatestReport(reports);
    }
    if Log(reports) != [] {
      EventHasRow(w.events, rows, key);
    }
    forall i: nat | FirstRow(rows, deviceId, i)
      ensures Log(reports) != [] && Last(Log(reports)).trigger == rows[i].trigger
    {
      FirstRowIsLatest(w.events, rows, key, i);
    }
  }

  /** Where no state key ever lapses the view is exactly the stored state. */
  lemma ViewIsStateWithoutLapse(locations: seq<Location>, fenceId: string, rows: seq<Event>, deviceId: string)
    requires Ordered(locations) && RowsOf(Run(locations).events, fenceId, rows)
    requires StateNeverLapses(ReportsOf(locations, (deviceId, fenceId)))
    ensures (exists i: nat :: FirstRow(rows, deviceId, i) && !rows[i].trigger.Exit?)
      <==> (deviceId, fenceId) in Run(locations).states && Run(locations).states[(deviceId, fenceId)].inside
  {
    ViewMatchesState(locations, fenceId, rows, deviceId);
    NoMissedExitWithoutLapse(ReportsOf(locations, (deviceId, fenceId)));
  }
}
