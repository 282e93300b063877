/** One device at one geofence: enter, dwell and exit over stored keys that expire. */
module GeofenceVisits {
  import opened Common

  /** All times are nanoseconds. */
  const SECOND: int := 1_000_000_000
  const HOUR: int := 3600 * SECOND
  const STATE_TTL: int := 48 * HOUR
  const DWELL_TTL: int := 24 * HOUR

  datatype Trigger = Enter | Dwell | Exit

  /** The stored state key with the time at which it expires. */
  datatype Stored = Stored(inside: bool, enteredAt: int, updatedAt: int, expires: int)

  /** The two keys of a device at a geofence; of the dwell flag only the expiry matters. */
  datatype Cell = Cell(state: Option<Stored>, flag: Option<int>)

  predicate StateLive(c: Cell, now: int) {
    c.state.Some? && now < c.state.value.expires
  }

  predicate FlagLive(c: Cell, now: int) {
    c.flag.Some? && now < c.flag.value
  }

  predicate WasInside(c: Cell, now: int) {
    StateLive(c, now) && c.state.value.inside
  }

  /** One location report: whether it lies inside, and the geofence's dwell time. */
  datatype Update = Update(inside: bool, dwellSeconds: int, now: int)

  predicate DwellDue(c: Cell, u: Update)
    requires c.state.Some?
  {
    u.dwellSeconds > 0 && c.state.value.enteredAt + u.dwellSeconds * SECOND < u.now && !FlagLive(c, u.now)
  }

  function TriggerOf(c: Cell, u: Update): Option<Trigger> {
    if u.inside && !WasInside(c, u.now) then Some(Enter)
    else if !u.inside && WasInside(c, u.now) then Some(Exit)
    else if u.inside && DwellDue(c, u) then Some(Dwell)
    else None
  }

  /** The state key is rewritten on every report; the flag is set by a dwell and cleared by an exit. */
  function CellAfter(c: Cell, u: Update): Cell {
    var enteredAt := if u.inside then if WasInside(c, u.now) then c.state.value.enteredAt else u.now else 0;
    Cell(Some(Stored(u.inside, enteredAt, u.now, u.now + STATE_TTL)),
         match TriggerOf(c, u) case Some(Dwell) => Some(u.now + DWELL_TTL) case Some(Exit) => None case _ => c.flag)
  }

  /**
   One report in full: entering stores the time and leaving clears it; a device that stays inside dwells once its time in
   seconds is over and no flag is live, which sets one for 24 hours. Every report keeps the state for 48 hours.
   */
  lemma ReportInFull(c: Cell, u: Update)
    ensures var was := c.state.Some? && u.now < c.state.value.expires && c.state.value.inside;
      var flagged := c.flag.Some? && u.now < c.flag.value;
      var dwells := u.inside && was && u.dwellSeconds > 0 && u.now - c.state.value.enteredAt > u.dwellSeconds * 1_000_000_000 && !flagged;
      && TriggerOf(c, u) == (if u.inside && !was then Some(Enter) else if !u.inside && was then Some(Exit) else if dwells then Some(Dwell) else None)
      && CellAfter(c, u).state == Some(Stored(u.inside, if !u.inside then 0 else if was then c.state.value.enteredAt else u.now, u.now, u.now + 172_800_000_000_000))
      && CellAfter(c, u).flag == if dwells then Some(u.now + 86_400_000_000_000) else if !u.inside && was then None else c.flag
  {
  }

  datatype Logged = Logged(trigger: Trigger, at: int)

  // ----- Runs -----

  const FRESH := Cell(None, None)

  function After(updates: seq<Update>): Cell {
    if updates == [] then FRESH else CellAfter(After(Front(updates)), Last(updates))
  }

  function Log(updates: seq<Update>): seq<Logged> {
    if updates == [] then []
    else
      var t := TriggerOf(After(Front(updates)), Last(updates));
      Log(Front(updates)) + if t.Some? then [Logged(t.value, Last(updates).now)] else []
  }

  function Front<T>(s: seq<T>): seq<T>
    requires s != []
  {
    s[..|s| - 1]
  }

  function Last<T>(s: seq<T>): T
    requires s != []
  {
    s[|s| - 1]
  }

  ghost predicate Increasing(updates: seq<Update>) {
    forall i, j :: 0 <= i < j < |updates| ==> updates[i].now < updates[j].now
  }

  // ----- The dwell flag -----

  /** A flag still live after a report at time `at` belongs to a state key that is inside and outlives it. */
  predicate FlagBelongsToVisit(c: Cell, at: int) {
    FlagLive(c, at) ==> c.state.Some? && c.state.value.inside && c.flag.value <= c.state.value.expires
  }

  lemma {:induction false} FlagsBelongToVisits(updates: seq<Update>)
    requires updates != [] && Increasing(updates)
    ensures FlagBelongsToVisit(After(updates), Last(updates).now)
  {
    var front := Front(updates);
    if front != [] {
      FlagsBelongToVisits(front);
      assert Last(front).now < Last(updates).now;
    } else {
      assert After(updates) == CellAfter(FRESH, Last(updates));
    }
  }

  /** While the flag is live the device is inside by a live state key; so every enter starts without one. */
  lemma EntersStartWithoutFlag(updates: seq<Update>, u: Update)
    requires updates != [] && Increasing(updates) && Last(updates).now < u.now
    ensures FlagLive(After(updates), u.now) ==> WasInside(After(updates), u.now)
    ensures TriggerOf(After(updates), u) == Some(Enter) ==> !FlagLive(After(updates), u.now)
  {
    FlagsBelongToVisits(updates);
  }

  /** After a dwell, until the next exit or enter, the flag stays as the dwell set it. */
  lemma {:induction false} FlagOfLatestDwell(updates: seq<Update>)
    requires Log(updates) != [] && Last(Log(updates)).trigger.Dwell?
    ensures After(updates).flag == Some(Last(Log(updates)).at + DWELL_TTL)
  {
    var front := Front(updates);
    if TriggerOf(After(front), Last(updates)).None? {
      assert Log(updates) == Log(front);
      FlagOfLatestDwell(front);
    }
  }

  /** Two dwells of one visit, with nothing logged between them but dwells, are at least 24 hours apart. */
  lemma {:induction false} DwellsAreADayApart(updates: seq<Update>, i: nat, k: nat)
    requires Increasing(updates) && i < k < |Log(updates)|
    requires forall j :: i <= j <= k ==> Log(updates)[j].trigger.Dwell?
    ensures Log(updates)[k].at - Log(updates)[i].at >= (k - i) * DWELL_TTL
  {
    var front := Front(updates);
    var log, before := Log(updates), Log(front);
    if k < |before| {
      assert forall j :: i <= j <= k ==> before[j] == log[j];
      DwellsAreADayApart(front, i, k);
    } else {
      assert k == |before| && log[k] == Logged(Dwell, Last(updates).now);
      assert before[k - 1] == log[k - 1] && Last(before) == log[k - 1];
      FlagOfLatestDwell(front);
      if i < k - 1 {
        assert forall j :: i <= j <= k - 1 ==> before[j] == log[j];
        DwellsAreADayApart(front, i, k - 1);
      }
      OneMoreDay(k - i);
    }
  }

  lemma OneMoreDay(n: int)
    ensures n * DWELL_TTL == (n - 1) * DWELL_TTL + DWELL_TTL
  {
  }

  /** When the current visit began, from the log: the time of the latest enter. */
  function LatestEnter(log: seq<Logged>): Option<int> {
    if log == [] then None
    else if Last(log).trigger.Enter? then Some(Last(log).at)
    else LatestEnter(Front(log))
  }

  /** While the stored state is inside, its entry time is that of the latest enter, lapses or not. */
  lemma {:induction false} EntryTimeIsLatestEnter(updates: seq<Update>)
    requires updates != [] && Last(updates).inside
    ensures LatestEnter(Log(updates)) == Some(After(updates).state.value.enteredAt)
  {
    var front, u := Front(updates), Last(updates);
    LogGrows(updates);
    if WasInside(After(front), u.now) {
      EntryTimeIsLatestEnter(front);
      if TriggerOf(After(front), u) == Some(Dwell) {
        assert Front(Log(front) + [Logged(Dwell, u.now)]) == Log(front);
      }
    }
  }

  /** A dwell comes only after the device has been inside for longer than the dwell time since its enter. */
  lemma DwellTakesDwellTime(updates: seq<Update>, u: Update)
    requires TriggerOf(After(updates), u) == Some(Dwell)
    ensures var entered := LatestEnter(Log(updates));
      entered.Some? && u.dwellSeconds > 0 && entered.value + u.dwellSeconds * SECOND < u.now
  {
    EntryTimeIsLatestEnter(updates);
  }

  // ----- Without lapsed keys -----

  /** Reports so close together that the state key never lapses. */
  ghost predicate StateNeverLapses(updates: seq<Update>) {
    forall i :: 0 < i < |updates| ==> updates[i].now < updates[i - 1].now + STATE_TTL
  }

  /** The stored state is that of the latest report. */
  lemma StateIsLatestReport(updates: seq<Update>)
    requires updates != []
    ensures After(updates).state.Some?
    ensures After(updates).state.value.inside == Last(updates).inside
    ensures After(updates).state.value.expires == Last(updates).now + STATE_TTL
  {
  }

  /** Enters and exits are exactly the changes from one report to the next. */
  lemma EventsAreEdges(updates: seq<Update>, u: Update)
    requires StateNeverLapses(updates + [u])
    ensures var was := updates != [] && Last(updates).inside; var t := TriggerOf(After(updates), u);
      (t == Some(Enter) <==> u.inside && !was) && (t == Some(Exit) <==> !u.inside && was)
  {
    if updates != [] {
      StateIsLatestReport(updates);
      var all := updates + [u];
      assert all[|all| - 1] == u && all[|all| - 2] == Last(updates);
    }
  }

  /** What may follow in a stream of visits: enter, dwells, exit, and so on. */
  predicate Follows(log: seq<Logged>, t: Trigger) {
    match t
    case Enter => log == [] || Last(log).trigger.Exit?
    case Dwell => log != [] && !Last(log).trigger.Exit?
    case Exit => log != [] && !Last(log).trigger.Exit?
  }

  predicate IsStreamOfVisits(log: seq<Logged>) {
    log == [] || (IsStreamOfVisits(Front(log)) && Follows(Front(log), Last(log).trigger))
  }

  /** No dwell follows a dwell. */
  ghost predicate OneDwellPerVisit(log: seq<Logged>) {
    forall i :: 0 <= i < |log| - 1 && log[i].trigger.Dwell? ==> !log[i + 1].trigger.Dwell?
  }

  /** The newest event says inside. */
  predicate ViewInside(log: seq<Logged>) {
    log != [] && !Last(log).trigger.Exit?
  }

  lemma StreamGrows(log: seq<Logged>, t: Trigger, at: int)
    requires IsStreamOfVisits(log) && Follows(log, t)
    ensures IsStreamOfVisits(log + [Logged(t, at)])
  {
    assert Front(log + [Logged(t, at)]) == log;
  }

  /** A report whose trigger fits the stream so far keeps the stream in step with the latest report. */
  lemma TriggerFits(front: seq<Update>, u: Update, log: seq<Logged>)
    requires StateNeverLapses(front + [u])
    requires ViewInside(log) <==> front != [] && Last(front).inside
    ensures var t := TriggerOf(After(front), u);
      (t.Some? ==> Follows(log, t.value)) && (u.inside <==> if t.Some? then !t.value.Exit? else ViewInside(log))
  {
    EventsAreEdges(front, u);
  }

  lemma LogGrows(updates: seq<Update>)
    requires updates != []
    ensures var t := TriggerOf(After(Front(updates)), Last(updates));
      Log(updates) == if t.Some? then Log(Front(updates)) + [Logged(t.value, Last(updates).now)] else Log(Front(updates))
  {
  }

  lemma NoLapseBefore(updates: seq<Update>)
    requires updates != [] && StateNeverLapses(updates)
    ensures StateNeverLapses(Front(updates))
  {
    forall i | 0 < i < |Front(updates)|
      ensures Front(updates)[i].now < Front(updates)[i - 1].now + STATE_TTL
    {
      assert Front(updates)[i] == updates[i] && Front(updates)[i - 1] == updates[i - 1];
    }
  }

  /** The latest event tells where the latest report was, as long as the state key does not lapse. */
  lemma {:induction false} LatestEventTellsState(updates: seq<Update>)
    requires StateNeverLapses(updates)
    ensures ViewInside(Log(updates)) <==> updates != [] && Last(updates).inside
    ensures IsStreamOfVisits(Log(updates))
  {
    if updates != [] {
      var front, u := Front(updates), Last(updates);
      assert updates == front + [u];
      NoLapseBefore(updates);
      LatestEventTellsState(front);
      var log := Log(front);
      TriggerFits(front, u, log);
      LogGrows(updates);
      var t := TriggerOf(After(front), u);
      if t.Some? {
        StreamGrows(log, t.value, u.now);
      }
    }
  }

  /** Reports so soon after each dwell that its flag never lapses while the visit lasts. */
  ghost predicate FlagNeverLapses(updates: seq<Update>) {
    forall i :: 0 < i < |updates| ==> FlagHolds(updates[..i], updates[i].now)
  }

  predicate FlagHolds(updates: seq<Update>, now: int) {
    After(updates).flag.Some? ==> FlagLive(After(updates), now)
  }

  lemma NoFlagLapseBefore(updates: seq<Update>)
    requires updates != [] && FlagNeverLapses(updates)
    ensures FlagNeverLapses(Front(updates))
    ensures Front(updates) != [] ==> FlagHolds(Front(updates), Last(updates).now)
  {
    var front := Front(updates);
    assert front == updates[..|updates| - 1];
    forall i | 0 < i < |front|
      ensures FlagHolds(front[..i], front[i].now)
    {
      assert front[..i] == updates[..i] && FlagHolds(updates[..i], updates[i].now);
    }
  }

  lemma NoDwellWhileFlagLives(c: Cell, u: Update)
    requires FlagLive(c, u.now)
    ensures TriggerOf(c, u) != Some(Dwell)
  {
  }

  lemma OneDwellGrows(log: seq<Logged>, e: Logged)
    requires OneDwellPerVisit(log) && (log != [] && Last(log).trigger.Dwell? ==> !e.trigger.Dwell?)
    ensures OneDwellPerVisit(log + [e])
  {
  }

  /** With no lapsed keys the stream is a prefix of (enter, at most one dwell, exit) repeated. */
  lemma {:induction false} StreamWithoutLapses(updates: seq<Update>)
    requires StateNeverLapses(updates) && FlagNeverLapses(updates)
    ensures IsStreamOfVisits(Log(updates)) && OneDwellPerVisit(Log(updates))
  {
    if updates != [] {
      var front, u := Front(updates), Last(updates);
      NoLapseBefore(updates);
      NoFlagLapseBefore(updates);
      StreamWithoutLapses(front);
      LatestEventTellsState(updates);
      LogGrows(updates);
      var log, t := Log(front), TriggerOf(After(front), u);
      if log != [] && Last(log).trigger.Dwell? {
        FlagOfLatestDwell(front);
        NoDwellWhileFlagLives(After(front), u);
      }
      if t.Some? {
        OneDwellGrows(log, Logged(t.value, u.now));
      }
    }
  }

  // ----- The view from the event log, with lapses -----

  /**
   The device left while its state key had lapsed, and has only been outside since:
   no exit was recorded. This can be told from the reports alone.
   */
  predicate MissedExit(updates: seq<Update>) {
    |updates| >= 2 && !Last(updates).inside
    && var front := Front(updates);
      if Last(front).inside then Last(updates).now >= Last(front).now + STATE_TTL else MissedExit(front)
  }

  /** The view is right exactly where no exit was missed. */
  lemma {:induction false} ViewIsRightIffNoMissedExit(updates: seq<Update>)
    requires updates != [] && Increasing(updates)
    ensures ViewInside(Log(updates)) <==> After(updates).state.value.inside || MissedExit(updates)
  {
    var front, u := Front(updates), Last(updates);
    StateIsLatestReport(updates);
    if front == [] {
      assert Log(front) == [];
    } else {
      StateIsLatestReport(front);
      ViewIsRightIffNoMissedExit(front);
      var t := TriggerOf(After(front), u);
      if t.Some? {
        assert Last(Log(updates)) == Logged(t.value, u.now);
      }
    }
  }

  lemma NoMissedExitWithoutLapse(updates: seq<Update>)
    requires StateNeverLapses(updates)
    ensures !MissedExit(updates)
  {
    if |updates| >= 2 {
      NoMissedExitWithoutLapse(Front(updates));
    }
  }

  /** Entering, silence for two days, then a report from outside: the view goes on saying inside. */
  lemma AMissedExit(dwellSeconds: int)
    ensures var updates := [Update(true, dwellSeconds, 0), Update(false, dwellSeconds, STATE_TTL)];
      ViewInside(Log(updates)) && !After(updates).state.value.inside
  {
    var first, second := Update(true, dwellSeconds, 0), Update(false, dwellSeconds, STATE_TTL);
    assert Front([first, second]) == [first] && Front([first]) == [];
    assert Log([first]) == [Logged(Enter, 0)];
  }
}
