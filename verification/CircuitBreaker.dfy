/**
 The circuit breaker. Starting and finishing a call are separate locked steps,
 so the steps of concurrent calls interleave; a run is any such interleaving.
 */
module CircuitBreaker {
  import opened Common

  datatype State = Closed | Open | HalfOpen

  /** Times are nanoseconds of the service's clock. */
  datatype Config = Config(failureThreshold: int, resetTimeout: int, halfOpenMaxCalls: int)

  datatype Snapshot = Snapshot(state: State, failureCount: int, successCount: int, lastFailure: Option<int>, halfOpenCalls: int)

  const INITIAL := Snapshot(Closed, 0, 0, None, 0)

  // ----- The steps as functions of the fields -----

  /** A breaker that never failed counts as having failed infinitely long ago. */
  predicate TimedOut(cfg: Config, b: Snapshot, now: int) {
    b.lastFailure.None? || now - b.lastFailure.value >= cfg.resetTimeout
  }

  function Settled(cfg: Config, b: Snapshot, now: int): Snapshot {
    if b.state == Open && TimedOut(cfg, b, now) then b.(state := HalfOpen, halfOpenCalls := 0, successCount := 0) else b
  }

  function Started(cfg: Config, b: Snapshot, now: int): (Snapshot, bool) {
    var s := Settled(cfg, b, now);
    match s.state
    case Closed => (s, true)
    case Open => (s, false)
    case HalfOpen =>
      if s.halfOpenCalls >= cfg.halfOpenMaxCalls then (s, false) else (s.(halfOpenCalls := s.halfOpenCalls + 1), true)
  }

  function Opened(b: Snapshot): Snapshot {
    b.(state := Open, halfOpenCalls := 0, successCount := 0)
  }

  function Finished(cfg: Config, b: Snapshot, now: int, failed: bool): Snapshot {
    var s := Settled(cfg, b, now);
    if failed then
      var f := s.(failureCount := s.failureCount + 1, lastFailure := Some(now));
      match s.state
      case Closed => if f.failureCount >= cfg.failureThreshold then Opened(f) else f
      case Open => f
      case HalfOpen => Opened(f)
    else
      match s.state
      case Closed => s.(failureCount := 0)
      case Open => s
      case HalfOpen =>
        var p := s.(successCount := s.successCount + 1);
        if p.successCount >= cfg.halfOpenMaxCalls then p.(state := Closed, failureCount := 0, successCount := 0, halfOpenCalls := 0)
        else p
  }

  class Breaker {
    const config: Config
    var state: State
    var failureCount: int
    var successCount: int
    var lastFailure: Option<int>
    var halfOpenCalls: int

    function Fields(): Snapshot
      reads this
    {
      Snapshot(state, failureCount, successCount, lastFailure, halfOpenCalls)
    }

    constructor (config: Config)
      ensures this.config == config && Fields() == INITIAL
    {
      this.config := config;
      state, failureCount, successCount, lastFailure, halfOpenCalls := Closed, 0, 0, None, 0;
    }

    /** Runs one call; the clock is read when it starts and when it has finished. */
    method Execute(start: int, end: int, fails: bool) returns (rejected: bool, failed: bool)
      modifies this
      ensures var (started, admitted) := Started(config, old(Fields()), start);
        && rejected == !admitted
        && failed == (admitted && fails)
        && Fields() == if admitted then Finished(config, started, end, fails) else started
    {
      var admitted := BeforeCall(start);
      if !admitted {
        return true, false;
      }
      AfterCall(end, fails);
      return false, fails;
    }

    method BeforeCall(now: int) returns (admitted: bool)
      modifies this
      ensures (Fields(), admitted) == Started(config, old(Fields()), now)
    {
      var s := CurrentState(now);
      match s
      case Closed => return true;
      case Open => return false;
      case HalfOpen =>
        if halfOpenCalls >= config.halfOpenMaxCalls {
          return false;
        }
        halfOpenCalls := halfOpenCalls + 1;
        return true;
    }

    method AfterCall(now: int, failed: bool)
      modifies this
      ensures Fields() == Finished(config, old(Fields()), now, failed)
    {
      var s := CurrentState(now);
      if failed {
        failureCount := failureCount + 1;
        lastFailure := Some(now);
        match s {
          case Closed =>
            if failureCount >= config.failureThreshold {
              ToOpen();
            }
          case HalfOpen => ToOpen();
          case Open =>
        }
      } else {
        match s {
          case Closed => failureCount := 0;
          case HalfOpen =>
            successCount := successCount + 1;
            if successCount >= config.halfOpenMaxCalls {
              ToClosed();
            }
          case Open =>
        }
      }
    }

    method CurrentState(now: int) returns (s: State)
      modifies this
      ensures Fields() == Settled(config, old(Fields()), now) && s == state
    {
      if state == Open {
        if lastFailure.None? || now - lastFailure.value >= config.resetTimeout {
          state, halfOpenCalls, successCount := HalfOpen, 0, 0;
        }
      }
      return state;
    }

    method ToOpen()
      modifies this
      ensures Fields() == Opened(old(Fields()))
    {
      state, halfOpenCalls, successCount := Open, 0, 0;
    }

    method ToClosed()
      modifies this
      ensures Fields() == old(Fields()).(state := Closed, failureCount := 0, successCount := 0, halfOpenCalls := 0)
    {
      state, failureCount, successCount, halfOpenCalls := Closed, 0, 0, 0;
    }
  }

  // ----- Runs -----

  /** Start: some caller asks for admission. Finish: some admitted call ends. Look: somebody reads the state. */
  datatype Event = Start(time: int) | Finish(time: int, failed: bool) | Look(time: int)

  /**
   The breaker with what an observer knows about the run: calls in flight, the calls admitted
   and the successes recorded since the breaker last became half-open, and all failure times.
   */
  datatype World = World(breaker: Snapshot, now: int, inFlight: nat, probes: nat, recorded: nat, failures: seq<int>)

  function Begin(now: int): World {
    World(INITIAL, now, 0, 0, 0, [])
  }

  /** Time does not go back, and only calls in flight finish. */
  predicate Enabled(w: World, e: Event) {
    w.now <= e.time && (e.Finish? ==> w.inFlight > 0)
  }

  predicate BecomesHalfOpen(cfg: Config, b: Snapshot, now: int) {
    b.state == Open && TimedOut(cfg, b, now)
  }

  predicate Admits(cfg: Config, w: World, now: int) {
    Started(cfg, w.breaker, now).1
  }

  function Step(cfg: Config, w: World, e: Event): World
    requires Enabled(w, e)
  {
    var begins := BecomesHalfOpen(cfg, w.breaker, e.time);
    var probes := if begins then 0 else w.probes;
    var recorded := if begins then 0 else w.recorded;
    match e
    case Look(t) => w.(breaker := Settled(cfg, w.breaker, t), now := t, probes := probes, recorded := recorded)
    case Start(t) =>
      var (b, admitted) := Started(cfg, w.breaker, t);
      var inFlight: nat := if admitted then w.inFlight + 1 else w.inFlight;
      World(b, t, inFlight, if admitted then probes + 1 else probes, recorded, w.failures)
    case Finish(t, failed) =>
      var inFlight: nat := w.inFlight - 1;
      World(Finished(cfg, w.breaker, t, failed), t, inFlight, probes,
            if failed then recorded else recorded + 1, if failed then w.failures + [t] else w.failures)
  }

  predicate IsRun(cfg: Config, w: World, events: seq<Event>)
    decreases |events|
  {
    events == [] || (Enabled(w, events[0]) && IsRun(cfg, Step(cfg, w, events[0]), events[1..]))
  }

  function After(cfg: Config, w: World, events: seq<Event>): World
    decreases |events|
  {
    if events == [] || !Enabled(w, events[0]) then w else After(cfg, Step(cfg, w, events[0]), events[1..])
  }

  predicate Sensible(cfg: Config) {
    cfg.failureThreshold >= 1 && cfg.halfOpenMaxCalls >= 1
  }

  ghost predicate Invariant(cfg: Config, w: World) {
    var b := w.breaker;
    && (b.state == Closed ==> b.failureCount < cfg.failureThreshold)
    && b.failureCount >= 0
    && (b.lastFailure.None? <==> w.failures == [])
    && (b.lastFailure.Some? ==> b.lastFailure.value <= w.now && b.lastFailure.value in w.failures)
    && (forall t :: t in w.failures ==> t <= b.lastFailure.value)
    && (b.state == Open ==> b.lastFailure.Some?)
    && (b.state == HalfOpen ==>
          && b.halfOpenCalls == w.probes <= cfg.halfOpenMaxCalls
          && b.successCount == w.recorded < cfg.halfOpenMaxCalls
          && w.probes <= w.recorded + w.inFlight)
  }

  lemma StepKeepsInvariant(cfg: Config, w: World, e: Event)
    requires Sensible(cfg) && Invariant(cfg, w) && Enabled(w, e)
    ensures Invariant(cfg, Step(cfg, w, e))
  {
  }

  lemma {:induction false} RunsKeepInvariant(cfg: Config, w: World, events: seq<Event>)
    requires Sensible(cfg) && Invariant(cfg, w) && IsRun(cfg, w, events)
    ensures Invariant(cfg, After(cfg, w, events))
    decreases |events|
  {
    if events != [] {
      StepKeepsInvariant(cfg, w, events[0]);
      RunsKeepInvariant(cfg, Step(cfg, w, events[0]), events[1..]);
    }
  }

  /** In every run, a closed breaker has fewer failures than the threshold. */
  lemma ClosedIsBelowThreshold(cfg: Config, start: int, events: seq<Event>)
    requires Sensible(cfg) && IsRun(cfg, Begin(start), events)
    ensures var b := After(cfg, Begin(start), events).breaker;
      b.state == Closed ==> 0 <= b.failureCount < cfg.failureThreshold
  {
    RunsKeepInvariant(cfg, Begin(start), events);
  }

  /** In every run, an open breaker admits a call only when every failure so far is at least resetTimeout old. */
  lemma OpenFailsFast(cfg: Config, start: int, events: seq<Event>, now: int)
    requires Sensible(cfg) && IsRun(cfg, Begin(start), events)
    requires var w := After(cfg, Begin(start), events); w.now <= now && w.breaker.state == Open && Admits(cfg, w, now)
    ensures forall t :: t in After(cfg, Begin(start), events).failures ==> t + cfg.resetTimeout <= now
  {
    RunsKeepInvariant(cfg, Begin(start), events);
  }

  /** In every run, a half-open episode has admitted at most halfOpenMaxCalls probes. */
  lemma ProbesAreBounded(cfg: Config, start: int, events: seq<Event>)
    requires Sensible(cfg) && IsRun(cfg, Begin(start), events)
    ensures var w := After(cfg, Begin(start), events);
      w.breaker.state == HalfOpen ==> w.probes <= cfg.halfOpenMaxCalls
  {
    RunsKeepInvariant(cfg, Begin(start), events);
  }

  /** In every run, a half-open breaker with no call in flight admits the next call: it cannot get stuck. */
  lemma HalfOpenMakesProgress(cfg: Config, start: int, events: seq<Event>, now: int)
    requires Sensible(cfg) && IsRun(cfg, Begin(start), events)
    requires var w := After(cfg, Begin(start), events); w.breaker.state == HalfOpen && w.inFlight == 0
    ensures Admits(cfg, After(cfg, Begin(start), events), now)
  {
    RunsKeepInvariant(cfg, Begin(start), events);
  }

  /** In every run whose timeout has passed since the latest failure, an open breaker admits the next call, whatever is in flight. */
  lemma OpenRecovers(cfg: Config, start: int, events: seq<Event>, now: int)
    requires Sensible(cfg) && IsRun(cfg, Begin(start), events)
    requires After(cfg, Begin(start), events).breaker.state == Open
    requires forall t :: t in After(cfg, Begin(start), events).failures ==> t + cfg.resetTimeout <= now
    ensures Admits(cfg, After(cfg, Begin(start), events), now)
  {
    RunsKeepInvariant(cfg, Begin(start), events);
  }

  /**
   A breaker leaves half-open for closed exactly when the successes recorded in the episode reach
   halfOpenMaxCalls, and for open exactly on a failure.
   */
  lemma EpisodeEnds(cfg: Config, w: World, e: Event)
    requires Sensible(cfg) && Invariant(cfg, w) && Enabled(w, e) && w.breaker.state == HalfOpen
    ensures var after := Step(cfg, w, e);
      && (after.breaker.state == Closed <==> after.recorded == cfg.halfOpenMaxCalls && e.Finish? && !e.failed)
      && (after.breaker.state == Open <==> e.Finish? && e.failed)
      && (after.breaker.state == Closed ==> after.breaker.failureCount == 0)
  {
  }

  /** Calls in flight or recorded in this episode that were admitted before it began. */
  function Stale(w: World): int {
    w.recorded + w.inFlight - w.probes
  }

  /**
   Every success counted in an episode is a probe's or a stale call's, and the stale calls are exactly
   those in flight when the episode began.
   */
  lemma StaleCallsAreConserved(cfg: Config, w: World, e: Event)
    requires Sensible(cfg) && Invariant(cfg, w) && Enabled(w, e)
    ensures w.breaker.state == HalfOpen && !(e.Finish? && e.failed) ==> Stale(Step(cfg, w, e)) == Stale(w)
    ensures BecomesHalfOpen(cfg, w.breaker, e.time) && !(e.Finish? && e.failed) ==> Stale(Step(cfg, w, e)) == w.inFlight
  {
  }

  /** The events keep the breaker half-open until the last one closes it. */
  ghost predicate Closes(cfg: Config, w: World, events: seq<Event>)
    decreases |events|
  {
    && events != [] && Enabled(w, events[0])
    && var w1 := Step(cfg, w, events[0]);
      if |events| == 1 then w1.breaker.state == Closed else w1.breaker.state == HalfOpen && Closes(cfg, w1, events[1..])
  }

  /** An episode that closes has had probes for all of the required successes but those of its stale calls. */
  lemma {:induction false} ClosingTakesProbes(cfg: Config, w: World, events: seq<Event>)
    requires Sensible(cfg) && Invariant(cfg, w) && w.breaker.state == HalfOpen && Closes(cfg, w, events)
    ensures IsRun(cfg, w, events) && After(cfg, w, events).breaker.state == Closed
    ensures After(cfg, w, events).probes >= cfg.halfOpenMaxCalls - Stale(w)
    decreases |events|
  {
    var w1 := Step(cfg, w, events[0]);
    StepKeepsInvariant(cfg, w, events[0]);
    StaleCallsAreConserved(cfg, w, events[0]);
    if |events| == 1 {
      EpisodeEnds(cfg, w, events[0]);
      assert events[1..] == [];
    } else {
      ClosingTakesProbes(cfg, w1, events[1..]);
    }
  }

  /** With a stale call in the episode, the calls in flight and then single probes close the breaker with a probe fewer. */
  lemma {:induction false} StaleCallSparesProbe(cfg: Config, w: World) returns (events: seq<Event>)
    requires Sensible(cfg) && Invariant(cfg, w) && w.breaker.state == HalfOpen
    requires Stale(w) > 0 && w.probes < cfg.halfOpenMaxCalls
    ensures Closes(cfg, w, events) && After(cfg, w, events).probes < cfg.halfOpenMaxCalls
    decreases cfg.halfOpenMaxCalls - w.recorded, if w.inFlight > 0 then 0 else 1
  {
    var e := if w.inFlight > 0 then Finish(w.now, false) else Start(w.now);
    var w1 := Step(cfg, w, e);
    StepKeepsInvariant(cfg, w, e);
    StaleCallsAreConserved(cfg, w, e);
    if w1.breaker.state == Closed {
      events := [e];
      assert events[1..] == [];
    } else {
      var rest := StaleCallSparesProbe(cfg, w1);
      events := [e] + rest;
      assert events[1..] == rest;
    }
  }

  /** Every run that closes the episode has had the full number of probes. */
  ghost predicate OnlyProbesClose(cfg: Config, w: World) {
    forall events: seq<Event> :: Closes(cfg, w, events) ==> After(cfg, w, events).probes >= cfg.halfOpenMaxCalls
  }

  /** Only probes close the breaker if and only if no call was in flight when the episode began. */
  lemma OnlyProbesCloseIffNoneStale(cfg: Config, w: World)
    requires Sensible(cfg) && Invariant(cfg, w) && w.breaker.state == HalfOpen && w.probes < cfg.halfOpenMaxCalls
    ensures OnlyProbesClose(cfg, w) <==> Stale(w) == 0
  {
    if Stale(w) == 0 {
      forall events: seq<Event> | Closes(cfg, w, events)
        ensures After(cfg, w, events).probes >= cfg.halfOpenMaxCalls
      {
        ClosingTakesProbes(cfg, w, events);
      }
    } else {
      var events := StaleCallSparesProbe(cfg, w);
      assert !OnlyProbesClose(cfg, w);
    }
  }

  /** An episode that begins by a look, from an open breaker: only probes close it exactly if nothing was in flight. */
  lemma EpisodeFromOpen(cfg: Config, w: World, now: int)
    requires Sensible(cfg) && Invariant(cfg, w) && BecomesHalfOpen(cfg, w.breaker, now) && w.now <= now
    ensures OnlyProbesClose(cfg, Step(cfg, w, Look(now))) <==> w.inFlight == 0
  {
    StepKeepsInvariant(cfg, w, Look(now));
    StaleCallsAreConserved(cfg, w, Look(now));
    OnlyProbesCloseIffNoneStale(cfg, Step(cfg, w, Look(now)));
  }

  /**
   An instance: a call admitted before the breaker opened is the one that closes it, without a single probe.
   */
  lemma StaleSuccessClosesBreaker()
    ensures var cfg := Config(1, 10, 1);
      var events := [Start(0), Start(0), Finish(1, true), Look(11), Finish(12, false)];
      && IsRun(cfg, Begin(0), events)
      && IsRun(cfg, Begin(0), events[..4])
      && After(cfg, Begin(0), events[..4]).breaker.state == HalfOpen
      && After(cfg, Begin(0), events[..4]).probes == 0
      && After(cfg, Begin(0), events).breaker.state == Closed
      && After(cfg, Begin(0), events).probes == 0
  {
    var cfg := Config(1, 10, 1);
    var events := [Start(0), Start(0), Finish(1, true), Look(11), Finish(12, false)];
    var w1 := Step(cfg, Begin(0), events[0]);
    var w2 := Step(cfg, w1, events[1]);
    var w3 := Step(cfg, w2, events[2]);
    var w4 := Step(cfg, w3, events[3]);
    RunThen(cfg, w4, events[4], []);
    RunThen(cfg, w3, events[3], []);
    RunThen(cfg, w3, events[3], [events[4]]);
    RunThen(cfg, w2, events[2], [events[3]]);
    RunThen(cfg, w2, events[2], [events[3], events[4]]);
    RunThen(cfg, w1, events[1], [events[2], events[3]]);
    RunThen(cfg, w1, events[1], [events[2], events[3], events[4]]);
    RunThen(cfg, Begin(0), events[0], [events[1], events[2], events[3]]);
    RunThen(cfg, Begin(0), events[0], [events[1], events[2], events[3], events[4]]);
    assert events[..4] == [events[0], events[1], events[2], events[3]];
  }

  lemma RunThen(cfg: Config, w: World, e: Event, rest: seq<Event>)
    requires Enabled(w, e) && IsRun(cfg, Step(cfg, w, e), rest)
    ensures IsRun(cfg, w, [e] + rest)
    ensures After(cfg, w, [e] + rest) == After(cfg, Step(cfg, w, e), rest)
  {
    assert ([e] + rest)[1..] == rest;
  }
}
