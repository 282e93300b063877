/** What somebody who only sees the calls finish can tell of the circuit breaker. */
module CircuitBreakerObserved {
  import opened Common
  import opened CircuitBreaker

  /** The failures in a row: those that finished while closed since the last such success, or since the breaker last closed. */
  function NextStreak(before: State, e: Event, after: State, streak: nat): nat {
    if before.Closed? && e.Finish? then if e.failed then streak + 1 else 0
    else if !before.Closed? && after.Closed? then 0
    else streak
  }

  function StreakFrom(cfg: Config, w: World, events: seq<Event>, streak: nat): nat
    decreases |events|
  {
    if events == [] || !Enabled(w, events[0]) then streak
    else
      var next := Step(cfg, w, events[0]);
      StreakFrom(cfg, next, events[1..], NextStreak(w.breaker.state, events[0], next.breaker.state, streak))
  }

  function Streak(cfg: Config, start: int, events: seq<Event>): nat {
    StreakFrom(cfg, Begin(start), events, 0)
  }

  lemma {:induction false} CountIsStreak(cfg: Config, w: World, events: seq<Event>, streak: nat)
    requires Sensible(cfg) && Invariant(cfg, w) && IsRun(cfg, w, events)
    requires w.breaker.state.Closed? ==> w.breaker.failureCount == streak
    ensures var after := After(cfg, w, events).breaker;
      after.state.Closed? ==> after.failureCount == StreakFrom(cfg, w, events, streak)
    decreases |events|
  {
    if events != [] {
      var next := Step(cfg, w, events[0]);
      StepKeepsInvariant(cfg, w, events[0]);
      CountIsStreak(cfg, next, events[1..], NextStreak(w.breaker.state, events[0], next.breaker.state, streak));
    }
  }

  /**
   In every run: a closed breaker admits every call, and opens exactly at the failure that makes the failures in a row
   reach the threshold; until then they are fewer, and no other event changes its state.
   */
  lemma OpensExactlyAtThreshold(cfg: Config, start: int, events: seq<Event>, e: Event)
    requires Sensible(cfg) && IsRun(cfg, Begin(start), events)
    requires var w := After(cfg, Begin(start), events); w.breaker.state.Closed? && Enabled(w, e)
    ensures var w, streak := After(cfg, Begin(start), events), Streak(cfg, start, events);
      && streak < cfg.failureThreshold && Admits(cfg, w, e.time)
      && Step(cfg, w, e).breaker.state == if e.Finish? && e.failed && streak + 1 == cfg.failureThreshold then Open else Closed
  {
    RunsKeepInvariant(cfg, Begin(start), events);
    CountIsStreak(cfg, Begin(start), events, 0);
  }

  /**
   In every run: an open breaker stays open and rejects while some failure is younger than the timeout; after that a
   look makes it half-open, a start is the first probe, and a finished call counts as the episode's first outcome.
   */
  lemma OpenWaitsForTimeout(cfg: Config, start: int, events: seq<Event>, e: Event)
    requires Sensible(cfg) && IsRun(cfg, Begin(start), events)
    requires var w := After(cfg, Begin(start), events); w.breaker.state.Open? && Enabled(w, e)
    ensures var w := After(cfg, Begin(start), events);
      var next, waited := Step(cfg, w, e), forall t :: t in w.failures ==> e.time - t >= cfg.resetTimeout;
      && (Admits(cfg, w, e.time) <==> waited)
      && (!waited ==> next.breaker.state == Open)
      && (waited && e.Look? ==> next.breaker.state == HalfOpen && next.probes == 0 && next.recorded == 0)
      && (waited && e.Start? ==> next.breaker.state == HalfOpen && next.probes == 1 && next.recorded == 0)
      && (waited && e.Finish? ==>
            next.breaker.state == if e.failed then Open else if cfg.halfOpenMaxCalls == 1 then Closed else HalfOpen)
  {
    RunsKeepInvariant(cfg, Begin(start), events);
  }

  /** In every run: a half-open breaker admits exactly while it has probes left, and every admission takes one. */
  lemma HalfOpenAdmitsProbes(cfg: Config, start: int, events: seq<Event>, now: int)
    requires Sensible(cfg) && IsRun(cfg, Begin(start), events)
    requires var w := After(cfg, Begin(start), events); w.breaker.state.HalfOpen? && w.now <= now
    ensures var w := After(cfg, Begin(start), events);
      && (Admits(cfg, w, now) <==> w.probes < cfg.halfOpenMaxCalls)
      && Step(cfg, w, Start(now)).probes == w.probes + (if w.probes < cfg.halfOpenMaxCalls then 1 else 0)
      && Step(cfg, w, Start(now)).breaker.state == HalfOpen && Step(cfg, w, Look(now)).breaker.state == HalfOpen
  {
    RunsKeepInvariant(cfg, Begin(start), events);
  }
}
