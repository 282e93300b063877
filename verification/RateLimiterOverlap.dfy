/** Calls of the limiter that count before the insertions of others: how far the limit can be exceeded. */
module RateLimiterOverlap {
  import opened RateLimiter

  /** Requests of time 0: some stored, the others admitted but not yet inserted; names below n. */
  ghost predicate Overlaps(w: World, stored: nat, n: nat) {
    && w.entries !! w.transit && w.admitted == w.entries + w.transit && w.doomed == {} && w.pending == {} && w.now == 0
    && |w.entries| == stored && |w.admitted| == n
    && forall e :: e in w.admitted ==> e.time == 0 && e.name < n
  }

  /** The events lead from one world to the other, cleanly. */
  ghost predicate Leads(l: Limit, w: World, events: seq<Event>, t: World, k: nat)
    decreases |events|
  {
    if events == [] then w == t
    else Enabled(w, events[0]) && StepIsClean(w, events[0], k) && Leads(l, Step(l, w, events[0]), events[1..], t, k)
  }

  lemma {:induction false} LeadsIsRun(l: Limit, w: World, events: seq<Event>, t: World, k: nat)
    requires Leads(l, w, events, t, k)
    ensures IsRun(l, w, events) && IsClean(l, w, events, k) && After(l, w, events) == t
    decreases |events|
  {
    if events != [] {
      LeadsIsRun(l, Step(l, w, events[0]), events[1..], t, k);
    }
  }

  lemma LeadsThen(l: Limit, w: World, e: Event, rest: seq<Event>, t: World, k: nat)
    requires Enabled(w, e) && StepIsClean(w, e, k) && Leads(l, Step(l, w, e), rest, t, k)
    ensures Leads(l, w, [e] + rest, t, k)
  {
    assert ([e] + rest)[1..] == rest;
  }

  /** One more request is counted, and admitted since the store is below the limit. */
  lemma CountOne(l: Limit, w: World, stored: nat, n: nat) returns (t: World)
    requires Overlaps(w, stored, n) && stored < l.maxRequests && l.windowSeconds >= 1
    ensures var e := Count(Entry(0, n)); Enabled(w, e) && Step(l, w, e) == t && StepIsClean(w, e, n - stored)
    ensures Overlaps(t, stored, n + 1) && t.transit == w.transit + {Entry(0, n)}
  {
    BelowLimit(l, w, stored, n);
    CountAdmits(l, w, Entry(0, n));
    t := WithAdmitted(w, stored, n);
  }

  lemma BelowLimit(l: Limit, w: World, stored: nat, n: nat)
    requires Overlaps(w, stored, n) && stored < l.maxRequests && l.windowSeconds >= 1
    ensures Unexpired(w.entries, 0 - WindowMs(l)) == w.entries && Allows(l, w.entries, 0)
    ensures Unused(w, Entry(0, n)) && |w.transit| == n - stored
  {
    assert Unexpired(w.entries, 0 - WindowMs(l)) == w.entries;
    assert |w.admitted| == |w.entries| + |w.transit|;
  }

  lemma CountAdmits(l: Limit, w: World, entry: Entry)
    requires Allows(l, w.entries, entry.time) && Unexpired(w.entries, entry.time - WindowMs(l)) == w.entries && w.now == entry.time
    ensures Step(l, w, Count(entry)) == w.(transit := w.transit + {entry}, admitted := w.admitted + {entry})
  {
  }

  lemma WithAdmitted(w: World, stored: nat, n: nat) returns (t: World)
    requires Overlaps(w, stored, n)
    ensures t == w.(transit := w.transit + {Entry(0, n)}, admitted := w.admitted + {Entry(0, n)}) && Overlaps(t, stored, n + 1)
  {
    t := w.(transit := w.transit + {Entry(0, n)}, admitted := w.admitted + {Entry(0, n)});
  }

  lemma AddOne(l: Limit, w: World, entry: Entry, stored: nat, n: nat, k: nat) returns (t: World)
    requires Overlaps(w, stored, n) && entry in w.transit
    ensures Enabled(w, Add(entry)) && Step(l, w, Add(entry)) == t && StepIsClean(w, Add(entry), k)
    ensures Overlaps(t, stored + 1, n)
  {
    t := World(w.entries + {entry}, w.transit - {entry}, {}, {}, w.admitted, 0);
  }

  /** Some more are counted before any of them is inserted. */
  lemma {:induction false} CountUpTo(l: Limit, w: World, stored: nat, n: nat, total: nat, k: nat) returns (events: seq<Event>, t: World)
    requires Overlaps(w, stored, n) && stored < l.maxRequests && n <= total <= stored + k + 1 && l.windowSeconds >= 1
    ensures Leads(l, w, events, t, k) && Overlaps(t, stored, total)
    decreases total - n
  {
    if n == total {
      return [], w;
    }
    assert |w.admitted| == |w.entries| + |w.transit|;
    var w1 := CountOne(l, w, stored, n);
    events, t := CountUpTo(l, w1, stored, n + 1, total, k);
    LeadsThen(l, w, Count(Entry(0, n)), events, t, k);
    events := [Count(Entry(0, n))] + events;
  }

  /** Requests below the limit are counted and inserted one after the other; then the others are counted. */
  lemma {:induction false} StoreThenCount(l: Limit, w: World, n: nat, stored: nat, total: nat, k: nat) returns (events: seq<Event>, t: World)
    requires Overlaps(w, n, n) && n <= stored < l.maxRequests && stored <= total <= stored + k + 1 && l.windowSeconds >= 1
    ensures Leads(l, w, events, t, k) && Overlaps(t, stored, total)
    decreases stored - n
  {
    if n == stored {
      events, t := CountUpTo(l, w, n, n, total, k);
      return;
    }
    var w1 := CountOne(l, w, n, n);
    var w2 := AddOne(l, w1, Entry(0, n), n, n + 1, k);
    events, t := StoreThenCount(l, w2, n + 1, stored, total, k);
    events := StoreFirst(l, w, w1, Entry(0, n), events, t, k);
  }

  lemma StoreFirst(l: Limit, w: World, w1: World, entry: Entry, rest: seq<Event>, t: World, k: nat) returns (events: seq<Event>)
    requires Enabled(w, Count(entry)) && Step(l, w, Count(entry)) == w1 && StepIsClean(w, Count(entry), k)
    requires Enabled(w1, Add(entry)) && StepIsClean(w1, Add(entry), k) && Leads(l, Step(l, w1, Add(entry)), rest, t, k)
    ensures Leads(l, w, events, t, k)
  {
    LeadsThen(l, w1, Add(entry), rest, t, k);
    LeadsThen(l, w, Count(entry), [Add(entry)] + rest, t, k);
    events := [Count(entry)] + ([Add(entry)] + rest);
  }

  lemma HeldByOverlap(l: Limit, w: World, stored: nat, n: nat)
    requires Overlaps(w, stored, n) && l.windowSeconds >= 1
    ensures Held(l, w.admitted, 0) == n
  {
    assert Within(w.admitted, 0 - WindowMs(l), 0) == w.admitted;
  }

  /** The bound is reached: with k insertions outstanding at a count, a window can hold maxRequests + k requests. */
  lemma OverlapIsReached(l: Limit, k: nat) returns (events: seq<Event>)
    requires l.maxRequests >= 1 && l.windowSeconds >= 1
    ensures IsRun(l, EMPTY, events) && IsClean(l, EMPTY, events, k)
    ensures Held(l, After(l, EMPTY, events).admitted, 0) == l.maxRequests + k
  {
    var t;
    events, t := StoreThenCount(l, EMPTY, 0, l.maxRequests - 1, l.maxRequests + k, k);
    LeadsIsRun(l, EMPTY, events, t, k);
    HeldByOverlap(l, t, l.maxRequests - 1, l.maxRequests + k);
  }

  /** No window ever holds more than maxRequests requests, in any such interleaving. */
  ghost predicate LimitHolds(l: Limit, k: nat) {
    forall events: seq<Event> :: IsRun(l, EMPTY, events) && IsClean(l, EMPTY, events, k) ==> NoWindowExceeds(l, After(l, EMPTY, events).admitted)
  }

  ghost predicate NoWindowExceeds(l: Limit, admitted: set<Entry>) {
    forall to: int :: Held(l, admitted, to) <= l.maxRequests
  }

  /** The limit itself holds if and only if no insertion of an admitted request is outstanding when another call counts. */
  lemma LimitHoldsIffNoOverlap(l: Limit, k: nat)
    requires l.maxRequests >= 1 && l.windowSeconds >= 1
    ensures LimitHolds(l, k) <==> k == 0
  {
    if k == 0 {
      forall events: seq<Event> | IsRun(l, EMPTY, events) && IsClean(l, EMPTY, events, k)
        ensures NoWindowExceeds(l, After(l, EMPTY, events).admitted)
      {
        forall to: int
          ensures Held(l, After(l, EMPTY, events).admitted, to) <= l.maxRequests
        {
          EveryWindowIsBounded(l, events, 0, to);
        }
      }
    } else {
      var events := OverlapIsReached(l, k);
      assert Held(l, After(l, EMPTY, events).admitted, 0) > l.maxRequests;
      assert !NoWindowExceeds(l, After(l, EMPTY, events).admitted);
    }
  }
}
