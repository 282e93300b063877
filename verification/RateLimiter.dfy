/**
 The sliding-window limiter over a sorted set with an expiring key. The commands of one call are sent
 in a row but not as a transaction: between its count, its insertion and, when it is rejected, the
 command that takes the entry back, commands of other calls may come.
 */
module RateLimiter {
  import opened Common

  /** A member of the sorted set: its score in milliseconds and its unique name, here a number. */
  datatype Entry = Entry(time: int, name: nat)

  datatype Limit = Limit(maxRequests: nat, windowSeconds: nat)

  function WindowMs(l: Limit): nat {
    l.windowSeconds * 1000
  }

  /** Redis removes the scores from 0 up to the start of the window. */
  function Unexpired(entries: set<Entry>, windowStart: int): set<Entry> {
    set e | e in entries && !(0 <= e.time <= windowStart)
  }

  function WithoutTime(entries: set<Entry>, time: int): set<Entry> {
    set e | e in entries && e.time != time
  }

  /** Entries with time in (from, to]. */
  function Within(entries: set<Entry>, from: int, to: int): set<Entry> {
    set e | e in entries && from < e.time <= to
  }

  function Allows(l: Limit, entries: set<Entry>, now: int): bool {
    |Unexpired(entries, now - WindowMs(l))| < l.maxRequests
  }

  // ----- One call without interleaving -----

  class SlidingWindow {
    const limit: Limit
    var entries: set<Entry>
    var expiresAt: int

    constructor (limit: Limit)
      ensures this.limit == limit && entries == {}
    {
      this.limit, entries, expiresAt := limit, {}, 0;
    }

    /** The instance's clock stamps the entry, the server's clock expires the key. */
    method CheckRateLimit(e: Entry, serverNow: int) returns (allowed: bool, remaining: nat, resetAt: int)
      modifies this
      ensures var stored := if old(expiresAt) <= serverNow then {} else old(entries);
        var counted := Unexpired(stored, e.time - WindowMs(limit));
        && allowed == Allows(limit, stored, e.time)
        && entries == (if allowed then counted + {e} else WithoutTime(counted + {e}, e.time))
        && remaining == if allowed then limit.maxRequests - 1 - |counted| else 0
      ensures resetAt * 1000 >= e.time + WindowMs(limit) > (resetAt - 1) * 1000
      ensures expiresAt == serverNow + WindowMs(limit)
    {
      if expiresAt <= serverNow {
        entries := {};
      }
      resetAt := (e.time + WindowMs(limit) + 999) / 1000;
      entries := Unexpired(entries, e.time - WindowMs(limit));
      var currentCount := |entries|;
      entries := entries + {e};
      expiresAt := serverNow + WindowMs(limit);
      allowed := currentCount < limit.maxRequests;
      var left := limit.maxRequests - currentCount - (if allowed then 1 else 0);
      remaining := if left < 0 then 0 else left;
      if !allowed {
        entries := WithoutTime(entries, e.time);
      }
    }
  }

  /** Where both clocks are one, an expired key held nothing of the window: its expiry changes no answer. */
  lemma KeyExpiryChangesNothing(l: Limit, entries: set<Entry>, expiresAt: int, now: int)
    requires forall e :: e in entries ==> 0 <= e.time && e.time + WindowMs(l) <= expiresAt
    requires expiresAt <= now
    ensures Unexpired(entries, now - WindowMs(l)) == Unexpired({}, now - WindowMs(l))
  {
  }

  // ----- Runs of interleaved calls -----

  /**
   The stored entries; admitted requests whose insertion is outstanding (transit); rejected ones whose
   insertion is outstanding (doomed) or whose removal is (pending); and all admitted requests.
   */
  datatype World = World(entries: set<Entry>, transit: set<Entry>, doomed: set<Entry>, pending: set<Entry>, admitted: set<Entry>, now: int)

  datatype Event = Count(entry: Entry) | Add(entry: Entry) | TakeBack(entry: Entry)

  const EMPTY := World({}, {}, {}, {}, {}, 0)

  predicate Unused(w: World, entry: Entry) {
    entry !in w.entries && entry !in w.transit && entry !in w.doomed && entry !in w.pending && entry !in w.admitted
  }

  /** Request times do not decrease; several requests may share a millisecond. */
  predicate Enabled(w: World, e: Event) {
    match e
    case Count(entry) => w.now <= entry.time && Unused(w, entry)
    case Add(entry) => entry in w.transit || entry in w.doomed
    case TakeBack(entry) => entry in w.pending
  }

  function Step(l: Limit, w: World, e: Event): World {
    match e
    case Count(entry) =>
      var left := w.(entries := Unexpired(w.entries, entry.time - WindowMs(l)), now := entry.time);
      if Allows(l, w.entries, entry.time) then left.(transit := w.transit + {entry}, admitted := w.admitted + {entry})
      else left.(doomed := w.doomed + {entry})
    case Add(entry) =>
      if entry in w.transit then w.(entries := w.entries + {entry}, transit := w.transit - {entry})
      else w.(entries := w.entries + {entry}, doomed := w.doomed - {entry}, pending := w.pending + {entry})
    case TakeBack(entry) => w.(entries := WithoutTime(w.entries, entry.time), pending := w.pending - {entry})
  }

  predicate IsRun(l: Limit, w: World, events: seq<Event>)
    decreases |events|
  {
    events == [] || (Enabled(w, events[0]) && IsRun(l, Step(l, w, events[0]), events[1..]))
  }

  function After(l: Limit, w: World, events: seq<Event>): World
    decreases |events|
  {
    if events == [] then w else After(l, Step(l, w, events[0]), events[1..])
  }

  /** Taking the entry back would also remove an admitted request of the same millisecond. */
  predicate Shared(w: World, time: int) {
    exists e :: e in w.entries * w.admitted && e.time == time
  }

  /** No removal meets a stored admitted request, and at most k insertions of admitted requests are outstanding at any count. */
  predicate IsClean(l: Limit, w: World, events: seq<Event>, k: nat)
    decreases |events|
  {
    events == [] || (StepIsClean(w, events[0], k) && IsClean(l, Step(l, w, events[0]), events[1..], k))
  }

  predicate StepIsClean(w: World, e: Event, k: nat) {
    (e.TakeBack? ==> !Shared(w, e.entry.time)) && (e.Count? ==> |w.transit| <= k)
  }

  // ----- The invariant of clean runs -----

  /** The store holds the admitted requests of the window but those in transit, and besides them only rejected ones not yet taken back. */
  ghost predicate Exact(l: Limit, w: World) {
    && (forall e :: e in w.entries || e in w.admitted || e in w.doomed || e in w.pending ==> 0 <= e.time <= w.now)
    && w.transit <= w.admitted
    && w.transit !! w.entries && w.doomed !! w.entries && w.doomed !! w.admitted && w.pending !! w.admitted
    && (forall e :: e in w.entries ==> e in w.admitted || e in w.pending)
    && (forall e :: e in w.admitted && e !in w.transit && w.now - WindowMs(l) < e.time ==> e in w.entries)
    && w.now >= 0
  }

  /** The admitted requests of the window that ends at a time. */
  function Held(l: Limit, admitted: set<Entry>, to: int): nat {
    |Within(admitted, to - WindowMs(l), to)|
  }

  /** No window that ends with an admitted request holds more than the given number of them. */
  ghost predicate Bounded(l: Limit, admitted: set<Entry>, most: nat) {
    forall e :: e in admitted ==> Held(l, admitted, e.time) <= most
  }

  lemma CountKeepsExact(l: Limit, w: World, entry: Entry)
    requires Exact(l, w) && Enabled(w, Count(entry))
    ensures Exact(l, Step(l, w, Count(entry)))
  {
  }

  lemma AddKeepsExact(l: Limit, w: World, entry: Entry)
    requires Exact(l, w) && Enabled(w, Add(entry))
    ensures Exact(l, Step(l, w, Add(entry)))
  {
  }

  lemma TakeBackKeepsExact(l: Limit, w: World, entry: Entry)
    requires Exact(l, w) && Enabled(w, TakeBack(entry)) && !Shared(w, entry.time)
    ensures Exact(l, Step(l, w, TakeBack(entry)))
  {
    forall e | e in w.admitted && e !in w.transit && w.now - WindowMs(l) < e.time
      ensures e in WithoutTime(w.entries, entry.time)
    {
      assert e in w.entries * w.admitted;
    }
  }

  lemma StepKeepsExact(l: Limit, w: World, e: Event)
    requires Exact(l, w) && Enabled(w, e) && (e.TakeBack? ==> !Shared(w, e.entry.time))
    ensures Exact(l, Step(l, w, e))
  {
    match e
    case Count(entry) => CountKeepsExact(l, w, entry);
    case Add(entry) => AddKeepsExact(l, w, entry);
    case TakeBack(entry) => TakeBackKeepsExact(l, w, entry);
  }

  /** The store misses only what is in transit, so an admitted request exceeds the limit by no more than that. */
  lemma AdmittedFits(l: Limit, w: World, entry: Entry, k: nat)
    requires Exact(l, w) && w.now <= entry.time && |w.transit| <= k && Allows(l, w.entries, entry.time)
    ensures Held(l, w.admitted + {entry}, entry.time) <= l.maxRequests + k
  {
    var from := entry.time - WindowMs(l);
    var stored := Unexpired(w.entries, from);
    SubsetIsSmaller(Within(w.admitted + {entry}, from, entry.time), stored + w.transit + {entry});
  }

  /** A later request is outside every earlier window. */
  lemma LaterIsOutside(l: Limit, admitted: set<Entry>, entry: Entry, time: int)
    requires time < entry.time
    ensures Held(l, admitted + {entry}, time) == Held(l, admitted, time)
  {
    assert Within(admitted + {entry}, time - WindowMs(l), time) == Within(admitted, time - WindowMs(l), time);
  }

  lemma AdmissionKeepsBound(l: Limit, admitted: set<Entry>, entry: Entry, most: nat)
    requires Bounded(l, admitted, most) && forall e :: e in admitted ==> e.time <= entry.time
    requires Held(l, admitted + {entry}, entry.time) <= most
    ensures Bounded(l, admitted + {entry}, most)
  {
    forall f | f in admitted + {entry}
      ensures Held(l, admitted + {entry}, f.time) <= most
    {
      if f.time < entry.time {
        LaterIsOutside(l, admitted, entry, f.time);
      } else {
        assert f.time == entry.time;
      }
    }
  }

  lemma StepKeepsBound(l: Limit, w: World, e: Event, k: nat)
    requires Exact(l, w) && Bounded(l, w.admitted, l.maxRequests + k) && Enabled(w, e) && StepIsClean(w, e, k)
    ensures Bounded(l, Step(l, w, e).admitted, l.maxRequests + k)
  {
    if e.Count? {
      CountKeepsBound(l, w, e.entry, k);
    }
  }

  lemma CountKeepsBound(l: Limit, w: World, entry: Entry, k: nat)
    requires Exact(l, w) && Bounded(l, w.admitted, l.maxRequests + k) && w.now <= entry.time && |w.transit| <= k
    ensures Bounded(l, Step(l, w, Count(entry)).admitted, l.maxRequests + k)
  {
    if Allows(l, w.entries, entry.time) {
      AdmittedFits(l, w, entry, k);
      AdmissionKeepsBound(l, w.admitted, entry, l.maxRequests + k);
    }
  }

  lemma {:induction false} RunsKeepExact(l: Limit, w: World, events: seq<Event>, k: nat)
    requires Exact(l, w) && Bounded(l, w.admitted, l.maxRequests + k) && IsRun(l, w, events) && IsClean(l, w, events, k)
    ensures Exact(l, After(l, w, events)) && Bounded(l, After(l, w, events).admitted, l.maxRequests + k)
    decreases |events|
  {
    if events != [] {
      StepKeepsExact(l, w, events[0]);
      StepKeepsBound(l, w, events[0], k);
      RunsKeepExact(l, Step(l, w, events[0]), events[1..], k);
    }
  }

  lemma LatestOf(s: set<Entry>) returns (latest: Entry)
    requires s != {}
    ensures latest in s && forall e :: e in s ==> e.time <= latest.time
    decreases |s|
  {
    latest :| latest in s;
    if s != {latest} {
      var other := LatestOf(s - {latest});
      if latest.time < other.time {
        latest := other;
      }
      assert forall e :: e in s ==> e in s - {latest} || e == latest;
    }
  }

  lemma BoundedEverywhere(l: Limit, admitted: set<Entry>, most: nat, to: int)
    requires Bounded(l, admitted, most)
    ensures Held(l, admitted, to) <= most
  {
    var inside := Within(admitted, to - WindowMs(l), to);
    if inside != {} {
      var last := LatestOf(inside);
      SubsetIsSmaller(inside, Within(admitted, last.time - WindowMs(l), last.time));
    }
  }

  /**
   In every interleaving whose removals meet no stored admitted request, and in which at most k insertions
   are outstanding at any count, every window of windowSeconds, wherever it ends, contains at most
   maxRequests + k admitted requests. Where each call's count and insertion follow each other at once, k is 0.
   */
  lemma EveryWindowIsBounded(l: Limit, events: seq<Event>, k: nat, to: int)
    requires IsRun(l, EMPTY, events) && IsClean(l, EMPTY, events, k)
    ensures Held(l, After(l, EMPTY, events).admitted, to) <= l.maxRequests + k
  {
    RunsKeepExact(l, EMPTY, events, k);
    BoundedEverywhere(l, After(l, EMPTY, events).admitted, l.maxRequests + k, to);
  }

  // ----- When a request is rejected -----

  lemma StoredSplits(l: Limit, w: World, now: int)
    requires Exact(l, w) && w.now <= now
    ensures var from := now - WindowMs(l);
      |Unexpired(w.entries, from)| == |Within(w.admitted - w.transit, from, now)| + |Within(w.pending * w.entries, from, now)|
  {
    var from := now - WindowMs(l);
    var a, r := Within(w.admitted - w.transit, from, now), Within(w.pending * w.entries, from, now);
    assert a !! r;
    assert Unexpired(w.entries, from) == a + r;
  }

  /**
   In every such interleaving a request is rejected exactly when the admitted requests of its window, those in
   transit aside, and the rejected ones still stored there number at least maxRequests.
   */
  lemma RejectedIffStoreIsFull(l: Limit, events: seq<Event>, k: nat, now: int)
    requires IsRun(l, EMPTY, events) && IsClean(l, EMPTY, events, k) && After(l, EMPTY, events).now <= now
    ensures var w, from := After(l, EMPTY, events), now - WindowMs(l);
      !Allows(l, w.entries, now)
      <==> |Within(w.admitted - w.transit, from, now)| + |Within(w.pending * w.entries, from, now)| >= l.maxRequests
  {
    RunsKeepExact(l, EMPTY, events, k);
    StoredSplits(l, After(l, EMPTY, events), now);
  }

  lemma RunThen(l: Limit, w: World, e: Event, rest: seq<Event>, k: nat)
    requires Enabled(w, e) && StepIsClean(w, e, k)
    requires IsRun(l, Step(l, w, e), rest) && IsClean(l, Step(l, w, e), rest, k)
    ensures IsRun(l, w, [e] + rest) && IsClean(l, w, [e] + rest, k)
    ensures After(l, w, [e] + rest) == After(l, Step(l, w, e), rest)
  {
    assert ([e] + rest)[1..] == rest;
  }

  // ----- Rejected entries not yet taken back -----

  /**
   An instance of RejectedIffStoreIsFull: the second request is rejected and not yet taken back when the third
   comes, whose window holds no admitted request any more.
   */
  lemma PendingEntryCausesRejection()
    ensures var l, a, b := Limit(1, 60), Entry(1, 0), Entry(2, 1);
      var events := [Count(a), Add(a), Count(b), Add(b)];
      var w := After(l, EMPTY, events);
      && IsRun(l, EMPTY, events) && IsClean(l, EMPTY, events, 0)
      && !Allows(l, w.entries, 60_001)
      && Within(w.admitted, 60_001 - WindowMs(l), 60_001) == {}
  {
    var l, a, b := Limit(1, 60), Entry(1, 0), Entry(2, 1);
    var w1 := Step(l, EMPTY, Count(a));
    assert Unexpired({}, 1 - WindowMs(l)) == {};
    assert w1 == World({}, {a}, {}, {}, {a}, 1);
    var w2 := Step(l, w1, Add(a));
    assert w2 == World({a}, {}, {}, {}, {a}, 1);
    assert Unexpired({a}, 2 - WindowMs(l)) == {a};
    var w3 := Step(l, w2, Count(b));
    assert w3 == World({a}, {}, {b}, {}, {a}, 2);
    var w4 := Step(l, w3, Add(b));
    assert w4 == World({a, b}, {}, {}, {b}, {a}, 2);
    assert Unexpired({a, b}, 60_001 - WindowMs(l)) == {b};
    RunThen(l, w3, Add(b), [], 0);
    RunThen(l, w2, Count(b), [Add(b)], 0);
    RunThen(l, w1, Add(a), [Count(b), Add(b)], 0);
    RunThen(l, EMPTY, Count(a), [Add(a), Count(b), Add(b)], 0);
  }
}
