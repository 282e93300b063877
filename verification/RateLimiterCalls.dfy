/** Calls of the limiter that follow one another without interleaving. */
module RateLimiterCalls {
  import opened Common
  import opened RateLimiter

  // ----- Calls that do not interleave -----

  /** The commands of one call in a row. */
  function CallEvents(l: Limit, w: World, entry: Entry): seq<Event> {
    [Count(entry), Add(entry)] + if Allows(l, w.entries, entry.time) then [] else [TakeBack(entry)]
  }

  function Call(l: Limit, w: World, entry: Entry): World {
    var added := Step(l, Step(l, w, Count(entry)), Add(entry));
    if Allows(l, w.entries, entry.time) then added else Step(l, added, TakeBack(entry))
  }

  /** A call is the run of its commands; taken singly, none of its counts meets an outstanding insertion. */
  lemma CallIsRun(l: Limit, w: World, entry: Entry)
    requires AtRest(w) && w.now <= entry.time && Unused(w, entry)
    requires Allows(l, w.entries, entry.time) || !SharedInWindow(l, w, entry.time)
    ensures var events := CallEvents(l, w, entry);
      IsRun(l, w, events) && IsClean(l, w, events, 0) && After(l, w, events) == Call(l, w, entry)
  {
    var counted := Step(l, w, Count(entry));
    var added := Step(l, counted, Add(entry));
    if Allows(l, w.entries, entry.time) {
      RunThen(l, counted, Add(entry), [], 0);
      RunThen(l, w, Count(entry), [Add(entry)], 0);
      assert [Count(entry), Add(entry)] + [] == [Count(entry)] + [Add(entry)];
    } else {
      RunThen(l, added, TakeBack(entry), [], 0);
      RunThen(l, counted, Add(entry), [TakeBack(entry)], 0);
      RunThen(l, w, Count(entry), [Add(entry), TakeBack(entry)], 0);
      assert [Count(entry), Add(entry)] + [TakeBack(entry)] == [Count(entry)] + [Add(entry), TakeBack(entry)];
    }
  }

  function AfterCalls(l: Limit, w: World, calls: seq<Entry>): World
    decreases |calls|
  {
    if calls == [] then w else AfterCalls(l, Call(l, w, calls[0]), calls[1..])
  }

  /** Calls at times that do not decrease, each with a name of its own. */
  predicate AreCalls(l: Limit, w: World, calls: seq<Entry>)
    decreases |calls|
  {
    calls == [] || (w.now <= calls[0].time && Unused(w, calls[0]) && AreCalls(l, Call(l, w, calls[0]), calls[1..]))
  }

  /** No call is rejected in the millisecond of a stored admitted request. */
  predicate RejectionsStandAlone(l: Limit, w: World, calls: seq<Entry>)
    decreases |calls|
  {
    calls == [] || ((Allows(l, w.entries, calls[0].time) || !SharedInWindow(l, w, calls[0].time))
                    && RejectionsStandAlone(l, Call(l, w, calls[0]), calls[1..]))
  }

  /** Some admitted request of the millisecond is still stored once the window has moved on. */
  predicate SharedInWindow(l: Limit, w: World, time: int) {
    exists e :: e in Unexpired(w.entries, time - WindowMs(l)) * w.admitted && e.time == time
  }

  predicate AtRest(w: World) {
    w.transit == {} && w.doomed == {} && w.pending == {}
  }

  lemma CallKeepsExact(l: Limit, w: World, entry: Entry)
    requires Exact(l, w) && AtRest(w) && Bounded(l, w.admitted, l.maxRequests) && w.now <= entry.time && Unused(w, entry)
    requires Allows(l, w.entries, entry.time) || !SharedInWindow(l, w, entry.time)
    ensures Exact(l, Call(l, w, entry)) && AtRest(Call(l, w, entry)) && Bounded(l, Call(l, w, entry).admitted, l.maxRequests)
    ensures Call(l, w, entry).now == entry.time
  {
    var counted := Step(l, w, Count(entry));
    StepKeepsExact(l, w, Count(entry));
    StepKeepsBound(l, w, Count(entry), 0);
    var added := Step(l, counted, Add(entry));
    StepKeepsExact(l, counted, Add(entry));
    if Allows(l, w.entries, entry.time) {
      assert added.transit == {};
    } else {
      assert added.doomed == {} && added.pending == {entry};
      assert !Shared(added, entry.time);
      StepKeepsExact(l, added, TakeBack(entry));
      assert Step(l, added, TakeBack(entry)).pending == {};
    }
  }

  lemma {:induction false} CallsKeepExact(l: Limit, w: World, calls: seq<Entry>)
    requires Exact(l, w) && AtRest(w) && Bounded(l, w.admitted, l.maxRequests)
    requires AreCalls(l, w, calls) && RejectionsStandAlone(l, w, calls)
    ensures var t := AfterCalls(l, w, calls); Exact(l, t) && AtRest(t) && Bounded(l, t.admitted, l.maxRequests)
    decreases |calls|
  {
    if calls != [] {
      CallKeepsExact(l, w, calls[0]);
      CallsKeepExact(l, Call(l, w, calls[0]), calls[1..]);
    }
  }

  /**
   Calls one after the other at times that do not decrease keep every window at most full, provided no call
   is rejected in the millisecond of a stored admitted request; with strictly increasing times that is always so.
   */
  lemma SequentialCallsAreBounded(l: Limit, calls: seq<Entry>, to: int)
    requires AreCalls(l, EMPTY, calls) && RejectionsStandAlone(l, EMPTY, calls)
    ensures Held(l, AfterCalls(l, EMPTY, calls).admitted, to) <= l.maxRequests
  {
    CallsKeepExact(l, EMPTY, calls);
    BoundedEverywhere(l, AfterCalls(l, EMPTY, calls).admitted, l.maxRequests, to);
  }

  /** Then a request is rejected exactly when its own window already holds maxRequests admitted ones. */
  lemma RejectedIffWindowIsFull(l: Limit, calls: seq<Entry>, now: int)
    requires AreCalls(l, EMPTY, calls) && RejectionsStandAlone(l, EMPTY, calls) && AfterCalls(l, EMPTY, calls).now <= now
    ensures var w := AfterCalls(l, EMPTY, calls);
      !Allows(l, w.entries, now) <==> Held(l, w.admitted, now) >= l.maxRequests
  {
    CallsKeepExact(l, EMPTY, calls);
    RejectedAtRest(l, AfterCalls(l, EMPTY, calls), now);
  }

  lemma RejectedAtRest(l: Limit, w: World, now: int)
    requires Exact(l, w) && AtRest(w) && w.now <= now
    ensures !Allows(l, w.entries, now) <==> Held(l, w.admitted, now) >= l.maxRequests
  {
    StoredAtRest(l, w, now);
  }

  predicate IncreaseFrom(now: int, calls: seq<Entry>)
    decreases |calls|
  {
    calls == [] || (now < calls[0].time && IncreaseFrom(calls[0].time, calls[1..]))
  }

  /** Strictly increasing times need no proviso. */
  lemma {:induction false} IncreasingCallsStandAlone(l: Limit, w: World, calls: seq<Entry>)
    requires Exact(l, w) && AtRest(w) && Bounded(l, w.admitted, l.maxRequests) && IncreaseFrom(w.now, calls)
    ensures AreCalls(l, w, calls) && RejectionsStandAlone(l, w, calls)
    decreases |calls|
  {
    if calls != [] {
      CallKeepsExact(l, w, calls[0]);
      IncreasingCallsStandAlone(l, Call(l, w, calls[0]), calls[1..]);
    }
  }

  // ----- A rejection in the millisecond of an admission -----

  /** The store holds exactly maxRequests requests of the window that ends at t, which are the admitted ones of that window. */
  ghost predicate IsFull(l: Limit, w: World, t: int) {
    && AtRest(w) && (forall e :: e in w.entries ==> e in w.admitted && 0 <= e.time)
    && |Unexpired(w.entries, t - WindowMs(l))| == Held(l, w.admitted, t) == l.maxRequests
  }

  /** Only a full store rejects: so it is in every sequence of calls as above. */
  lemma RejectedOnlyWhenFull(l: Limit, calls: seq<Entry>, t: int)
    requires AreCalls(l, EMPTY, calls) && RejectionsStandAlone(l, EMPTY, calls)
    requires AfterCalls(l, EMPTY, calls).now <= t && !Allows(l, AfterCalls(l, EMPTY, calls).entries, t)
    ensures IsFull(l, AfterCalls(l, EMPTY, calls), t)
  {
    CallsKeepExact(l, EMPTY, calls);
    FullStore(l, AfterCalls(l, EMPTY, calls), t);
  }

  lemma FullStore(l: Limit, w: World, t: int)
    requires Exact(l, w) && AtRest(w) && Bounded(l, w.admitted, l.maxRequests) && w.now <= t && !Allows(l, w.entries, t)
    ensures IsFull(l, w, t)
  {
    StoredAtRest(l, w, t);
    BoundedEverywhere(l, w.admitted, l.maxRequests, t);
  }

  /**
   From a full store a request is rejected, and the next request of the same millisecond breaks the limit if and only
   if an admitted request of that millisecond is stored: the window then holds one too many.
   */
  lemma NextBreaksLimitIffShared(l: Limit, w: World, rejected: Entry, next: Entry)
    requires IsFull(l, w, next.time) && rejected.time == next.time && l.windowSeconds >= 1
    requires Unused(w, rejected) && Unused(w, next)
    ensures !Allows(l, w.entries, rejected.time)
    ensures Held(l, Call(l, Call(l, w, rejected), next).admitted, next.time)
         == l.maxRequests + if SharedInWindow(l, w, next.time) then 1 else 0
  {
    FreesIffShared(l, w, rejected.time);
    SecondCallHeld(l, w, rejected, next);
  }

  /** Taking the entries of a millisecond out of a full window leaves room for another request exactly if an admitted one was among them. */
  lemma FreesIffShared(l: Limit, w: World, t: int)
    requires IsFull(l, w, t)
    ensures var left := WithoutTime(Unexpired(w.entries, t - WindowMs(l)), t);
      Allows(l, left, t) <==> SharedInWindow(l, w, t)
  {
    var from := t - WindowMs(l);
    var stored := Unexpired(w.entries, from);
    var left := WithoutTime(stored, t);
    assert Unexpired(left, from) == left;
    if SharedInWindow(l, w, t) {
      var e :| e in stored * w.admitted && e.time == t;
      SubsetIsSmaller(left, stored - {e});
    } else {
      assert forall e :: e in stored ==> e in w.admitted;
      assert left == stored;
    }
  }

  lemma AdmittedCall(l: Limit, w: World, entry: Entry)
    requires Allows(l, w.entries, entry.time)
    ensures Call(l, w, entry).admitted == w.admitted + {entry}
  {
  }

  lemma SecondCall(l: Limit, w: World, rejected: Entry, next: Entry)
    requires AtRest(w) && Unused(w, rejected) && Unused(w, next) && !Allows(l, w.entries, rejected.time) && rejected.time == next.time
    ensures var left := WithoutTime(Unexpired(w.entries, next.time - WindowMs(l)), next.time);
      Call(l, Call(l, w, rejected), next).admitted == if Allows(l, left, next.time) then w.admitted + {next} else w.admitted
  {
    var w1 := Call(l, w, rejected);
    RejectedCallStores(l, w, rejected);
    if Allows(l, w1.entries, next.time) {
      AdmittedCall(l, w1, next);
    } else {
      RejectedCallStores(l, w1, next);
    }
  }

  lemma SecondCallHeld(l: Limit, w: World, rejected: Entry, next: Entry)
    requires AtRest(w) && Unused(w, rejected) && Unused(w, next) && !Allows(l, w.entries, rejected.time)
    requires rejected.time == next.time && l.windowSeconds >= 1
    ensures Held(l, Call(l, Call(l, w, rejected), next).admitted, next.time)
         == Held(l, w.admitted, next.time)
          + if Allows(l, WithoutTime(Unexpired(w.entries, next.time - WindowMs(l)), next.time), next.time) then 1 else 0
  {
    SecondCall(l, w, rejected, next);
    WithinGrows(l, w.admitted, next);
  }

  lemma WithinGrows(l: Limit, admitted: set<Entry>, next: Entry)
    requires next !in admitted && l.windowSeconds >= 1
    ensures Held(l, admitted + {next}, next.time) == Held(l, admitted, next.time) + 1
  {
    var from := next.time - WindowMs(l);
    assert Within(admitted + {next}, from, next.time) == Within(admitted, from, next.time) + {next};
  }

  lemma StoredAtRest(l: Limit, w: World, now: int)
    requires Exact(l, w) && AtRest(w) && w.now <= now
    ensures |Unexpired(w.entries, now - WindowMs(l))| == Held(l, w.admitted, now)
  {
    StoredSplits(l, w, now);
    assert w.admitted - w.transit == w.admitted;
    assert Within(w.pending * w.entries, now - WindowMs(l), now) == {};
  }

  lemma RejectedCallStores(l: Limit, w: World, rejected: Entry)
    requires AtRest(w) && Unused(w, rejected) && !Allows(l, w.entries, rejected.time)
    ensures var t := Call(l, w, rejected);
      t.admitted == w.admitted && AtRest(t)
      && t.entries == WithoutTime(Unexpired(w.entries, rejected.time - WindowMs(l)), rejected.time)
  {
    var t := Call(l, w, rejected);
    assert t.doomed == {} && t.pending == {};
  }

  /** With one request allowed a minute, three requests of one millisecond: the second is rejected, the third admitted. */
  lemma SharedMillisecondBreaksLimit(time: nat)
    ensures var l, a, b, c := Limit(1, 60), Entry(time, 0), Entry(time, 1), Entry(time, 2);
      AreCalls(l, EMPTY, [a]) && RejectionsStandAlone(l, EMPTY, [a])
      && Held(l, Call(l, Call(l, AfterCalls(l, EMPTY, [a]), b), c).admitted, time) == 2
  {
    var l, a, b, c := Limit(1, 60), Entry(time, 0), Entry(time, 1), Entry(time, 2);
    var w := World({a}, {}, {}, {}, {a}, time);
    FirstCall(l, a);
    assert Unexpired({a}, time - WindowMs(l)) == Within({a}, time - WindowMs(l), time) == {a};
    assert a in Unexpired(w.entries, time - WindowMs(l)) * w.admitted;
    NextBreaksLimitIffShared(l, w, b, c);
  }

  lemma FirstCall(l: Limit, a: Entry)
    requires l.maxRequests >= 1 && a.time >= 0
    ensures AreCalls(l, EMPTY, [a]) && RejectionsStandAlone(l, EMPTY, [a])
    ensures AfterCalls(l, EMPTY, [a]) == World({a}, {}, {}, {}, {a}, a.time)
  {
    assert Unexpired({}, a.time - WindowMs(l)) == {};
    var w1 := Call(l, EMPTY, a);
    assert w1 == World({a}, {}, {}, {}, {a}, a.time);
    assert [a][1..] == [];
  }
}
