/**
 The audit subscriber's buffer. A flush takes the whole buffer, waits for the database, and puts the
 batch back in front when the write fails; receiving and other flushes go on in the meantime.
 */
module AuditBuffer {
  import opened Common

  const BATCH_SIZE: nat := 100

  type Text = string

  datatype Entry = Entry(
    orgId: Text, actor: Text, actorType: Text, action: Text, resourceType: Text, resourceId: Text,
    detail: Option<Text>, ipAddress: Option<Text>)

  datatype Owner = Consumer | Timer

  datatype Batch = Batch(owner: Owner, entries: seq<Entry>)

  /** What was received, what the table holds, the batches being written, the buffer, and whether the timer is set. */
  datatype World = World(received: seq<Entry>, written: seq<Entry>, inFlight: seq<Batch>, buffer: seq<Entry>, armed: bool)

  /** The subscriber schedules one flush when it starts. */
  const START := World([], [], [], [], true)

  datatype Event = Receive(entry: Entry) | TimerFires | Succeed(i: nat) | Fail(i: nat)

  /** The consumer handles no further message while it waits for its own flush. */
  predicate ConsumerWaits(w: World) {
    exists i :: 0 <= i < |w.inFlight| && w.inFlight[i].owner == Consumer
  }

  predicate Enabled(w: World, e: Event) {
    match e
    case Receive(_) => !ConsumerWaits(w)
    case TimerFires => w.armed
    case Succeed(i) => i < |w.inFlight|
    case Fail(i) => i < |w.inFlight|
  }

  /** flushBuffer up to its await. */
  function BeginFlush(w: World, owner: Owner): World {
    if w.buffer == [] then w else w.(inFlight := w.inFlight + [Batch(owner, w.buffer)], buffer := [])
  }

  function Without<T>(s: seq<T>, i: nat): seq<T>
    requires i < |s|
  {
    s[..i] + s[i + 1..]
  }

  function Step(w: World, e: Event): World
    requires Enabled(w, e)
  {
    match e
    case Receive(entry) =>
      var pushed := w.(received := w.received + [entry], buffer := w.buffer + [entry]);
      if |pushed.buffer| >= BATCH_SIZE then BeginFlush(pushed, Consumer) else pushed
    case TimerFires => BeginFlush(w.(armed := false), Timer)
    case Succeed(i) =>
      var b := w.inFlight[i];
      w.(written := w.written + b.entries, inFlight := Without(w.inFlight, i), armed := w.armed || b.owner == Consumer)
    case Fail(i) =>
      var b := w.inFlight[i];
      w.(buffer := b.entries + w.buffer, inFlight := Without(w.inFlight, i), armed := w.armed || b.owner == Consumer)
  }

  predicate IsRun(w: World, events: seq<Event>)
    decreases |events|
  {
    events == [] || (Enabled(w, events[0]) && IsRun(Step(w, events[0]), events[1..]))
  }

  function After(w: World, events: seq<Event>): World
    requires IsRun(w, events)
    decreases |events|
  {
    if events == [] then w else After(Step(w, events[0]), events[1..])
  }

  /**
   The timer is set from the start until it fires, and again whenever the consumer's own flush has finished. While that
   flush is under way the consumer takes no message; a batch can finish at any time.
   */
  lemma TimerAndTurns(w: World, e: Event)
    requires Enabled(w, e)
    ensures START.armed
    ensures e.Receive? ==> forall i :: 0 <= i < |w.inFlight| ==> w.inFlight[i].owner == Timer
    ensures e.TimerFires? ==> w.armed && !Step(w, e).armed
    ensures e.Receive? ==> Step(w, e).armed == w.armed
    ensures e.Succeed? || e.Fail? ==> (Step(w, e).armed <==> w.armed || w.inFlight[e.i].owner == Consumer)
  {
  }

  lemma TurnsComeAround(w: World, entry: Entry, i: nat)
    ensures (forall k :: 0 <= k < |w.inFlight| ==> w.inFlight[k].owner == Timer) ==> Enabled(w, Receive(entry))
    ensures w.armed ==> Enabled(w, TimerFires)
    ensures i < |w.inFlight| ==> Enabled(w, Succeed(i)) && Enabled(w, Fail(i))
  {
  }

  // ----- No entry is lost or written twice -----

  function Flat(batches: seq<Batch>): seq<Entry> {
    if batches == [] then [] else batches[0].entries + Flat(batches[1..])
  }

  lemma {:induction false} FlatConcat(a: seq<Batch>, b: seq<Batch>)
    ensures Flat(a + b) == Flat(a) + Flat(b)
  {
    if a == [] {
      assert a + b == b;
    } else {
      assert (a + b)[1..] == a[1..] + b;
      FlatConcat(a[1..], b);
    }
  }

  lemma FlatSplit(batches: seq<Batch>, i: nat)
    requires i < |batches|
    ensures Flat(batches) == Flat(batches[..i]) + batches[i].entries + Flat(batches[i + 1..])
    ensures Flat(Without(batches, i)) == Flat(batches[..i]) + Flat(batches[i + 1..])
  {
    assert batches == batches[..i] + batches[i..];
    FlatConcat(batches[..i], batches[i..]);
    assert batches[i..][0] == batches[i] && batches[i..][1..] == batches[i + 1..];
    FlatConcat(batches[..i], batches[i + 1..]);
  }

  lemma FlatAppend(batches: seq<Batch>, b: Batch)
    ensures Flat(batches + [b]) == Flat(batches) + b.entries
  {
    FlatConcat(batches, [b]);
    assert Flat([b]) == b.entries + Flat([]);
  }

  function Accounted(w: World): multiset<Entry> {
    multiset(w.written) + multiset(Flat(w.inFlight)) + multiset(w.buffer)
  }

  lemma FlushConserves(w: World, owner: Owner)
    ensures Accounted(BeginFlush(w, owner)) == Accounted(w)
  {
    FlatAppend(w.inFlight, Batch(owner, w.buffer));
  }

  lemma FinishConserves(w: World, i: nat)
    requires i < |w.inFlight|
    ensures Accounted(Step(w, Succeed(i))) == Accounted(w) && Accounted(Step(w, Fail(i))) == Accounted(w)
  {
    FlatSplit(w.inFlight, i);
  }

  lemma StepConserves(w: World, e: Event)
    requires Enabled(w, e) && Accounted(w) == multiset(w.received)
    ensures Accounted(Step(w, e)) == multiset(Step(w, e).received)
  {
    match e
    case Receive(entry) => FlushConserves(w.(received := w.received + [entry], buffer := w.buffer + [entry]), Consumer);
    case TimerFires => FlushConserves(w.(armed := false), Timer);
    case Succeed(i) => FinishConserves(w, i);
    case Fail(i) => FinishConserves(w, i);
  }

  /** In every run, with any number of overlapping flushes: written, in flight and buffered are exactly what was received. */
  lemma {:induction false} EntriesAreConserved(w: World, events: seq<Event>)
    requires Accounted(w) == multiset(w.received) && IsRun(w, events)
    ensures Accounted(After(w, events)) == multiset(After(w, events).received)
    decreases |events|
  {
    if events != [] {
      StepConserves(w, events[0]);
      EntriesAreConserved(Step(w, events[0]), events[1..]);
    }
  }

  // ----- The order of the entries -----

  ghost predicate InOrder(w: World) {
    w.written + Flat(w.inFlight) + w.buffer == w.received
  }

  /** The oldest batch is the first to succeed and the newest the first to fail. */
  predicate Orderly(w: World, e: Event) {
    match e
    case Succeed(i) => i == 0
    case Fail(i) => i + 1 == |w.inFlight|
    case _ => true
  }

  predicate OrderlyRun(w: World, events: seq<Event>)
    requires IsRun(w, events)
    decreases |events|
  {
    events == [] || (Orderly(w, events[0]) && OrderlyRun(Step(w, events[0]), events[1..]))
  }

  /** At most one batch is in flight at any time. */
  predicate OneAtATime(w: World, events: seq<Event>)
    requires IsRun(w, events)
    decreases |events|
  {
    |w.inFlight| <= 1 && (events == [] || OneAtATime(Step(w, events[0]), events[1..]))
  }

  lemma {:induction false} OneAtATimeIsOrderly(w: World, events: seq<Event>)
    requires IsRun(w, events) && OneAtATime(w, events)
    ensures OrderlyRun(w, events)
    decreases |events|
  {
    if events != [] {
      OneAtATimeIsOrderly(Step(w, events[0]), events[1..]);
    }
  }

  lemma StepKeepsOrder(w: World, e: Event)
    requires Enabled(w, e) && InOrder(w) && Orderly(w, e)
    ensures InOrder(Step(w, e))
  {
    match e
    case Receive(entry) => ReceiveKeepsOrder(w, entry);
    case TimerFires => FlatAppend(w.inFlight, Batch(Timer, w.buffer));
    case Succeed(_) => FirstSuccessKeepsOrder(w);
    case Fail(_) => LastFailureKeepsOrder(w);
  }

  lemma ReceiveKeepsOrder(w: World, entry: Entry)
    requires InOrder(w) && Enabled(w, Receive(entry))
    ensures InOrder(Step(w, Receive(entry)))
  {
    FlatAppend(w.inFlight, Batch(Consumer, w.buffer + [entry]));
    assert w.written + Flat(w.inFlight) + (w.buffer + [entry]) == w.received + [entry];
  }

  lemma FirstSuccessKeepsOrder(w: World)
    requires w.inFlight != [] && InOrder(w)
    ensures InOrder(Step(w, Succeed(0)))
  {
    FlatSplit(w.inFlight, 0);
    assert Flat(w.inFlight[..0]) == [];
    Regroup(w.written, w.inFlight[0].entries, Flat(w.inFlight[1..]), w.buffer);
  }

  lemma LastFailureKeepsOrder(w: World)
    requires w.inFlight != [] && InOrder(w)
    ensures InOrder(Step(w, Fail(|w.inFlight| - 1)))
  {
    var i := |w.inFlight| - 1;
    FlatSplit(w.inFlight, i);
    assert Flat(w.inFlight[i + 1..]) == [];
    Regroup(w.written, Flat(w.inFlight[..i]), w.inFlight[i].entries, w.buffer);
  }

  lemma Regroup(a: seq<Entry>, b: seq<Entry>, c: seq<Entry>, d: seq<Entry>)
    ensures a + ([] + b + c) + d == (a + b) + ([] + c) + d
    ensures a + (b + c + []) + d == a + (b + []) + (c + d)
  {
  }

  /** In every orderly run, in particular with one flush at a time, the entries keep the order they arrived in. */
  lemma {:induction false} OrderlyRunsKeepOrder(w: World, events: seq<Event>)
    requires InOrder(w) && IsRun(w, events) && OrderlyRun(w, events)
    ensures InOrder(After(w, events))
    decreases |events|
  {
    if events != [] {
      StepKeepsOrder(w, events[0]);
      OrderlyRunsKeepOrder(Step(w, events[0]), events[1..]);
    }
  }

  ghost predicate Distinct(s: seq<Entry>) {
    forall i, j :: 0 <= i < j < |s| ==> s[i] != s[j]
  }

  /** For distinct entries being orderly is exactly what keeps the order. */
  lemma OnlyOrderlyStepsKeepOrder(w: World, e: Event)
    requires Enabled(w, e) && InOrder(w) && Distinct(w.received)
    requires forall i :: 0 <= i < |w.inFlight| ==> w.inFlight[i].entries != []
    ensures InOrder(Step(w, e)) <==> Orderly(w, e)
  {
    if Orderly(w, e) {
      StepKeepsOrder(w, e);
    } else if e.Succeed? {
      EarlySuccessDisplaces(w, e.i);
    } else {
      EarlyFailureDisplaces(w, e.i);
    }
  }

  lemma EarlySuccessDisplaces(w: World, i: nat)
    requires 0 < i < |w.inFlight| && InOrder(w) && Distinct(w.received)
    requires w.inFlight[0].entries != [] && w.inFlight[i].entries != []
    ensures !InOrder(Step(w, Succeed(i)))
  {
    FlatSplit(w.inFlight, i);
    assert w.inFlight[..i][0] == w.inFlight[0];
    Displaced(w.written, Flat(w.inFlight[..i]), w.inFlight[i].entries, Flat(w.inFlight[i + 1..]), w.buffer);
  }

  lemma EarlyFailureDisplaces(w: World, i: nat)
    requires i + 1 < |w.inFlight| && InOrder(w) && Distinct(w.received)
    requires w.inFlight[i].entries != [] && w.inFlight[i + 1].entries != []
    ensures !InOrder(Step(w, Fail(i)))
  {
    FlatSplit(w.inFlight, i);
    assert w.inFlight[i + 1..][0] == w.inFlight[i + 1];
    Delayed(w.written, Flat(w.inFlight[..i]), w.inFlight[i].entries, Flat(w.inFlight[i + 1..]), w.buffer);
  }

  lemma Displaced(a: seq<Entry>, b: seq<Entry>, c: seq<Entry>, d: seq<Entry>, e: seq<Entry>)
    requires b != [] && c != [] && Distinct(a + (b + c + d) + e)
    ensures a + c + (b + d) + e != a + (b + c + d) + e
  {
    var s := a + (b + c + d) + e;
    assert s[|a|] == b[0] && s[|a| + |b|] == c[0];
    assert (a + c + (b + d) + e)[|a|] == c[0];
  }

  lemma Delayed(a: seq<Entry>, b: seq<Entry>, c: seq<Entry>, d: seq<Entry>, e: seq<Entry>)
    requires c != [] && d != [] && Distinct(a + (b + c + d) + e)
    ensures a + (b + d) + (c + e) != a + (b + c + d) + e
  {
    var s := a + (b + c + d) + e;
    assert s[|a| + |b|] == c[0] && s[|a| + |b| + |c|] == d[0];
    assert (a + (b + d) + (c + e))[|a| + |b|] == d[0];
  }

  // ----- When a flush happens at all -----

  /** Nothing is in flight, the timer is not set and the buffer is short: only further messages can cause a flush. */
  predicate Stranded(w: World) {
    w.inFlight == [] && !w.armed && 0 < |w.buffer| < 100
  }

  /** A stranded buffer is not written while fewer messages arrive than fill the batch, however long that takes. */
  lemma {:induction false} StrandedUntilFull(w: World, events: seq<Event>)
    requires Stranded(w) && IsRun(w, events) && |w.buffer| + |events| < 100
    ensures Stranded(After(w, events)) && After(w, events).written == w.written
    ensures |After(w, events).buffer| == |w.buffer| + |events|
    decreases |events|
  {
    if events != [] {
      StrandedUntilFull(Step(w, events[0]), events[1..]);
    }
  }

  /** All that was buffered and has come since is in flight, in the order of arrival, and nothing else has changed. */
  predicate FlushesAll(w: World, t: World) {
    && t.buffer == [] && t.written == w.written && w.received <= t.received
    && t.inFlight == [Batch(Consumer, w.buffer + t.received[|w.received|..])]
    && |t.inFlight[0].entries| == 100
  }

  /** The message that fills the batch starts the flush. */
  lemma {:induction false} FullBatchIsFlushed(w: World, events: seq<Event>)
    requires Stranded(w) && IsRun(w, events) && |w.buffer| + |events| == 100
    ensures FlushesAll(w, After(w, events))
    decreases |events|
  {
    var w1 := Step(w, events[0]);
    if |events| > 1 {
      FullBatchIsFlushed(w1, events[1..]);
      OneEarlier(w, w1, After(w, events), events[0].entry);
    } else {
      assert events[1..] == [];
      assert w1.received[|w.received|..] == [events[0].entry];
    }
  }

  lemma OneEarlier(w: World, w1: World, t: World, entry: Entry)
    requires w1.buffer == w.buffer + [entry] && w1.received == w.received + [entry] && w1.written == w.written
    requires FlushesAll(w1, t)
    ensures FlushesAll(w, t)
  {
    var rest := t.received[|w1.received|..];
    assert t.received == w.received + [entry] + rest;
    assert t.received[|w.received|..] == [entry] + rest;
    assert w.buffer + ([entry] + rest) == w1.buffer + rest;
  }

  /** The timer is set once: after it has fired, a later message is stranded. */
  lemma TimerIsNotRenewed(a: Entry, b: Entry)
    ensures var events := [Receive(a), TimerFires, Succeed(0), Receive(b)];
      IsRun(START, events) && Stranded(After(START, events)) && After(START, events).written == [a]
  {
    var w1 := Step(START, Receive(a));
    assert w1.buffer == [a];
    var w2 := Step(w1, TimerFires);
    assert w2.inFlight == [Batch(Timer, [a])];
    var w3 := Step(w2, Succeed(0));
    assert w3.inFlight == [] && w3.written == [a];
    var w4 := Step(w3, Receive(b));
    RunThen(w3, Receive(b), []);
    RunThen(w2, Succeed(0), [Receive(b)]);
    RunThen(w1, TimerFires, [Succeed(0), Receive(b)]);
    RunThen(START, Receive(a), [TimerFires, Succeed(0), Receive(b)]);
    assert w4.buffer == [b];
  }

  lemma RunThen(w: World, e: Event, rest: seq<Event>)
    requires Enabled(w, e) && IsRun(Step(w, e), rest)
    ensures IsRun(w, [e] + rest) && After(w, [e] + rest) == After(Step(w, e), rest)
  {
    assert ([e] + rest)[1..] == rest;
  }

  // ----- The subscriber's own operations -----

  /** What the module holds, with the flushes that wait for the database; each method is one step of the runs above. */
  class Subscriber {
    var buffer: seq<Entry>
    var inFlight: seq<Batch>
    var armed: bool
    ghost var received: seq<Entry>
    var written: seq<Entry>

    ghost function Contents(): World
      reads this
    {
      World(received, written, inFlight, buffer, armed)
    }

    constructor ()
      ensures Contents() == START
    {
      buffer, inFlight, armed, received, written := [], [], true, [], [];
    }

    /** The consuming loop on one message. */
    method Consume(entry: Entry)
      requires Enabled(Contents(), Receive(entry))
      modifies this
      ensures Contents() == Step(old(Contents()), Receive(entry))
    {
      received := received + [entry];
      buffer := buffer + [entry];
      if |buffer| >= BATCH_SIZE {
        FlushBuffer(Consumer);
      }
    }

    method FireTimer()
      requires Enabled(Contents(), TimerFires)
      modifies this
      ensures Contents() == Step(old(Contents()), TimerFires)
    {
      armed := false;
      FlushBuffer(Timer);
    }

    /** A flush up to its write. */
    method FlushBuffer(owner: Owner)
      modifies this
      ensures Contents() == BeginFlush(old(Contents()), owner)
    {
      if |buffer| == 0 {
        return;
      }
      var batch := buffer;
      buffer := [];
      inFlight := inFlight + [Batch(owner, batch)];
    }

    /** A flush from its write on: the batch is in the table or back in front; the consumer then sets the timer. */
    method FinishFlush(i: nat, ok: bool)
      requires i < |inFlight|
      modifies this
      ensures Contents() == Step(old(Contents()), if ok then Succeed(i) else Fail(i))
    {
      var b := inFlight[i];
      inFlight := inFlight[..i] + inFlight[i + 1..];
      if ok {
        written := written + b.entries;
      } else {
        buffer := b.entries + buffer;
      }
      if b.owner == Consumer {
        armed := true;
      }
    }
  }

  // ----- The INSERT statement -----

  datatype Param = Str(text: Text) | Null

  /** The eight parameters of one row, in the order of the columns. */
  function RowParams(e: Entry): (ps: seq<Param>)
    ensures |ps| == 8
  {
    [Str(e.orgId), Str(e.actor), Str(e.actorType), Str(e.action), Str(e.resourceType), Str(e.resourceId),
     Str(if e.detail.Some? then e.detail.value else "{}"),
     if e.ipAddress.Some? then Str(e.ipAddress.value) else Null]
  }

  /** A VALUES list, each row the numbers of its placeholders, and the parameter list it is run with. */
  datatype Insert = Insert(rows: seq<seq<nat>>, params: seq<Param>)

  ghost predicate Bound(q: Insert) {
    forall i, k :: 0 <= i < |q.rows| && 0 <= k < |q.rows[i]| ==> 1 <= q.rows[i][k] <= |q.params|
  }

  /** The parameters row i of the statement stands for. */
  function BoundRow(q: Insert, i: nat): seq<Param>
    requires Bound(q) && i < |q.rows|
  {
    seq(|q.rows[i]|, k requires 0 <= k < |q.rows[i]| => q.params[q.rows[i][k] - 1])
  }

  /** writeAuditEntry: one row with placeholders 1 to 8. */
  function SingleInsert(e: Entry): Insert {
    Insert([[1, 2, 3, 4, 5, 6, 7, 8]], RowParams(e))
  }

  /** The batched statement inserts, in order, the row that a single insert of each entry would. */
  method BatchInsert(entries: seq<Entry>) returns (q: Insert)
    ensures Bound(q) && |q.rows| == |entries| && |q.params| == 8 * |entries|
    ensures forall i :: 0 <= i < |entries| ==> Bound(SingleInsert(entries[i])) && BoundRow(q, i) == BoundRow(SingleInsert(entries[i]), 0)
  {
    var values: seq<seq<nat>>, params := [], [];
    var idx: nat := 1;
    for n := 0 to |entries|
      invariant idx == 8 * n + 1 && |values| == n && |params| == 8 * n
      invariant forall i :: 0 <= i < n ==> values[i] == Numbers(8 * i + 1)
      invariant forall i :: 0 <= i < n ==> params[8 * i..8 * i + 8] == RowParams(entries[i])
    {
      values := values + [[idx, idx + 1, idx + 2, idx + 3, idx + 4, idx + 5, idx + 6, idx + 7]];
      ghost var before := params;
      params := params + RowParams(entries[n]);
      idx := idx + 8;
      forall i | 0 <= i < n
        ensures params[8 * i..8 * i + 8] == RowParams(entries[i])
      {
        assert params[8 * i..8 * i + 8] == before[8 * i..8 * i + 8];
      }
      assert params[8 * n..8 * n + 8] == RowParams(entries[n]);
    }
    q := Insert(values, params);
    EachRowIsItsOwn(q, entries);
  }

  lemma EachRowIsItsOwn(q: Insert, entries: seq<Entry>)
    requires |q.rows| == |entries| && |q.params| == 8 * |entries|
    requires forall i :: 0 <= i < |entries| ==> q.rows[i] == Numbers(8 * i + 1)
    requires forall i :: 0 <= i < |entries| ==> q.params[8 * i..8 * i + 8] == RowParams(entries[i])
    ensures Bound(q)
    ensures forall i :: 0 <= i < |entries| ==> Bound(SingleInsert(entries[i])) && BoundRow(q, i) == BoundRow(SingleInsert(entries[i]), 0)
  {
    forall i | 0 <= i < |entries|
      ensures |q.rows[i]| == 8 && forall k :: 0 <= k < 8 ==> 1 <= q.rows[i][k] <= |q.params|
    {
      assert q.rows[i] == Numbers(8 * i + 1);
    }
    forall i | 0 <= i < |entries|
      ensures Bound(SingleInsert(entries[i])) && BoundRow(q, i) == BoundRow(SingleInsert(entries[i]), 0)
    {
      NumberedRow(q, i, 8 * i);
      NumberedRow(SingleInsert(entries[i]), 0, 0);
      assert SingleInsert(entries[i]).params[0..8] == RowParams(entries[i]);
    }
  }

  /** Eight consecutive placeholder numbers. */
  function Numbers(first: nat): (ns: seq<nat>)
    ensures |ns| == 8 && forall k :: 0 <= k < 8 ==> ns[k] == first + k
  {
    [first, first + 1, first + 2, first + 3, first + 4, first + 5, first + 6, first + 7]
  }

  lemma NumberedRow(q: Insert, i: nat, offset: nat)
    requires Bound(q) && i < |q.rows| && q.rows[i] == Numbers(offset + 1) && offset + 8 <= |q.params|
    ensures BoundRow(q, i) == q.params[offset..offset + 8]
  {
  }
}
