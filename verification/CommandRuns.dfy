/** Dispatch, workers with redelivery, sweeps, device streams and cancellations, their actions interleaved in any order. */
module CommandRuns {
  import opened Common
  import opened CommandPipeline

  datatype Actor =
    | Dispatching(id: Id, row: Row)
    | Handling(id: Id, expired: bool, outcomes: seq<bool>)
    | Sweeping(now: int, listed: seq<Id>)
    | Streaming(deviceId: string, listed: seq<Id>, sendable: nat, acks: seq<DeviceAck>)
    | Cancelling(id: Id)

  /** What is left to do for every actor started so far. */
  datatype World = World(store: Store, todos: seq<seq<Action>>)

  datatype Event = Start(actor: Actor) | Step(p: nat, ok: bool)

  const INITIAL := World(EMPTY, [])

  /** A message may be handed out whenever it is not acknowledged, again and again; queries read the table as it stands. */
  ghost predicate MayStart(s: Store, a: Actor) {
    match a
    case Dispatching(_, _) => true
    case Handling(id, _, outcomes) => id in s.outstanding && |outcomes| == MAX_RETRIES
    case Sweeping(now, listed) => ListsExpired(s, now, listed)
    case Streaming(deviceId, listed, sendable, _) => ListsUndelivered(s, deviceId, listed) && sendable <= |listed|
    case Cancelling(_) => true
  }

  function Plan(a: Actor): seq<Action>
    requires a.Handling? ==> |a.outcomes| == MAX_RETRIES
    requires a.Streaming? ==> a.sendable <= |a.listed|
  {
    match a
    case Dispatching(id, row) => DispatchPlan(id, row)
    case Handling(id, expired, outcomes) => HandlePlan(id, expired, outcomes)
    case Sweeping(_, listed) => WritesOf(listed, Expired)
    case Streaming(_, listed, sendable, acks) => WritesOf(listed[..sendable], Delivered) + AckWrites(acks)
    case Cancelling(id) => [Write(id, Cancelled)]
  }

  ghost predicate Allowed(w: World, e: Event) {
    match e
    case Start(a) => MayStart(w.store, a)
    case Step(p, _) => p < |w.todos| && w.todos[p] != []
  }

  ghost function Next(w: World, e: Event): World
    requires Allowed(w, e)
  {
    match e
    case Start(a) => World(w.store, w.todos + [Plan(a)])
    case Step(p, ok) => World(Effect(w.store, w.todos[p][0], ok), w.todos[p := Rest(w.store, w.todos[p], ok)])
  }

  ghost predicate IsRun(w: World, events: seq<Event>)
    decreases |events|
  {
    events == [] || (Allowed(w, events[0]) && IsRun(Next(w, events[0]), events[1..]))
  }

  ghost function After(w: World, events: seq<Event>): World
    requires IsRun(w, events)
    decreases |events|
  {
    if events == [] then w else After(Next(w, events[0]), events[1..])
  }

  // ----- Status and history -----

  /** The status of the newest history row of a command. */
  function Newest(history: seq<Entry>, id: Id): Option<Status> {
    if history == [] then None
    else if history[|history| - 1].id == id then Some(history[|history| - 1].status)
    else Newest(history[..|history| - 1], id)
  }

  ghost predicate StatusFollowsHistory(s: Store) {
    && (forall id :: id in s.rows ==> s.rows[id].status == var n := Newest(s.history, id); if n.Some? then n.value else Pending)
    && forall i :: 0 <= i < |s.history| ==> s.history[i].id in s.rows
  }

  lemma {:induction false} NewestOfUnknown(history: seq<Entry>, id: Id)
    requires forall i :: 0 <= i < |history| ==> history[i].id != id
    ensures Newest(history, id).None?
  {
    if history != [] {
      NewestOfUnknown(history[..|history| - 1], id);
    }
  }

  lemma NewestGrows(history: seq<Entry>, e: Entry, id: Id)
    ensures Newest(history + [e], id) == if e.id == id then Some(e.status) else Newest(history, id)
  {
    assert (history + [e])[..|history|] == history;
  }

  lemma EffectKeepsStatus(s: Store, a: Action, ok: bool)
    requires StatusFollowsHistory(s) && (a.Create? ==> a.row.status == Pending)
    ensures StatusFollowsHistory(Effect(s, a, ok))
  {
    var t := Effect(s, a, ok);
    if Succeeds(s, a, ok) && a.Create? {
      NewestOfUnknown(s.history, a.id);
    } else if Succeeds(s, a, ok) && a.Write? {
      forall id | id in t.rows
        ensures t.rows[id].status == var n := Newest(t.history, id); if n.Some? then n.value else Pending
      {
        NewestGrows(s.history, Entry(a.id, a.status), id);
      }
    }
  }

  // ----- The invariant -----

  predicate IsFinal(status: Status) {
    status.Expired? || status.Delivered? || status.Failed?
  }

  ghost predicate HasFinal(history: seq<Entry>, id: Id) {
    exists i :: 0 <= i < |history| && history[i].id == id && IsFinal(history[i].status)
  }

  /** Inserts are of pending commands; a publish follows its insert. */
  ghost predicate DispatchesInOrder(s: Store, todo: seq<Action>) {
    && (forall k :: 0 <= k < |todo| && todo[k].Create? ==> todo[k].row.status == Pending)
    && (todo != [] && todo[0].Publish? ==> todo[0].id in s.rows)
    && forall k :: 0 < k < |todo| && todo[k].Publish? ==> todo[k - 1].Create? && todo[k - 1].id == todo[k].id
  }

  /** An acknowledgement is of a known command and stands right behind its final status write. */
  ghost predicate AcksInOrder(s: Store, todo: seq<Action>) {
    forall k :: 0 <= k < |todo| && todo[k].Ack? ==>
      todo[k].id in s.rows && (k > 0 ==> todo[k - 1].Write? && todo[k - 1].id == todo[k].id && IsFinal(todo[k - 1].status))
  }

  ghost predicate Inv(w: World) {
    && StatusFollowsHistory(w.store)
    && w.store.published == w.store.outstanding + w.store.acked
    && (forall id :: id in w.store.outstanding ==> id in w.store.rows)
    && AllInOrder(w.store, w.todos)
  }

  ghost predicate AllInOrder(s: Store, todos: seq<seq<Action>>) {
    forall p :: 0 <= p < |todos| ==> InOrder(s, todos[p])
  }

  ghost predicate InOrder(s: Store, todo: seq<Action>) {
    DispatchesInOrder(s, todo) && AcksInOrder(s, todo)
  }

  predicate IsPlain(a: Action) {
    a.Write? || a.Wait? || a.Attempt?
  }

  lemma PlainInFront(s: Store, first: Action, rest: seq<Action>)
    requires IsPlain(first) && InOrder(s, rest) && (rest != [] ==> IsPlain(rest[0]))
    ensures InOrder(s, [first] + rest)
  {
    var all := [first] + rest;
    assert forall k :: 0 < k < |all| ==> all[k] == rest[k - 1];
  }

  lemma FinalThenAck(s: Store, id: Id, status: Status)
    requires id in s.rows && IsFinal(status)
    ensures InOrder(s, [Write(id, status), Ack(id)])
  {
  }

  lemma {:induction false} AttemptsInOrder(s: Store, id: Id, outcomes: seq<bool>, n: nat)
    requires n <= MAX_RETRIES == |outcomes| && id in s.rows
    ensures InOrder(s, Attempts(id, outcomes, n)) && IsPlain(Attempts(id, outcomes, n)[0])
    decreases MAX_RETRIES - n
  {
    if n == MAX_RETRIES {
      FinalThenAck(s, id, Failed);
    } else {
      if outcomes[n] {
        FinalThenAck(s, id, Delivered);
      } else {
        AttemptsInOrder(s, id, outcomes, n + 1);
      }
      OneMoreAttempt(s, id, outcomes, n);
    }
  }

  lemma OneMoreAttempt(s: Store, id: Id, outcomes: seq<bool>, n: nat)
    requires n < MAX_RETRIES == |outcomes| && InOrder(s, AfterAttempt(id, outcomes, n)) && IsPlain(AfterAttempt(id, outcomes, n)[0])
    ensures InOrder(s, Attempts(id, outcomes, n)) && IsPlain(Attempts(id, outcomes, n)[0])
  {
    var rest := AfterAttempt(id, outcomes, n);
    PlainInFront(s, Attempt(id), rest);
    if n > 0 {
      PlainInFront(s, Wait(RetryDelay(n)), [Attempt(id)] + rest);
      assert [Wait(RetryDelay(n))] + [Attempt(id)] + rest == [Wait(RetryDelay(n))] + ([Attempt(id)] + rest);
    } else {
      assert [] + [Attempt(id)] + rest == [Attempt(id)] + rest;
    }
  }

  lemma PlansAreInOrder(s: Store, a: Actor)
    requires MayStart(s, a) && forall id :: id in s.outstanding ==> id in s.rows
    ensures InOrder(s, Plan(a))
  {
    match a
    case Dispatching(id, row) => DispatchInOrder(s, id, row);
    case Handling(id, expired, outcomes) => HandlingInOrder(s, id, expired, outcomes);
    case Sweeping(_, listed) => WritesInOrder(s, WritesOf(listed, Expired));
    case Streaming(_, listed, sendable, acks) => WritesInOrder(s, WritesOf(listed[..sendable], Delivered) + AckWrites(acks));
    case Cancelling(id) => WritesInOrder(s, [Write(id, Cancelled)]);
  }

  lemma DispatchInOrder(s: Store, id: Id, row: Row)
    ensures InOrder(s, DispatchPlan(id, row))
  {
  }

  lemma WritesInOrder(s: Store, todo: seq<Action>)
    requires forall k :: 0 <= k < |todo| ==> todo[k].Write?
    ensures InOrder(s, todo)
  {
  }

  lemma HandlingInOrder(s: Store, id: Id, expired: bool, outcomes: seq<bool>)
    requires |outcomes| == MAX_RETRIES && id in s.rows
    ensures InOrder(s, HandlePlan(id, expired, outcomes))
  {
    if expired {
      FinalThenAck(s, id, Expired);
      PlainInFront(s, Write(id, Queued), [Write(id, Expired), Ack(id)]);
    } else {
      AttemptsInOrder(s, id, outcomes, 0);
      PlainInFront(s, Write(id, Queued), Attempts(id, outcomes, 0));
    }
  }

  lemma StepKeepsOrder(s: Store, todo: seq<Action>, ok: bool)
    requires todo != [] && DispatchesInOrder(s, todo) && AcksInOrder(s, todo)
    ensures var t := Effect(s, todo[0], ok); DispatchesInOrder(t, Rest(s, todo, ok)) && AcksInOrder(t, Rest(s, todo, ok))
  {
    var t, rest := Effect(s, todo[0], ok), Rest(s, todo, ok);
    forall k | 0 <= k < |rest|
      ensures rest[k] == todo[k + 1] && (k > 0 ==> rest[k - 1] == todo[k])
    {
    }
  }

  lemma OrderSurvives(s: Store, t: Store, todo: seq<Action>)
    requires DispatchesInOrder(s, todo) && AcksInOrder(s, todo) && forall id :: id in s.rows ==> id in t.rows
    ensures DispatchesInOrder(t, todo) && AcksInOrder(t, todo)
  {
  }

  lemma QueueIsConserved(s: Store, a: Action, ok: bool)
    requires s.published == s.outstanding + s.acked && forall id :: id in s.outstanding ==> id in s.rows
    requires a.Publish? ==> a.id in s.rows
    ensures var t := Effect(s, a, ok); t.published == t.outstanding + t.acked && forall id :: id in t.outstanding ==> id in t.rows
  {
  }

  lemma NextKeepsInv(w: World, e: Event)
    requires Inv(w) && Allowed(w, e)
    ensures Inv(Next(w, e))
  {
    match e
    case Start(a) =>
      PlansAreInOrder(w.store, a);
    case Step(p, ok) =>
      var todo := w.todos[p];
      assert InOrder(w.store, todo);
      EffectKeepsStatus(w.store, todo[0], ok);
      QueueIsConserved(w.store, todo[0], ok);
      StepKeepsOrder(w.store, todo, ok);
      OthersStayInOrder(w.store, w.todos, p, ok);
  }

  lemma OthersStayInOrder(s: Store, todos: seq<seq<Action>>, p: nat, ok: bool)
    requires AllInOrder(s, todos) && p < |todos| && todos[p] != []
    requires InOrder(Effect(s, todos[p][0], ok), Rest(s, todos[p], ok))
    ensures AllInOrder(Effect(s, todos[p][0], ok), todos[p := Rest(s, todos[p], ok)])
  {
    var t := Effect(s, todos[p][0], ok);
    forall q | 0 <= q < |todos| && q != p
      ensures InOrder(t, todos[q])
    {
      OrderSurvives(s, t, todos[q]);
    }
  }

  lemma {:induction false} RunKeepsInv(w: World, events: seq<Event>)
    requires Inv(w) && IsRun(w, events)
    ensures Inv(After(w, events))
    decreases |events|
  {
    if events != [] {
      NextKeepsInv(w, events[0]);
      RunKeepsInv(Next(w, events[0]), events[1..]);
    }
  }

  /** In every interleaving a command's status is that of its newest history row, or pending if it has none. */
  lemma StatusIsNewestHistory(events: seq<Event>, id: Id)
    requires IsRun(INITIAL, events) && id in After(INITIAL, events).store.rows
    ensures var s := After(INITIAL, events).store;
      s.rows[id].status == match Newest(s.history, id) case Some(status) => status case None => Pending
  {
    RunKeepsInv(INITIAL, events);
  }

  /** No message is lost or made up: whatever was published is outstanding or acknowledged, and its command is known. */
  lemma MessagesAreConserved(events: seq<Event>)
    requires IsRun(INITIAL, events)
    ensures var s := After(INITIAL, events).store;
      s.published == s.outstanding + s.acked && forall id :: id in s.outstanding ==> id in s.rows
  {
    RunKeepsInv(INITIAL, events);
  }

  // ----- Acknowledged messages -----

  /** The event writes the status that stands right before an acknowledgement. */
  ghost predicate IsFinalWrite(w: World, e: Event)
    requires Allowed(w, e)
  {
    e.Step? && |w.todos[e.p]| >= 2 && w.todos[e.p][1].Ack?
  }

  ghost predicate FinalWritesSucceed(w: World, events: seq<Event>)
    requires IsRun(w, events)
    decreases |events|
  {
    events == [] || ((IsFinalWrite(w, events[0]) ==> events[0].ok) && FinalWritesSucceed(Next(w, events[0]), events[1..]))
  }

  ghost predicate AcksAreFinal(w: World) {
    && (forall id :: id in w.store.acked ==> HasFinal(w.store.history, id))
    && forall p :: 0 <= p < |w.todos| && w.todos[p] != [] && w.todos[p][0].Ack? ==> HasFinal(w.store.history, w.todos[p][0].id)
  }

  lemma FinalsStay(history: seq<Entry>, e: Entry, id: Id)
    requires HasFinal(history, id)
    ensures HasFinal(history + [e], id)
  {
    var i :| 0 <= i < |history| && history[i].id == id && IsFinal(history[i].status);
    assert (history + [e])[i] == history[i];
  }

  lemma EffectKeepsFinals(s: Store, a: Action, ok: bool)
    ensures forall id :: HasFinal(s.history, id) ==> HasFinal(Effect(s, a, ok).history, id)
  {
    forall id | HasFinal(s.history, id)
      ensures HasFinal(Effect(s, a, ok).history, id)
    {
      if Succeeds(s, a, ok) && a.Write? {
        FinalsStay(s.history, Entry(a.id, a.status), id);
      }
    }
  }

  lemma NextKeepsAcksFinal(w: World, e: Event)
    requires Inv(w) && AcksAreFinal(w) && Allowed(w, e) && (IsFinalWrite(w, e) ==> e.ok)
    ensures AcksAreFinal(Next(w, e))
  {
    match e
    case Start(a) =>
      PlansAreInOrder(w.store, a);
      PlanStartsWithoutAck(a);
    case Step(p, ok) =>
      StepKeepsAcksFinal(w, p, ok);
  }

  lemma StepKeepsAcksFinal(w: World, p: nat, ok: bool)
    requires Inv(w) && AcksAreFinal(w) && Allowed(w, Step(p, ok)) && (IsFinalWrite(w, Step(p, ok)) ==> ok)
    ensures AcksAreFinal(Next(w, Step(p, ok)))
  {
    var todo, next := w.todos[p], Next(w, Step(p, ok));
    EffectKeepsFinals(w.store, todo[0], ok);
    assert AcksInOrder(w.store, todo);
    if |todo| >= 2 && todo[1].Ack? {
      assert todo[0].Write? && todo[0].id == todo[1].id && todo[1].id in w.store.rows;
      assert next.store.history[|w.store.history|] == Entry(todo[0].id, todo[0].status);
    }
  }

  lemma PlanStartsWithoutAck(a: Actor)
    requires a.Handling? ==> |a.outcomes| == MAX_RETRIES
    requires a.Streaming? ==> a.sendable <= |a.listed|
    ensures Plan(a) != [] ==> !Plan(a)[0].Ack?
  {
  }

  lemma {:induction false} RunKeepsAcksFinal(w: World, events: seq<Event>)
    requires Inv(w) && AcksAreFinal(w) && IsRun(w, events) && FinalWritesSucceed(w, events)
    ensures AcksAreFinal(After(w, events))
    decreases |events|
  {
    if events != [] {
      NextKeepsInv(w, events[0]);
      NextKeepsAcksFinal(w, events[0]);
      RunKeepsAcksFinal(Next(w, events[0]), events[1..]);
    }
  }

  /** Where the final status writes succeed, a message is acknowledged only after expired, delivered or failed was recorded. */
  lemma AckedOnlyWhenFinal(events: seq<Event>, id: Id)
    requires IsRun(INITIAL, events) && FinalWritesSucceed(INITIAL, events)
    requires id in After(INITIAL, events).store.acked
    ensures HasFinal(After(INITIAL, events).store.history, id)
  {
    RunKeepsAcksFinal(INITIAL, events);
  }

  /** A failed final write does not hold the acknowledgement back: the message is gone and nothing final is recorded. */
  lemma FailedFinalWriteLosesOutcome(w: World, p: nat, id: Id, status: Status)
    requires p < |w.todos| && w.todos[p] == [Write(id, status), Ack(id)]
    requires id in w.store.outstanding && !HasFinal(w.store.history, id)
    ensures var events := [Step(p, false), Step(p, true)];
      IsRun(w, events) && id in After(w, events).store.acked && !HasFinal(After(w, events).store.history, id)
  {
    assert w.todos[p][1..] == [Ack(id)];
    RunOfTwo(w, Step(p, false), Step(p, true));
  }

  // ----- No status is the last -----

  function StatusOf(w: World, id: Id): Option<Status> {
    if id in w.store.rows then Some(w.store.rows[id].status) else None
  }

  lemma RunOn(w: World, events: seq<Event>, e: Event)
    requires IsRun(w, events) && Allowed(After(w, events), e)
    ensures IsRun(w, events + [e]) && After(w, events + [e]) == Next(After(w, events), e)
    decreases |events|
  {
    if events == [] {
      assert [] + [e] == [e] && [e][1..] == [];
    } else {
      RunOn(Next(w, events[0]), events[1..], e);
      assert (events + [e])[1..] == events[1..] + [e];
    }
  }

  lemma RunOfTwo(w: World, first: Event, second: Event)
    requires Allowed(w, first) && Allowed(Next(w, first), second)
    ensures IsRun(w, [first, second]) && After(w, [first, second]) == Next(Next(w, first), second)
  {
    assert [first, second][1..] == [second] && [second][1..] == [];
    assert IsRun(Next(w, first), [second]);
    assert After(Next(w, first), [second]) == After(Next(Next(w, first), second), []);
  }

  /** Every set of commands can be listed. */
  lemma {:induction false} Listed(ids: set<Id>) returns (list: seq<Id>)
    ensures forall id :: id in list <==> id in ids
    ensures forall i, j :: 0 <= i < j < |list| ==> list[i] != list[j]
    decreases |ids|
  {
    if ids == {} {
      return [];
    }
    var id :| id in ids;
    var rest := Listed(ids - {id});
    list := rest + [id];
  }

  /** Whatever a command's status is, an acknowledgement of any device that names it replaces it. */
  lemma AcknowledgementReplacesStatus(w: World, id: Id, deviceId: string, status: string) returns (events: seq<Event>)
    requires id in w.store.rows
    ensures IsRun(w, events) && StatusOf(After(w, events), id) == Some(AckStatus(status))
  {
    var undelivered := Listed(set i | i in w.store.rows && IsUndelivered(w.store.rows[i], deviceId));
    var first := Start(Streaming(deviceId, undelivered, 0, [DeviceAck(id, status)]));
    assert WritesOf(undelivered[..0], Delivered) + AckWrites([DeviceAck(id, status)]) == [Write(id, AckStatus(status))];
    RunOfTwo(w, first, Step(|w.todos|, true));
    events := [first, Step(|w.todos|, true)];
  }

  lemma CancellationReplacesStatus(w: World, id: Id) returns (events: seq<Event>)
    requires id in w.store.rows
    ensures IsRun(w, events) && StatusOf(After(w, events), id) == Some(Cancelled)
  {
    RunOfTwo(w, Start(Cancelling(id)), Step(|w.todos|, true));
    events := [Start(Cancelling(id)), Step(|w.todos|, true)];
  }

  /** The status write has no guard: every status, terminal or not, can be followed by a different one. */
  lemma NoStatusIsAbsorbing(w: World, id: Id) returns (events: seq<Event>)
    requires id in w.store.rows
    ensures IsRun(w, events) && StatusOf(After(w, events), id).Some?
    ensures TextOf(StatusOf(After(w, events), id).value) != TextOf(w.store.rows[id].status)
  {
    if TextOf(w.store.rows[id].status) == "cancelled" {
      events := AcknowledgementReplacesStatus(w, id, w.store.rows[id].deviceId, "completed");
    } else {
      events := CancellationReplacesStatus(w, id);
    }
  }

  /** What a sweep listed it expires, although a device reported completion in between. */
  lemma SweepOverwritesCompletion(w: World, p: nat, q: nat, id: Id)
    requires p < |w.todos| && q < |w.todos| && p != q && id in w.store.rows
    requires w.todos[p] != [] && w.todos[p][0] == Write(id, Expired)
    requires w.todos[q] != [] && w.todos[q][0] == Write(id, Completed)
    ensures var events := [Step(q, true), Step(p, true)];
      IsRun(w, events) && StatusOf(Next(w, events[0]), id) == Some(Completed) && StatusOf(After(w, events), id) == Some(Expired)
  {
    RunOfTwo(w, Step(q, true), Step(p, true));
  }

  // ----- These worlds are reached -----

  /** A new command is stored and published, its last status write still to come. */
  lemma DispatchedFrom(w: World, id: Id, row: Row) returns (events: seq<Event>)
    requires id !in w.store.rows
    ensures IsRun(w, events)
    ensures After(w, events)
         == World(w.store.(rows := w.store.rows[id := row.(status := Pending)], published := w.store.published + multiset{id},
                           outstanding := w.store.outstanding + multiset{id}),
                  w.todos + [[Write(id, Queued)]])
  {
    var p := |w.todos|;
    var e1 := Start(Dispatching(id, row));
    var w1 := Next(w, e1);
    RunOn(w, [], e1);
    assert [] + [e1] == [e1];
    var plan := DispatchPlan(id, row);
    assert w1.todos[p] == plan && plan[1..] == [Publish(id), Write(id, Queued)];
    var w2 := Next(w1, Step(p, true));
    RunOn(w, [e1], Step(p, true));
    assert [Publish(id), Write(id, Queued)][1..] == [Write(id, Queued)];
    RunOn(w, [e1] + [Step(p, true)], Step(p, true));
    events := [e1] + [Step(p, true)] + [Step(p, true)];
    assert w2.todos[p] == [Publish(id), Write(id, Queued)];
    assert Next(w2, Step(p, true)).todos == w.todos + [[Write(id, Queued)]];
  }

  /** From every world a run has kept, a new command's outcome can be lost: acknowledged with nothing final recorded. */
  lemma OutcomeCanBeLost(w: World, id: Id, row: Row) returns (events: seq<Event>)
    requires Inv(w) && id !in w.store.rows
    ensures IsRun(w, events) && id in After(w, events).store.acked && !HasFinal(After(w, events).store.history, id)
  {
    var dispatch := DispatchedFrom(w, id, row);
    var w1 := After(w, dispatch);
    var never := [false, false, false, false, false];
    var handle := Start(Handling(id, true, never));
    var p := |w1.todos|;
    RunOn(w, dispatch, handle);
    var w2 := Next(w1, handle);
    assert w2.todos[p] == [Write(id, Queued), Write(id, Expired), Ack(id)];
    assert w2.todos[p][1..] == [Write(id, Expired), Ack(id)];
    RunOn(w, dispatch + [handle], Step(p, true));
    var w3 := Next(w2, Step(p, true));
    NothingFinalYet(w, id);
    assert w3.store.history == w.store.history + [Entry(id, Queued)];
    FailedFinalWriteLosesOutcome(w3, p, id, Expired);
    var upTo := dispatch + [handle] + [Step(p, true)];
    RunsJoin(w, upTo, [Step(p, false), Step(p, true)]);
    events := upTo + [Step(p, false), Step(p, true)];
  }

  lemma NothingFinalYet(w: World, id: Id)
    requires Inv(w) && id !in w.store.rows
    ensures !HasFinal(w.store.history + [Entry(id, Queued)], id)
  {
  }

  lemma {:induction false} RunsJoin(w: World, events: seq<Event>, more: seq<Event>)
    requires IsRun(w, events) && IsRun(After(w, events), more)
    ensures IsRun(w, events + more) && After(w, events + more) == After(After(w, events), more)
    decreases |events|
  {
    if events == [] {
      assert events + more == more;
    } else {
      RunsJoin(Next(w, events[0]), events[1..], more);
      assert (events + more)[1..] == events[1..] + more;
    }
  }

  lemma CompletionWrite(id: Id)
    ensures WritesOf([id][..0], Delivered) + AckWrites([DeviceAck(id, "completed")]) == [Write(id, Completed)]
  {
  }

  /** From the start, for every command with an expiry: a sweep lists it, its device completes it, the sweep expires it. */
  lemma CompletedCanExpire(id: Id, row: Row) returns (events: seq<Event>, last: Event)
    requires row.expiresAt.Some?
    ensures IsRun(INITIAL, events) && StatusOf(After(INITIAL, events), id) == Some(Completed)
    ensures IsRun(INITIAL, events + [last]) && StatusOf(After(INITIAL, events + [last]), id) == Some(Expired)
  {
    var dispatch := DispatchedFrom(INITIAL, id, row);
    var w1 := After(INITIAL, dispatch);
    var sweep := Start(Sweeping(row.expiresAt.value + 1, [id]));
    RunOn(INITIAL, dispatch, sweep);
    var w2 := Next(w1, sweep);
    var stream := Start(Streaming(row.deviceId, [id], 0, [DeviceAck(id, "completed")]));
    RunOn(INITIAL, dispatch + [sweep], stream);
    var w3 := Next(w2, stream);
    assert w3.todos[1] == [Write(id, Expired)];
    CompletionWrite(id);
    assert w3.todos[2] == [Write(id, Completed)];
    SweepOverwritesCompletion(w3, 1, 2, id);
    RunOn(INITIAL, dispatch + [sweep] + [stream], Step(2, true));
    events := dispatch + [sweep] + [stream] + [Step(2, true)];
    last := Step(1, true);
    RunOn(INITIAL, events, last);
  }

  /** The history is only ever added to. */
  lemma {:induction false} HistoryOnlyGrows(w: World, events: seq<Event>)
    requires IsRun(w, events)
    ensures w.store.history <= After(w, events).store.history
    decreases |events|
  {
    if events != [] {
      HistoryOnlyGrows(Next(w, events[0]), events[1..]);
    }
  }

  // ----- One process without interruption -----

  /** Run on its own, an actor does what the uninterrupted part does. */
  lemma {:induction false} AloneIsExecuted(w: World, p: nat, oks: seq<bool>) returns (events: seq<Event>)
    requires p < |w.todos| && |oks| >= |w.todos[p]|
    ensures IsRun(w, events) && After(w, events).store == Executed(w.store, w.todos[p], oks)
    decreases |w.todos[p]|
  {
    var todo := w.todos[p];
    if todo == [] {
      events := [];
    } else {
      var e := Step(p, oks[0]);
      var rest := AloneIsExecuted(Next(w, e), p, oks[1..]);
      events := [e] + rest;
      assert events[1..] == rest;
      ExecutedStep(w.store, todo, oks);
    }
  }
}
