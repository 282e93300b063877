/** The command table, its history and its queue, and what each part of the system does to them. */
module CommandPipeline {
  import opened Common

  type Id = nat

  datatype Status = Pending | Queued | Sent | Delivered | Executing | Completed | Failed | Expired | Cancelled | Other(text: string)

  datatype Row = Row(deviceId: string, status: Status, expiresAt: Option<int>)

  datatype Entry = Entry(id: Id, status: Status)

  /** Tables and queue. A message is named by its command; every command is published at most once. */
  datatype Store = Store(rows: map<Id, Row>, history: seq<Entry>, published: multiset<Id>, outstanding: multiset<Id>, acked: multiset<Id>)

  const EMPTY := Store(map[], [], multiset{}, multiset{}, multiset{})

  datatype Action =
    | Create(id: Id, row: Row)
    | Publish(id: Id)
    | Write(id: Id, status: Status)
    | Attempt(id: Id)
    | Wait(seconds: nat)
    | Ack(id: Id)

  /** A status write needs a row of that id, since the history refers to it; an insert needs a new id. */
  predicate Succeeds(s: Store, a: Action, ok: bool) {
    match a
    case Create(id, _) => ok && id !in s.rows
    case Write(id, _) => ok && id in s.rows
    case _ => ok
  }

  /** Row and history change together or not at all; an ack of a message acknowledged before does nothing. */
  function Effect(s: Store, a: Action, ok: bool): Store {
    if !Succeeds(s, a, ok) then s
    else
      match a
      case Create(id, row) => s.(rows := s.rows[id := row])
      case Publish(id) => s.(published := s.published + multiset{id}, outstanding := s.outstanding + multiset{id})
      case Write(id, status) => s.(rows := s.rows[id := s.rows[id].(status := status)], history := s.history + [Entry(id, status)])
      case Attempt(_) => s
      case Wait(_) => s
      case Ack(id) => if id in s.outstanding then s.(outstanding := s.outstanding - multiset{id}, acked := s.acked + multiset{id}) else s
  }

  /** A failed insert or publish ends the dispatch; every other failure is logged and passed over. */
  function Rest(s: Store, todo: seq<Action>, ok: bool): seq<Action>
    requires todo != []
  {
    if (todo[0].Create? || todo[0].Publish?) && !Succeeds(s, todo[0], ok) then [] else todo[1..]
  }

  /** All of a plan without interruption; oks[i] tells whether its i-th action gets through. */
  function Executed(s: Store, todo: seq<Action>, oks: seq<bool>): Store
    requires |oks| >= |todo|
    decreases |todo|
  {
    if todo == [] then s else Executed(Effect(s, todo[0], oks[0]), Rest(s, todo, oks[0]), oks[1..])
  }

  // ----- Plans -----

  const MAX_RETRIES: nat := 5

  function RetryDelay(attempt: nat): nat {
    match attempt
    case 0 => 1
    case 1 => 5
    case 2 => 30
    case 3 => 120
    case _ => 600
  }

  function DispatchPlan(id: Id, row: Row): seq<Action> {
    [Create(id, row.(status := Pending)), Publish(id), Write(id, Queued)]
  }

  /** From attempt n on, given which deliveries would succeed. */
  function Attempts(id: Id, outcomes: seq<bool>, n: nat): seq<Action>
    requires n <= MAX_RETRIES == |outcomes|
    decreases MAX_RETRIES - n
  {
    if n == MAX_RETRIES then [Write(id, Failed), Ack(id)]
    else
      (if n > 0 then [Wait(RetryDelay(n))] else []) + [Attempt(id)]
      + if outcomes[n] then [Write(id, Delivered), Ack(id)] else Attempts(id, outcomes, n + 1)
  }

  function HandlePlan(id: Id, expired: bool, outcomes: seq<bool>): seq<Action>
    requires |outcomes| == MAX_RETRIES
  {
    [Write(id, Queued)] + if expired then [Write(id, Expired), Ack(id)] else Attempts(id, outcomes, 0)
  }

  function WritesOf(ids: seq<Id>, status: Status): (plan: seq<Action>)
    ensures |plan| == |ids| && forall i :: 0 <= i < |ids| ==> plan[i] == Write(ids[i], status)
  {
    seq(|ids|, i requires 0 <= i < |ids| => Write(ids[i], status))
  }

  datatype DeviceAck = DeviceAck(id: Id, status: string)

  /** The text a status is stored as. */
  function TextOf(status: Status): string {
    match status
    case Pending => "pending"
    case Queued => "queued"
    case Sent => "sent"
    case Delivered => "delivered"
    case Executing => "executing"
    case Completed => "completed"
    case Failed => "failed"
    case Expired => "expired"
    case Cancelled => "cancelled"
    case Other(text) => text
  }

  function StatusOfText(text: string): Status {
    match text
    case "pending" => Pending
    case "queued" => Queued
    case "sent" => Sent
    case "delivered" => Delivered
    case "executing" => Executing
    case "completed" => Completed
    case "failed" => Failed
    case "expired" => Expired
    case "cancelled" => Cancelled
    case _ => Other(text)
  }

  /** A device may name any status; only "received" stands for another one. */
  function AckStatus(status: string): (r: Status)
    ensures TextOf(r) == if status == "received" then "delivered" else status
  {
    if status == "received" then Delivered else StatusOfText(status)
  }

  function AckWrites(acks: seq<DeviceAck>): (plan: seq<Action>)
    ensures |plan| == |acks| && forall i :: 0 <= i < |acks| ==> plan[i] == Write(acks[i].id, AckStatus(acks[i].status))
  {
    seq(|acks|, i requires 0 <= i < |acks| => Write(acks[i].id, AckStatus(acks[i].status)))
  }

  // ----- Queries -----

  predicate IsExpiredPending(row: Row, now: int) {
    (row.status.Pending? || row.status.Queued? || row.status.Delivered?) && row.expiresAt.Some? && row.expiresAt.value < now
  }

  predicate IsUndelivered(row: Row, deviceId: string) {
    row.deviceId == deviceId && (row.status.Pending? || row.status.Queued? || row.status.Sent?)
  }

  /** The rows the sweeper's query returns, in some order. */
  ghost predicate ListsExpired(s: Store, now: int, ids: seq<Id>) {
    (forall id :: id in ids <==> id in s.rows && IsExpiredPending(s.rows[id], now))
    && forall i, j :: 0 <= i < j < |ids| ==> ids[i] != ids[j]
  }

  ghost predicate ListsUndelivered(s: Store, deviceId: string, ids: seq<Id>) {
    (forall id :: id in ids <==> id in s.rows && IsUndelivered(s.rows[id], deviceId))
    && forall i, j :: 0 <= i < j < |ids| ==> ids[i] != ids[j]
  }

  // ----- The parts, each run without interruption -----

  class Pipeline {
    var rows: map<Id, Row>
    var history: seq<Entry>
    ghost var published: multiset<Id>
    var outstanding: multiset<Id>
    ghost var acked: multiset<Id>

    ghost function Contents(): Store
      reads this
    {
      Store(rows, history, published, outstanding, acked)
    }

    constructor ()
      ensures Contents() == EMPTY
    {
      rows, history, outstanding := map[], [], multiset{};
      published, acked := multiset{}, multiset{};
    }

    method Insert(id: Id, row: Row, ok: bool) returns (done: bool)
      modifies this
      ensures done == Succeeds(old(Contents()), Create(id, row), ok)
      ensures Contents() == Effect(old(Contents()), Create(id, row), ok)
    {
      done := ok && id !in rows;
      if done {
        rows := rows[id := row];
      }
    }

    /** One transaction over both tables. */
    method UpdateStatus(id: Id, status: Status, ok: bool) returns (done: bool)
      modifies this
      ensures done == Succeeds(old(Contents()), Write(id, status), ok)
      ensures Contents() == Effect(old(Contents()), Write(id, status), ok)
    {
      done := ok && id in rows;
      if done {
        rows := rows[id := rows[id].(status := status)];
        history := history + [Entry(id, status)];
      }
    }

    method Enqueue(id: Id, ok: bool)
      modifies this
      ensures Contents() == Effect(old(Contents()), Publish(id), ok)
    {
      if ok {
        outstanding := outstanding + multiset{id};
        published := published + multiset{id};
      }
    }

    method Acknowledge(id: Id, ok: bool)
      modifies this
      ensures Contents() == Effect(old(Contents()), Ack(id), ok)
    {
      if ok && id in outstanding {
        outstanding := outstanding - multiset{id};
        acked := acked + multiset{id};
      }
    }

    method DispatchCommand(id: Id, row: Row, oks: seq<bool>) returns (done: bool)
      requires |oks| >= 3
      modifies this
      ensures Contents() == Executed(old(Contents()), DispatchPlan(id, row), oks)
      ensures done <==> oks[0] && oks[1] && id !in old(rows)
    {
      ExecutedDispatch(Contents(), id, row, oks);
      var created := Insert(id, row.(status := Pending), oks[0]);
      if !created {
        return false;
      }
      Enqueue(id, oks[1]);
      if !oks[1] {
        return false;
      }
      var _ := UpdateStatus(id, Queued, oks[2]);
      return true;
    }

    /** One new command per device; the ids returned are those of the commands that were stored and queued. */
    method BulkDispatch(requests: seq<(Id, Row)>, oks: seq<seq<bool>>) returns (ids: seq<Id>)
      requires |oks| == |requests| && forall i :: 0 <= i < |oks| ==> |oks[i]| >= 3
      requires forall i, j :: 0 <= i < j < |requests| ==> requests[i].0 != requests[j].0
      requires forall i :: 0 <= i < |requests| ==> requests[i].0 !in rows
      modifies this
      ensures forall id :: id in ids <==> exists i :: 0 <= i < |requests| && requests[i].0 == id && oks[i][0] && oks[i][1]
      ensures forall id :: id in rows <==> id in old(rows) || exists i :: 0 <= i < |requests| && requests[i].0 == id && oks[i][0]
      ensures outstanding == old(outstanding) + multiset(ids)
    {
      ids := [];
      for n := 0 to |requests|
        invariant forall id :: id in ids <==> exists i :: 0 <= i < n && requests[i].0 == id && oks[i][0] && oks[i][1]
        invariant forall id :: id in rows <==> id in old(rows) || exists i :: 0 <= i < n && requests[i].0 == id && oks[i][0]
        invariant outstanding == old(outstanding) + multiset(ids)
      {
        DispatchOutcome(Contents(), requests[n].0, requests[n].1, oks[n]);
        var done := DispatchCommand(requests[n].0, requests[n].1, oks[n]);
        if done {
          ids := ids + [requests[n].0];
        }
      }
    }

    method Cancel(id: Id, ok: bool) returns (done: bool)
      modifies this
      ensures Contents() == Effect(old(Contents()), Write(id, Cancelled), ok)
      ensures done == Succeeds(old(Contents()), Write(id, Cancelled), ok)
    {
      done := UpdateStatus(id, Cancelled, ok);
    }

    /** Writes one status after the other; what fails is passed over. */
    method WriteInTurn(plan: seq<Action>, oks: seq<bool>)
      requires |oks| == |plan| && forall i :: 0 <= i < |plan| ==> plan[i].Write?
      modifies this
      ensures Contents() == Executed(old(Contents()), plan, oks)
    {
      for i := 0 to |plan|
        invariant Executed(Contents(), plan[i..], oks[i..]) == Executed(old(Contents()), plan, oks)
      {
        assert plan[i..][0] == plan[i] && plan[i..][1..] == plan[i + 1..] && oks[i..][0] == oks[i] && oks[i..][1..] == oks[i + 1..];
        var _ := UpdateStatus(plan[i].id, plan[i].status, oks[i]);
      }
    }

    /** The expiry sweep over the rows its query returned. */
    method Sweep(expired: seq<Id>, now: int, oks: seq<bool>)
      requires ListsExpired(Contents(), now, expired) && |oks| == |expired|
      modifies this
      ensures Contents() == Executed(old(Contents()), WritesOf(expired, Expired), oks)
    {
      WriteInTurn(WritesOf(expired, Expired), oks);
    }

    /** The device stream: what could be sent is marked, then every acknowledgement is recorded. */
    method HandleCommandStream(deviceId: string, undelivered: seq<Id>, sendable: nat, acks: seq<DeviceAck>, oks: seq<bool>)
      requires ListsUndelivered(Contents(), deviceId, undelivered) && sendable <= |undelivered|
      requires |oks| == sendable + |acks|
      modifies this
      ensures Contents() == Executed(old(Contents()), WritesOf(undelivered[..sendable], Delivered) + AckWrites(acks), oks)
    {
      WriteInTurn(WritesOf(undelivered[..sendable], Delivered) + AckWrites(acks), oks);
    }

    /** One message: at most five deliveries with growing pauses, then the final status and the acknowledgement. */
    method HandleCommand(id: Id, expired: bool, outcomes: seq<bool>, oks: seq<bool>) returns (attempts: nat, waited: nat)
      requires |outcomes| == MAX_RETRIES && |oks| >= |HandlePlan(id, expired, outcomes)|
      modifies this
      ensures Contents() == Executed(old(Contents()), HandlePlan(id, expired, outcomes), oks)
      ensures attempts == if expired then 0 else AttemptsMade(outcomes)
      ensures waited == TotalWait(attempts)
    {
      ghost var plan := HandlePlan(id, expired, outcomes);
      ExecutedStep(Contents(), plan, oks);
      var _ := UpdateStatus(id, Queued, oks[0]);
      if expired {
        assert plan[1..] == [Write(id, Expired), Ack(id)];
        attempts, waited := 0, 0;
        ExecutedFinal(Contents(), id, Expired, oks[1..]);
        Finish(id, Expired, oks[1], oks[2]);
      } else {
        assert plan[1..] == Attempts(id, outcomes, 0);
        attempts, waited := Deliver(id, outcomes, oks[1..]);
      }
    }

    method Deliver(id: Id, outcomes: seq<bool>, oks: seq<bool>) returns (attempts: nat, waited: nat)
      requires |outcomes| == MAX_RETRIES && |oks| >= |Attempts(id, outcomes, 0)|
      modifies this
      ensures Contents() == Executed(old(Contents()), Attempts(id, outcomes, 0), oks)
      ensures attempts == AttemptsMade(outcomes) && waited == TotalWait(attempts)
    {
      attempts, waited := TryDelivery(outcomes);
      DeliveryPlan(Contents(), id, outcomes, attempts, oks);
      Finish(id, if outcomes[attempts - 1] then Delivered else Failed, oks[2 * attempts - 1], oks[2 * attempts]);
    }

    method Finish(id: Id, status: Status, writeOk: bool, ackOk: bool)
      modifies this
      ensures Contents() == Effect(Effect(old(Contents()), Write(id, status), writeOk), Ack(id), ackOk)
    {
      var _ := UpdateStatus(id, status, writeOk);
      Acknowledge(id, ackOk);
    }
  }

  /** The retry loop: a pause before every attempt but the first, until one succeeds or all are used up. */
  method TryDelivery(outcomes: seq<bool>) returns (attempts: nat, waited: nat)
    requires |outcomes| == MAX_RETRIES
    ensures 0 < attempts <= MAX_RETRIES && (outcomes[attempts - 1] || attempts == MAX_RETRIES)
    ensures forall n :: 0 <= n < attempts - 1 ==> !outcomes[n]
    ensures attempts == AttemptsMade(outcomes) && waited == TotalWait(attempts)
  {
    attempts, waited := 0, 0;
    var delivered := false;
    while attempts < MAX_RETRIES && !delivered
      invariant attempts <= MAX_RETRIES && waited == TotalWait(attempts)
      invariant forall n :: 0 <= n < attempts - 1 ==> !outcomes[n]
      invariant attempts == 0 ==> !delivered
      invariant attempts > 0 ==> delivered == outcomes[attempts - 1]
    {
      if attempts > 0 {
        waited := waited + RetryDelay(attempts);
      }
      delivered := outcomes[attempts];
      attempts := attempts + 1;
    }
    AttemptsUntil(outcomes, if delivered then attempts - 1 else attempts);
  }

  lemma ExecutedFinal(s: Store, id: Id, status: Status, oks: seq<bool>)
    requires |oks| >= 2
    ensures Executed(s, [Write(id, status), Ack(id)], oks) == Effect(Effect(s, Write(id, status), oks[0]), Ack(id), oks[1])
  {
    var plan := [Write(id, status), Ack(id)];
    assert plan[1..] == [Ack(id)] && [Ack(id)][1..] == [];
    ExecutedStep(s, plan, oks);
    var written := Effect(s, Write(id, status), oks[0]);
    ExecutedStep(written, [Ack(id)], oks[1..]);
  }

  lemma ExecutedStep(s: Store, todo: seq<Action>, oks: seq<bool>)
    requires todo != [] && |oks| >= |todo|
    ensures Executed(s, todo, oks) == Executed(Effect(s, todo[0], oks[0]), Rest(s, todo, oks[0]), oks[1..])
    ensures forall t: Store :: Executed(t, [], oks) == t
  {
  }

  lemma ExecutedDispatch(s: Store, id: Id, row: Row, oks: seq<bool>)
    requires |oks| >= 3
    ensures var plan := DispatchPlan(id, row);
      Executed(s, plan, oks)
      == if !Succeeds(s, plan[0], oks[0]) then s
         else if !oks[1] then Effect(s, plan[0], true)
         else Effect(Effect(Effect(s, plan[0], true), plan[1], true), plan[2], oks[2])
  {
    var plan := DispatchPlan(id, row);
    ExecutedStep(s, plan, oks);
    if Succeeds(s, plan[0], oks[0]) {
      var s1 := Effect(s, plan[0], oks[0]);
      assert plan[1..] == [plan[1], plan[2]];
      ExecutedStep(s1, plan[1..], oks[1..]);
      if oks[1] {
        var s2 := Effect(s1, plan[1], oks[1]);
        assert plan[1..][1..] == [plan[2]] && [plan[2]][1..] == [] && oks[1..][1..][0] == oks[2];
        ExecutedStep(s2, [plan[2]], oks[1..][1..]);
      }
    }
  }

  /** A new command is stored if its insert succeeds, and queued if the publish does too. */
  lemma DispatchOutcome(s: Store, id: Id, row: Row, oks: seq<bool>)
    requires |oks| >= 3 && id !in s.rows
    ensures var t := Executed(s, DispatchPlan(id, row), oks);
      && t.rows.Keys == s.rows.Keys + (if oks[0] then {id} else {})
      && t.outstanding == s.outstanding + (if oks[0] && oks[1] then multiset{id} else multiset{})
  {
    ExecutedDispatch(s, id, row, oks);
  }

  // ----- The retry schedule -----

  /** The plan after the pause and delivery of one attempt. */
  function AfterAttempt(id: Id, outcomes: seq<bool>, n: nat): seq<Action>
    requires n < MAX_RETRIES == |outcomes|
  {
    if outcomes[n] then [Write(id, Delivered), Ack(id)] else Attempts(id, outcomes, n + 1)
  }

  /** Pauses and deliveries leave the store alone. */
  lemma PassOver(s: Store, id: Id, outcomes: seq<bool>, n: nat, oks: seq<bool>)
    requires n < MAX_RETRIES == |outcomes| && |oks| >= |Attempts(id, outcomes, n)|
    ensures var k := if n > 0 then 2 else 1;
      |oks| >= k + |AfterAttempt(id, outcomes, n)|
      && Executed(s, Attempts(id, outcomes, n), oks) == Executed(s, AfterAttempt(id, outcomes, n), oks[k..])
  {
    var plan, rest := Attempts(id, outcomes, n), AfterAttempt(id, outcomes, n);
    if n > 0 {
      assert plan == [Wait(RetryDelay(n)), Attempt(id)] + rest;
      assert plan[1..] == [Attempt(id)] + rest && plan[1..][1..] == rest && oks[1..][1..] == oks[2..];
    } else {
      assert plan == [Attempt(id)] + rest && plan[1..] == rest;
    }
  }

  /** Attempt n comes after n deliveries and n - 1 pauses, if the earlier ones failed. */
  lemma {:induction false} Attempted(s: Store, id: Id, outcomes: seq<bool>, n: nat, oks: seq<bool>)
    requires 0 < n <= MAX_RETRIES == |outcomes| && |oks| >= |Attempts(id, outcomes, 0)|
    requires forall k :: 0 <= k < n - 1 ==> !outcomes[k]
    ensures |oks| >= 2 * n - 1 + |AfterAttempt(id, outcomes, n - 1)|
    ensures Executed(s, Attempts(id, outcomes, 0), oks) == Executed(s, AfterAttempt(id, outcomes, n - 1), oks[2 * n - 1..])
  {
    if n == 1 {
      PassOver(s, id, outcomes, 0, oks);
    } else {
      Attempted(s, id, outcomes, n - 1, oks);
      FailedAttemptIsPassed(s, id, outcomes, n, oks);
    }
  }

  lemma FailedAttemptIsPassed(s: Store, id: Id, outcomes: seq<bool>, n: nat, oks: seq<bool>)
    requires 1 < n <= MAX_RETRIES == |outcomes| && !outcomes[n - 2]
    requires |oks| >= 2 * n - 3 + |AfterAttempt(id, outcomes, n - 2)|
    ensures |oks| >= 2 * n - 1 + |AfterAttempt(id, outcomes, n - 1)|
    ensures Executed(s, AfterAttempt(id, outcomes, n - 2), oks[2 * n - 3..]) == Executed(s, AfterAttempt(id, outcomes, n - 1), oks[2 * n - 1..])
  {
    PassOver(s, id, outcomes, n - 1, oks[2 * n - 3..]);
    assert oks[2 * n - 3..][2..] == oks[2 * n - 1..];
  }

  /** What is left of the plan once the last attempt is made: the final status and the acknowledgement. */
  lemma DeliveryPlan(s: Store, id: Id, outcomes: seq<bool>, n: nat, oks: seq<bool>)
    requires 0 < n <= MAX_RETRIES == |outcomes| && |oks| >= |Attempts(id, outcomes, 0)|
    requires forall k :: 0 <= k < n - 1 ==> !outcomes[k]
    requires outcomes[n - 1] || n == MAX_RETRIES
    ensures |oks| >= 2 * n + 1
    ensures Executed(s, Attempts(id, outcomes, 0), oks)
         == Effect(Effect(s, Write(id, if outcomes[n - 1] then Delivered else Failed), oks[2 * n - 1]), Ack(id), oks[2 * n])
  {
    Attempted(s, id, outcomes, n, oks);
    var status := if outcomes[n - 1] then Delivered else Failed;
    assert AfterAttempt(id, outcomes, n - 1) == [Write(id, status), Ack(id)];
    ExecutedFinal(s, id, status, oks[2 * n - 1..]);
  }

  /** Up to and including the first success. */
  function AttemptsMade(outcomes: seq<bool>): (n: nat)
    ensures n <= |outcomes|
  {
    if outcomes == [] then 0 else if outcomes[0] then 1 else 1 + AttemptsMade(outcomes[1..])
  }

  lemma {:induction false} AttemptsUntil(outcomes: seq<bool>, n: nat)
    requires n <= |outcomes| && forall k :: 0 <= k < n ==> !outcomes[k]
    requires n < |outcomes| ==> outcomes[n]
    ensures AttemptsMade(outcomes) == if n < |outcomes| then n + 1 else n
  {
    if n > 0 {
      AttemptsUntil(outcomes[1..], n - 1);
    }
  }

  function TotalWait(attempts: nat): nat {
    if attempts <= 1 then 0 else TotalWait(attempts - 1) + RetryDelay(attempts - 1)
  }

  /** No message is waited on for more than 755 seconds, reached only by all five attempts. */
  lemma WaitIsBounded(attempts: nat)
    requires attempts <= MAX_RETRIES
    ensures TotalWait(attempts) <= 755
    ensures TotalWait(attempts) == 755 <==> attempts == MAX_RETRIES
  {
    assert TotalWait(2) == 5 && TotalWait(3) == 35 && TotalWait(4) == 155 && TotalWait(5) == 755;
  }

  // ----- Outcomes -----

  function FinalStatus(expired: bool, outcomes: seq<bool>): Status {
    if expired then Expired else if true in outcomes then Delivered else Failed
  }

  /** Where every write and the acknowledgement get through, exactly two history rows are added and the message is done. */
  lemma HandledCompletely(s: Store, id: Id, expired: bool, outcomes: seq<bool>, oks: seq<bool>)
    requires |outcomes| == MAX_RETRIES && |oks| >= |HandlePlan(id, expired, outcomes)|
    requires id in s.rows && id in s.outstanding && forall i :: 0 <= i < |oks| ==> oks[i]
    ensures var t, final := Executed(s, HandlePlan(id, expired, outcomes), oks), FinalStatus(expired, outcomes);
      && t.history == s.history + [Entry(id, Queued), Entry(id, final)]
      && t.rows == s.rows[id := s.rows[id].(status := final)]
      && t.outstanding == s.outstanding - multiset{id} && t.acked == s.acked + multiset{id} && t.published == s.published
  {
    HandledByThreeEffects(s, id, expired, outcomes, oks);
    ThreeEffects(s, id, FinalStatus(expired, outcomes));
  }

  function Finished(s: Store, id: Id, final: Status): Store {
    Effect(Effect(Effect(s, Write(id, Queued), true), Write(id, final), true), Ack(id), true)
  }

  lemma ThreeEffects(s: Store, id: Id, final: Status)
    requires id in s.rows && id in s.outstanding
    ensures Finished(s, id, final)
         == Store(s.rows[id := s.rows[id].(status := final)], s.history + [Entry(id, Queued), Entry(id, final)],
                  s.published, s.outstanding - multiset{id}, s.acked + multiset{id})
  {
    assert s.history + [Entry(id, Queued)] + [Entry(id, final)] == s.history + [Entry(id, Queued), Entry(id, final)];
  }

  lemma HandledByThreeEffects(s: Store, id: Id, expired: bool, outcomes: seq<bool>, oks: seq<bool>)
    requires |outcomes| == MAX_RETRIES && |oks| >= |HandlePlan(id, expired, outcomes)| && forall i :: 0 <= i < |oks| ==> oks[i]
    ensures Executed(s, HandlePlan(id, expired, outcomes), oks) == Finished(s, id, FinalStatus(expired, outcomes))
  {
    var plan, queued := HandlePlan(id, expired, outcomes), Effect(s, Write(id, Queued), true);
    ExecutedStep(s, plan, oks);
    if expired {
      assert plan[1..] == [Write(id, Expired), Ack(id)];
      ExecutedFinal(queued, id, Expired, oks[1..]);
    } else {
      assert plan[1..] == Attempts(id, outcomes, 0);
      var n := AttemptsEnd(outcomes);
      DeliveryPlan(queued, id, outcomes, n, oks[1..]);
    }
  }

  /** The attempt at which the deliveries end. */
  lemma AttemptsEnd(outcomes: seq<bool>) returns (n: nat)
    requires |outcomes| == MAX_RETRIES
    ensures 0 < n <= MAX_RETRIES && (outcomes[n - 1] || n == MAX_RETRIES)
    ensures forall k :: 0 <= k < n - 1 ==> !outcomes[k]
    ensures outcomes[n - 1] <==> true in outcomes
  {
    n := 1;
    while n < MAX_RETRIES && !outcomes[n - 1]
      invariant 0 < n <= MAX_RETRIES
      invariant forall k :: 0 <= k < n - 1 ==> !outcomes[k]
    {
      n := n + 1;
    }
  }

  /** Writing one status to several commands changes exactly those whose write gets through. */
  lemma {:induction false} WrittenInTurn(s: Store, ids: seq<Id>, status: Status, oks: seq<bool>, id: Id)
    requires |oks| == |ids| && (forall i, j :: 0 <= i < j < |ids| ==> ids[i] != ids[j]) && forall i :: 0 <= i < |ids| ==> ids[i] in s.rows
    ensures var t := Executed(s, WritesOf(ids, status), oks);
      && t.rows.Keys == s.rows.Keys
      && (id in s.rows ==> t.rows[id] == if Through(ids, oks, id) then s.rows[id].(status := status) else s.rows[id])
    decreases |ids|
  {
    var plan := WritesOf(ids, status);
    if ids != [] {
      ExecutedStep(s, plan, oks);
      assert plan[1..] == WritesOf(ids[1..], status);
      var next := Effect(s, plan[0], oks[0]);
      WrittenInTurn(next, ids[1..], status, oks[1..], id);
      ThroughFirst(ids, oks, id);
    }
  }

  ghost predicate Through(ids: seq<Id>, oks: seq<bool>, id: Id)
    requires |oks| == |ids|
  {
    exists i :: 0 <= i < |ids| && ids[i] == id && oks[i]
  }

  lemma ThroughFirst(ids: seq<Id>, oks: seq<bool>, id: Id)
    requires |oks| == |ids| && ids != []
    ensures Through(ids, oks, id) <==> (ids[0] == id && oks[0]) || Through(ids[1..], oks[1..], id)
  {
    if Through(ids, oks, id) {
      var i :| 0 <= i < |ids| && ids[i] == id && oks[i];
      assert i > 0 ==> ids[1..][i - 1] == id && oks[1..][i - 1];
    }
    if Through(ids[1..], oks[1..], id) {
      var i :| 0 <= i < |ids[1..]| && ids[1..][i] == id && oks[1..][i];
      assert ids[i + 1] == id && oks[i + 1];
    }
  }
}
