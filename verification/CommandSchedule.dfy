/** What the command plans consist of, step by step, and what each step changes. */
module CommandSchedule {
  import opened Common
  import opened CommandPipeline

  /** Five deliveries, after pauses of 5, 30, 120 and 600 seconds. */
  function AllAttempts(id: Id): seq<Action> {
    [Attempt(id), Wait(5), Attempt(id), Wait(30), Attempt(id), Wait(120), Attempt(id), Wait(600), Attempt(id)]
  }

  lemma LastAttempt(id: Id, outcomes: seq<bool>)
    requires |outcomes| == 5
    ensures Attempts(id, outcomes, 4) == [Wait(600), Attempt(id), Write(id, if outcomes[4] then Delivered else Failed), Ack(id)]
  {
    assert Attempts(id, outcomes, 5) == [Write(id, Failed), Ack(id)];
  }

  lemma FourthAttempt(id: Id, outcomes: seq<bool>)
    requires |outcomes| == 5
    ensures Attempts(id, outcomes, 3) == [Wait(120), Attempt(id)] + if outcomes[3] then [Write(id, Delivered), Ack(id)] else Attempts(id, outcomes, 4)
  {
  }

  lemma ThirdAttempt(id: Id, outcomes: seq<bool>)
    requires |outcomes| == 5
    ensures Attempts(id, outcomes, 2) == [Wait(30), Attempt(id)] + if outcomes[2] then [Write(id, Delivered), Ack(id)] else Attempts(id, outcomes, 3)
  {
  }

  lemma SecondAttempt(id: Id, outcomes: seq<bool>)
    requires |outcomes| == 5
    ensures Attempts(id, outcomes, 1) == [Wait(5), Attempt(id)] + if outcomes[1] then [Write(id, Delivered), Ack(id)] else Attempts(id, outcomes, 2)
  {
  }

  lemma FirstAttempt(id: Id, outcomes: seq<bool>)
    requires |outcomes| == 5
    ensures Attempts(id, outcomes, 0) == [Attempt(id)] + if outcomes[0] then [Write(id, Delivered), Ack(id)] else Attempts(id, outcomes, 1)
  {
    assert Attempts(id, outcomes, 0)
        == ([] + [Attempt(id)]) + if outcomes[0] then [Write(id, Delivered), Ack(id)] else Attempts(id, outcomes, 1);
  }

  lemma EarlyDelivery(id: Id, outcomes: seq<bool>)
    requires |outcomes| == 5
    ensures outcomes[0] ==> Attempts(id, outcomes, 0) == [Attempt(id)] + [Write(id, Delivered), Ack(id)]
    ensures !outcomes[0] && outcomes[1] ==>
      Attempts(id, outcomes, 0) == [Attempt(id), Wait(5), Attempt(id)] + [Write(id, Delivered), Ack(id)]
    ensures !outcomes[0] && !outcomes[1] && outcomes[2] ==>
      Attempts(id, outcomes, 0) == [Attempt(id), Wait(5), Attempt(id), Wait(30), Attempt(id)] + [Write(id, Delivered), Ack(id)]
  {
    FirstAttempt(id, outcomes);
    SecondAttempt(id, outcomes);
    ThirdAttempt(id, outcomes);
  }

  lemma AfterThree(id: Id, outcomes: seq<bool>)
    requires |outcomes| == 5 && !outcomes[0] && !outcomes[1] && !outcomes[2]
    ensures Attempts(id, outcomes, 0) == [Attempt(id), Wait(5), Attempt(id), Wait(30), Attempt(id)] + Attempts(id, outcomes, 3)
  {
    FirstAttempt(id, outcomes);
    SecondAttempt(id, outcomes);
    ThirdAttempt(id, outcomes);
  }

  lemma LateDelivery(id: Id, outcomes: seq<bool>)
    requires |outcomes| == 5 && !outcomes[0] && !outcomes[1] && !outcomes[2]
    ensures outcomes[3] ==>
      Attempts(id, outcomes, 0) == [Attempt(id), Wait(5), Attempt(id), Wait(30), Attempt(id), Wait(120), Attempt(id)] + [Write(id, Delivered), Ack(id)]
    ensures !outcomes[3] ==>
      Attempts(id, outcomes, 0) == AllAttempts(id) + [Write(id, if outcomes[4] then Delivered else Failed), Ack(id)]
  {
    AfterThree(id, outcomes);
    if outcomes[3] {
      FourthAttempt(id, outcomes);
    } else {
      FourthAttempt(id, outcomes);
      LastAttempt(id, outcomes);
    }
  }

  lemma Prefixes(id: Id)
    ensures AllAttempts(id)[..1] == [Attempt(id)]
    ensures AllAttempts(id)[..3] == [Attempt(id), Wait(5), Attempt(id)]
    ensures AllAttempts(id)[..5] == [Attempt(id), Wait(5), Attempt(id), Wait(30), Attempt(id)]
    ensures AllAttempts(id)[..7] == [Attempt(id), Wait(5), Attempt(id), Wait(30), Attempt(id), Wait(120), Attempt(id)]
    ensures AllAttempts(id)[..9] == AllAttempts(id)
  {
  }

  /** Handling a message that has not expired: queued, the schedule up to the first success, the final status, the acknowledgement. */
  lemma HandlingFollowsSchedule(id: Id, outcomes: seq<bool>, n: nat)
    requires |outcomes| == 5 && n < 5 && outcomes[n] && forall k :: 0 <= k < n ==> !outcomes[k]
    ensures HandlePlan(id, false, outcomes) == [Write(id, Queued)] + (AllAttempts(id)[..2 * n + 1] + [Write(id, Delivered), Ack(id)])
  {
    assert HandlePlan(id, false, outcomes) == [Write(id, Queued)] + Attempts(id, outcomes, 0);
    DeliveredAt(id, outcomes, n);
  }

  lemma DeliveredAt(id: Id, outcomes: seq<bool>, n: nat)
    requires |outcomes| == 5 && n < 5 && outcomes[n] && forall k :: 0 <= k < n ==> !outcomes[k]
    ensures Attempts(id, outcomes, 0) == AllAttempts(id)[..2 * n + 1] + [Write(id, Delivered), Ack(id)]
  {
    Prefixes(id);
    if n <= 2 {
      EarlyDelivery(id, outcomes);
    } else {
      LateDelivery(id, outcomes);
    }
  }

  lemma HandlingFails(id: Id, outcomes: seq<bool>)
    requires |outcomes| == 5 && forall k :: 0 <= k < 5 ==> !outcomes[k]
    ensures HandlePlan(id, false, outcomes) == [Write(id, Queued)] + (AllAttempts(id) + [Write(id, Failed), Ack(id)])
  {
    LateDelivery(id, outcomes);
    assert HandlePlan(id, false, outcomes) == [Write(id, Queued)] + Attempts(id, outcomes, 0);
  }

  lemma OtherPlans(id: Id, row: Row, outcomes: seq<bool>)
    requires |outcomes| == 5
    ensures HandlePlan(id, true, outcomes) == [Write(id, Queued), Write(id, Expired), Ack(id)]
    ensures DispatchPlan(id, row) == [Create(id, Row(row.deviceId, Pending, row.expiresAt)), Publish(id), Write(id, Queued)]
  {
  }

  // ----- Queries -----

  /** The sweep takes pending, queued and delivered commands whose time has passed; the stream what the device was not sent yet. */
  lemma QueriesSelect(row: Row, now: int, deviceId: string)
    ensures IsExpiredPending(row, now) <==>
      row.status in {Pending, Queued, Delivered} && exists t :: row.expiresAt == Some(t) && t < now
    ensures IsUndelivered(row, deviceId) <==> row.deviceId == deviceId && row.status in {Pending, Queued, Sent}
  {
    if row.expiresAt.Some? {
      assert row.expiresAt == Some(row.expiresAt.value);
    }
  }

  /** Every status is stored under its own text and read back from it. */
  lemma TextsNameStatuses(status: Status)
    requires !status.Other?
    ensures StatusOfText(TextOf(status)) == status
  {
  }

  lemma TextsAreKnown()
    ensures TextOf(Pending) == "pending" && TextOf(Queued) == "queued" && TextOf(Sent) == "sent" && TextOf(Delivered) == "delivered"
    ensures TextOf(Executing) == "executing" && TextOf(Completed) == "completed" && TextOf(Failed) == "failed"
    ensures TextOf(Expired) == "expired" && TextOf(Cancelled) == "cancelled"
  {
  }

  // ----- What a step changes -----

  /** A status write that gets through changes the status of one known command and adds its history row; else nothing changes. */
  lemma WritesChange(s: Store, id: Id, status: Status, ok: bool)
    ensures var t := Effect(s, Write(id, status), ok);
      if ok && id in s.rows then
        t == s.(rows := s.rows[id := Row(s.rows[id].deviceId, status, s.rows[id].expiresAt)], history := s.history + [Entry(id, status)])
      else t == s
  {
  }

  /** An insert stores a new command; a publish adds its message; an acknowledgement takes an outstanding one away. */
  lemma OthersChange(s: Store, id: Id, row: Row, ok: bool, seconds: nat)
    ensures Effect(s, Create(id, row), ok) == if ok && id !in s.rows then s.(rows := s.rows[id := row]) else s
    ensures Effect(s, Publish(id), ok)
         == if ok then s.(published := s.published + multiset{id}, outstanding := s.outstanding + multiset{id}) else s
    ensures Effect(s, Ack(id), ok)
         == if ok && s.outstanding[id] > 0 then s.(outstanding := s.outstanding - multiset{id}, acked := s.acked + multiset{id}) else s
    ensures Effect(s, Attempt(id), ok) == s && Effect(s, Wait(seconds), ok) == s
  {
  }
}
