/**
 Evaluations that overlap: every replica of the service evaluates the same heartbeat, each on the violations it
 has read, so reads and writes of several evaluations come in any order.
 */
module ComplianceOverlap {
  import opened Common
  import opened ComplianceViolations
  import opened ComplianceReconciliation
  import R = ComplianceRules

  /** What an evaluation still has to write once it has read the active violations of its device. */
  datatype Write = Open(ruleId: string) | Resolve(id: nat)

  datatype Job = Job(orgId: string, deviceId: string, todo: seq<Write>)

  datatype World = World(violations: seq<Violation>, nextId: nat, jobs: seq<Job>)

  const EMPTY := World([], 0, [])

  /** An evaluation begins with its read, which may fail; a write may fail as well. */
  datatype Event = Begin(orgId: string, deviceId: string, rules: seq<Rule>, violated: set<string>, failed: bool) | Step(p: nat, ok: bool)

  // ----- One evaluation -----

  function OpensOf(created: seq<Rule>): (todo: seq<Write>)
    ensures |todo| == |created| && forall i :: 0 <= i < |created| ==> todo[i] == Open(created[i].id)
  {
    seq(|created|, i requires 0 <= i < |created| => Open(created[i].id))
  }

  function ResolvesOf(existing: seq<Violation>, violatedIds: set<string>): (todo: seq<Write>)
    ensures forall i :: 0 <= i < |todo| ==> todo[i].Resolve?
  {
    if existing == [] then []
    else
      var front, last := existing[..|existing| - 1], existing[|existing| - 1];
      ResolvesOf(front, violatedIds) + if last.ruleId in violatedIds then [] else [Resolve(last.id)]
  }

  /** New violations for the violated rules that are not known to be active, then the updates of the settled ones. */
  function Plan(existing: seq<Violation>, rules: seq<Rule>, violated: set<string>): seq<Write> {
    OpensOf(Opened(rules, violated, existing, NO_FAILURES)) + ResolvesOf(existing, ViolatedIds(rules, violated))
  }

  function WithResolved(violations: seq<Violation>, id: nat): (r: seq<Violation>)
    ensures |r| == |violations|
    ensures forall i :: 0 <= i < |r| ==> r[i] == if violations[i].id == id then violations[i].(status := Resolved) else violations[i]
  {
    seq(|violations|, i requires 0 <= i < |violations| => if violations[i].id == id then violations[i].(status := Resolved) else violations[i])
  }

  function Written(violations: seq<Violation>, nextId: nat, job: Job, write: Write): (seq<Violation>, nat) {
    match write
    case Open(ruleId) => (violations + [Violation(nextId, job.orgId, ruleId, job.deviceId, Active)], nextId + 1)
    case Resolve(id) => (WithResolved(violations, id), nextId)
  }

  // ----- Runs -----

  ghost predicate Enabled(w: World, e: Event) {
    match e
    case Begin(_, _, rules, _, _) => DistinctRules(rules)
    case Step(p, _) => p < |w.jobs| && w.jobs[p].todo != []
  }

  ghost function Next(w: World, e: Event): World
    requires Enabled(w, e)
  {
    match e
    case Begin(orgId, deviceId, rules, violated, failed) =>
      var existing := if failed then [] else ActiveRows(w.violations, orgId, deviceId);
      w.(jobs := w.jobs + [Job(orgId, deviceId, Plan(existing, rules, violated))])
    case Step(p, ok) =>
      var job := w.jobs[p];
      var (violations, nextId) := if ok then Written(w.violations, w.nextId, job, job.todo[0]) else (w.violations, w.nextId);
      World(violations, nextId, w.jobs[p := job.(todo := job.todo[1..])])
  }

  ghost predicate IsRun(w: World, events: seq<Event>)
    decreases |events|
  {
    events == [] || (Enabled(w, events[0]) && IsRun(Next(w, events[0]), events[1..]))
  }

  ghost function After(w: World, events: seq<Event>): World
    requires IsRun(w, events)
    decreases |events|
  {
    if events == [] then w else After(Next(w, events[0]), events[1..])
  }

  /** The evaluations of a device that have writes to come. */
  ghost function InProgress(w: World, orgId: string, deviceId: string): set<nat> {
    set p: nat | p < |w.jobs| && w.jobs[p].todo != [] && w.jobs[p].orgId == orgId && w.jobs[p].deviceId == deviceId
  }

  ghost predicate AtMostInProgress(w: World, k: nat) {
    forall orgId, deviceId :: |InProgress(w, orgId, deviceId)| <= k
  }

  /** No read fails, and at most k evaluations of one device are in progress at any time. */
  ghost predicate IsClean(w: World, events: seq<Event>, k: nat)
    requires IsRun(w, events)
    decreases |events|
  {
    AtMostInProgress(w, k) && (events == [] || (!(events[0].Begin? && events[0].failed) && IsClean(Next(w, events[0]), events[1..], k)))
  }

  // ----- One evaluation of a device at a time -----

  /** No violation is active that the job is still to open, and it opens none twice. */
  ghost predicate OpensFresh(violations: seq<Violation>, job: Job) {
    && (forall i :: 0 <= i < |job.todo| && job.todo[i].Open? ==> !HasActive(violations, job.orgId, job.deviceId, job.todo[i].ruleId))
    && forall i, j :: 0 <= i < j < |job.todo| && job.todo[i].Open? && job.todo[j].Open? ==> job.todo[i].ruleId != job.todo[j].ruleId
  }

  ghost predicate Apart(w: World) {
    forall p, q :: 0 <= p < q < |w.jobs| && w.jobs[p].todo != [] && w.jobs[q].todo != [] ==>
      w.jobs[p].orgId != w.jobs[q].orgId || w.jobs[p].deviceId != w.jobs[q].deviceId
  }

  ghost predicate Inv(w: World) {
    AtMostOne(w.violations) && forall p :: 0 <= p < |w.jobs| ==> OpensFresh(w.violations, w.jobs[p])
  }

  lemma OneInProgress(w: World)
    requires AtMostInProgress(w, 1)
    ensures Apart(w)
  {
    forall p, q | 0 <= p < q < |w.jobs| && w.jobs[p].todo != [] && w.jobs[q].todo != []
      ensures w.jobs[p].orgId != w.jobs[q].orgId || w.jobs[p].deviceId != w.jobs[q].deviceId
    {
      var both, s := {p, q}, InProgress(w, w.jobs[p].orgId, w.jobs[p].deviceId);
      assert |both| == 2;
      if q in s {
        SubsetIsSmaller(both, s);
      }
    }
  }

  lemma BeginKeepsInv(w: World, e: Event)
    requires Inv(w) && Enabled(w, e) && e.Begin? && !e.failed
    ensures Inv(Next(w, e))
  {
    PlanIsFresh(w.violations, e.orgId, e.deviceId, e.rules, e.violated);
  }

  lemma PlanIsFresh(violations: seq<Violation>, orgId: string, deviceId: string, rules: seq<Rule>, violated: set<string>)
    requires DistinctRules(rules)
    ensures OpensFresh(violations, Job(orgId, deviceId, Plan(ActiveRows(violations, orgId, deviceId), rules, violated)))
  {
    var existing := ActiveRows(violations, orgId, deviceId);
    var created := Opened(rules, violated, existing, NO_FAILURES);
    OpenedDistinct(rules, violated, existing, NO_FAILURES);
    OpenedMembers(rules, violated, existing, NO_FAILURES);
    forall i | 0 <= i < |created|
      ensures !HasActive(violations, orgId, deviceId, created[i].id)
    {
      assert created[i] in created;
      forall n | 0 <= n < |violations|
        ensures ActiveFor(violations[n], orgId, deviceId) ==> violations[n].ruleId != created[i].id
      {
        assert ActiveFor(violations[n], orgId, deviceId) ==> violations[n] in existing;
      }
    }
  }

  lemma WriteKeepsInv(w: World, p: nat, ok: bool)
    requires Inv(w) && Apart(w) && Enabled(w, Step(p, ok))
    ensures Inv(Next(w, Step(p, ok)))
  {
    var job, next := w.jobs[p], Next(w, Step(p, ok));
    if ok {
      WriteKeepsOne(w.violations, w.nextId, job);
      forall q | 0 <= q < |w.jobs| && q != p
        ensures OpensFresh(next.violations, w.jobs[q])
      {
        WriteSparesOthers(w.violations, w.nextId, job, w.jobs[q]);
      }
    }
    RestIsFresh(next.violations, job, next.jobs[p], w.violations, ok, w.nextId);
  }

  lemma WriteKeepsOne(violations: seq<Violation>, nextId: nat, job: Job)
    requires AtMostOne(violations) && OpensFresh(violations, job) && job.todo != []
    ensures AtMostOne(Written(violations, nextId, job, job.todo[0]).0)
  {
    match job.todo[0]
    case Open(ruleId) =>
      forall i | 0 <= i < |violations|
        ensures !SameActive(violations[i], Violation(nextId, job.orgId, ruleId, job.deviceId, Active))
      {
      }
    case Resolve(id) => SettlingKeepsAtMostOne(violations, WithResolved(violations, id));
  }

  lemma WriteSparesOthers(violations: seq<Violation>, nextId: nat, job: Job, other: Job)
    requires OpensFresh(violations, other) && job.todo != []
    requires other.todo == [] || job.orgId != other.orgId || job.deviceId != other.deviceId
    ensures OpensFresh(Written(violations, nextId, job, job.todo[0]).0, other)
  {
    var after := Written(violations, nextId, job, job.todo[0]).0;
    forall i | 0 <= i < |other.todo| && other.todo[i].Open?
      ensures !HasActive(after, other.orgId, other.deviceId, other.todo[i].ruleId)
    {
      forall n | 0 <= n < |after|
        ensures !(ActiveFor(after[n], other.orgId, other.deviceId) && after[n].ruleId == other.todo[i].ruleId)
      {
        if n < |violations| {
          assert ActiveFor(after[n], other.orgId, other.deviceId) ==> after[n] == violations[n];
        }
      }
    }
  }

  lemma RestIsFresh(after: seq<Violation>, job: Job, rest: Job, before: seq<Violation>, ok: bool, nextId: nat)
    requires OpensFresh(before, job) && job.todo != [] && rest == job.(todo := job.todo[1..])
    requires after == if ok then Written(before, nextId, job, job.todo[0]).0 else before
    ensures OpensFresh(after, rest)
  {
    forall i | 0 <= i < |rest.todo| && rest.todo[i].Open?
      ensures !HasActive(after, rest.orgId, rest.deviceId, rest.todo[i].ruleId)
    {
      assert rest.todo[i] == job.todo[i + 1];
      forall n | 0 <= n < |after|
        ensures !(ActiveFor(after[n], rest.orgId, rest.deviceId) && after[n].ruleId == rest.todo[i].ruleId)
      {
        if n < |before| {
          assert ActiveFor(after[n], rest.orgId, rest.deviceId) ==> after[n] == before[n];
        }
      }
    }
  }

  lemma {:induction false} CleanRunsKeepInv(w: World, events: seq<Event>)
    requires Inv(w) && IsRun(w, events) && IsClean(w, events, 1)
    ensures Inv(After(w, events))
    decreases |events|
  {
    if events != [] {
      if events[0].Begin? {
        BeginKeepsInv(w, events[0]);
      } else {
        OneInProgress(w);
        WriteKeepsInv(w, events[0].p, events[0].ok);
      }
      CleanRunsKeepInv(Next(w, events[0]), events[1..]);
    }
  }

  /** Where no two evaluations of a device overlap and no read fails, every interleaving keeps at most one active violation. */
  lemma ApartKeepsOne(events: seq<Event>)
    requires IsRun(EMPTY, events) && IsClean(EMPTY, events, 1)
    ensures AtMostOne(After(EMPTY, events).violations)
  {
    CleanRunsKeepInv(EMPTY, events);
  }

  // ----- Two at a time -----

  lemma RunThen(w: World, e: Event, rest: seq<Event>)
    requires Enabled(w, e) && IsRun(Next(w, e), rest)
    ensures IsRun(w, [e] + rest) && After(w, [e] + rest) == After(Next(w, e), rest)
  {
    assert ([e] + rest)[1..] == rest;
  }

  /** A violated rule without an active violation is the first that an evaluation of it alone opens. */
  lemma PlanOpens(violations: seq<Violation>, orgId: string, deviceId: string, rule: Rule)
    requires !HasActive(violations, orgId, deviceId, rule.id)
    ensures var plan := Plan(ActiveRows(violations, orgId, deviceId), [rule], {rule.id}); plan != [] && plan[0] == Open(rule.id)
  {
    var existing := ActiveRows(violations, orgId, deviceId);
    forall n | 0 <= n < |existing|
      ensures existing[n].ruleId != rule.id
    {
      assert existing[n] in existing;
    }
    assert [rule][..0] == [];
    assert Opened([rule], {rule.id}, existing, NO_FAILURES) == Opened([], {rule.id}, existing, NO_FAILURES) + [rule];
  }

  /** The reads of both, then the first writes of both. */
  function Overlapping(w: World, orgId: string, deviceId: string, rule: Rule): seq<Event> {
    var begin := Begin(orgId, deviceId, [rule], {rule.id}, false);
    [begin, begin, Step(|w.jobs|, true), Step(|w.jobs| + 1, true)]
  }

  /** From any state: two evaluations that both read before either writes open the same violation twice. */
  lemma OverlapOpensTwice(w: World, orgId: string, deviceId: string, rule: Rule)
    requires !HasActive(w.violations, orgId, deviceId, rule.id)
    ensures IsRun(w, Overlapping(w, orgId, deviceId, rule))
    ensures !AtMostOne(After(w, Overlapping(w, orgId, deviceId, rule)).violations)
  {
    var begin, n := Begin(orgId, deviceId, [rule], {rule.id}, false), |w.jobs|;
    PlanOpens(w.violations, orgId, deviceId, rule);
    var steps := [Step(n, true), Step(n + 1, true)];
    FirstWritesOpenTwice(Next(Next(w, begin), begin), n, rule.id);
    RunThen(Next(w, begin), begin, steps);
    RunThen(w, begin, [begin] + steps);
    assert Overlapping(w, orgId, deviceId, rule) == [begin] + ([begin] + steps);
  }

  lemma FirstWritesOpenTwice(w: World, n: nat, ruleId: string)
    requires n + 1 < |w.jobs| && w.jobs[n] == w.jobs[n + 1] && w.jobs[n].todo != [] && w.jobs[n].todo[0] == Open(ruleId)
    ensures IsRun(w, [Step(n, true), Step(n + 1, true)]) && !AtMostOne(After(w, [Step(n, true), Step(n + 1, true)]).violations)
  {
    var w1 := Next(w, Step(n, true));
    var w2 := Next(w1, Step(n + 1, true));
    RunThen(w1, Step(n + 1, true), []);
    RunThen(w, Step(n, true), [Step(n + 1, true)]);
    assert [Step(n, true)] + [Step(n + 1, true)] == [Step(n, true), Step(n + 1, true)];
    assert SameActive(w2.violations[|w.violations|], w2.violations[|w.violations| + 1]);
  }

  lemma FewJobs(w: World, k: nat)
    requires |w.jobs| <= 2 <= k
    ensures AtMostInProgress(w, k)
  {
    forall orgId, deviceId
      ensures |InProgress(w, orgId, deviceId)| <= k
    {
      SubsetIsSmaller(InProgress(w, orgId, deviceId), {0, 1});
    }
  }

  lemma {:induction false} FewJobsAreClean(w: World, events: seq<Event>, k: nat)
    requires IsRun(w, events) && k >= 2 && |w.jobs| + Begun(events) <= 2
    requires forall i :: 0 <= i < |events| && events[i].Begin? ==> !events[i].failed
    ensures IsClean(w, events, k)
    decreases |events|
  {
    FewJobs(w, k);
    if events != [] {
      FewJobsAreClean(Next(w, events[0]), events[1..], k);
    }
  }

  function Begun(events: seq<Event>): nat {
    if events == [] then 0 else (if events[0].Begin? then 1 else 0) + Begun(events[1..])
  }

  lemma {:induction false} FewerAreClean(w: World, events: seq<Event>, k: nat, n: nat)
    requires IsRun(w, events) && IsClean(w, events, k) && k <= n
    ensures IsClean(w, events, n)
    decreases |events|
  {
    if events != [] {
      FewerAreClean(Next(w, events[0]), events[1..], k, n);
    }
  }

  /** No run of evaluations whose reads succeed, at most k of a device at a time, leaves a rule with two active violations. */
  ghost predicate KeepsOne(k: nat) {
    forall events :: IsRun(EMPTY, events) && IsClean(EMPTY, events, k) ==> AtMostOne(After(EMPTY, events).violations)
  }

  /** At most one active violation per device and rule is kept if and only if no two evaluations of a device overlap. */
  lemma OneIffNoOverlap(k: nat)
    ensures KeepsOne(k) <==> k <= 1
  {
    if k <= 1 {
      forall events | IsRun(EMPTY, events) && IsClean(EMPTY, events, k)
        ensures AtMostOne(After(EMPTY, events).violations)
      {
        FewerAreClean(EMPTY, events, k, 1);
        ApartKeepsOne(events);
      }
    } else {
      var rule := Rule("", "", R.Invalid, Alert, 0);
      var events := Overlapping(EMPTY, "", "", rule);
      OverlapOpensTwice(EMPTY, "", "", rule);
      assert Begun(events) == 2 by {
        assert events[1..][1..] == events[2..] && events[2..][1..] == events[3..] && events[3..][1..] == [];
        assert Begun(events[3..]) == 0 && Begun(events[2..]) == 0 && Begun(events[1..]) == 1;
      }
      FewJobsAreClean(EMPTY, events, k);
    }
  }

  // ----- An evaluation on its own -----

  function AllWritten(violations: seq<Violation>, nextId: nat, job: Job, todo: seq<Write>): (seq<Violation>, nat)
    decreases |todo|
  {
    if todo == [] then (violations, nextId)
    else
      var (after, id) := Written(violations, nextId, job, todo[0]);
      AllWritten(after, id, job, todo[1..])
  }

  lemma {:induction false} WrittenInParts(violations: seq<Violation>, nextId: nat, job: Job, a: seq<Write>, b: seq<Write>)
    ensures var (after, id) := AllWritten(violations, nextId, job, a);
      AllWritten(violations, nextId, job, a + b) == AllWritten(after, id, job, b)
    decreases |a|
  {
    if a == [] {
      assert a + b == b;
    } else {
      var (after, id) := Written(violations, nextId, job, a[0]);
      WrittenInParts(after, id, job, a[1..], b);
      assert (a + b)[1..] == a[1..] + b;
    }
  }

  lemma {:induction false} OpensAdd(violations: seq<Violation>, nextId: nat, job: Job, created: seq<Rule>)
    ensures AllWritten(violations, nextId, job, OpensOf(created))
         == (violations + NewViolations(created, job.orgId, job.deviceId, nextId), nextId + |created|)
    decreases |created|
  {
    if created == [] {
      assert violations + [] == violations;
    } else {
      var first := Violation(nextId, job.orgId, created[0].id, job.deviceId, Active);
      OpensAdd(violations + [first], nextId + 1, job, created[1..]);
      assert OpensOf(created)[1..] == OpensOf(created[1..]);
      AddedInTurn(violations, created, job.orgId, job.deviceId, nextId);
    }
  }

  lemma AddedInTurn(violations: seq<Violation>, created: seq<Rule>, orgId: string, deviceId: string, nextId: nat)
    requires created != []
    ensures violations + [Violation(nextId, orgId, created[0].id, deviceId, Active)] + NewViolations(created[1..], orgId, deviceId, nextId + 1)
         == violations + NewViolations(created, orgId, deviceId, nextId)
  {
    assert NewViolations(created, orgId, deviceId, nextId)
        == [Violation(nextId, orgId, created[0].id, deviceId, Active)] + NewViolations(created[1..], orgId, deviceId, nextId + 1);
  }

  lemma {:induction false} ResolvesSettle(violations: seq<Violation>, nextId: nat, job: Job, existing: seq<Violation>, ids: set<string>)
    ensures var (after, id) := AllWritten(violations, nextId, job, ResolvesOf(existing, ids));
      id == nextId && AllResolved(violations, after, existing, ids, NO_FAILURES)
    decreases |existing|
  {
    if existing != [] {
      var front, last := existing[..|existing| - 1], existing[|existing| - 1];
      ResolvesSettle(violations, nextId, job, front, ids);
      var one := if last.ruleId in ids then [] else [Resolve(last.id)];
      WrittenInParts(violations, nextId, job, ResolvesOf(front, ids), one);
      assert existing == front + [last];
    }
  }

  /** The writes of an evaluation on its own leave the table that the sequential handler leaves. */
  lemma AloneIsEvaluated(t: Table, rules: seq<Rule>, violated: set<string>, orgId: string, deviceId: string)
    requires t.Valid()
    ensures var existing := ActiveRows(t.violations, orgId, deviceId);
      var todo := Plan(existing, rules, violated);
      var (violations, nextId) := AllWritten(t.violations, t.nextId, Job(orgId, deviceId, todo), todo);
      var dispatched := t.dispatched + Dispatches(Opened(rules, violated, existing, NO_FAILURES), orgId, deviceId);
      Evaluated(t, Table(violations, nextId, dispatched), rules, violated, NO_FAILURES, orgId, deviceId)
  {
    var existing := ActiveRows(t.violations, orgId, deviceId);
    var todo := Plan(existing, rules, violated);
    var job, created, ids := Job(orgId, deviceId, todo), Opened(rules, violated, existing, NO_FAILURES), ViolatedIds(rules, violated);
    var handled := WithCreated(t, created, orgId, deviceId);
    WrittenInParts(t.violations, t.nextId, job, OpensOf(created), ResolvesOf(existing, ids));
    OpensAdd(t.violations, t.nextId, job, created);
    ResolvesSettle(handled.violations, handled.nextId, job, existing, ids);
    var (violations, nextId) := AllWritten(t.violations, t.nextId, job, todo);
    HandledAllAdds(t, rules, violated, existing, NO_FAILURES, orgId, deviceId);
    SettledIsResolved(t, handled, Table(violations, nextId, handled.dispatched), existing, rules, violated, orgId, deviceId, NO_FAILURES);
  }

  /** And its steps in a row make these writes. */
  lemma {:induction false} StepsWriteAll(w: World, p: nat) returns (events: seq<Event>)
    requires p < |w.jobs|
    ensures IsRun(w, events)
    ensures var t := After(w, events); (t.violations, t.nextId) == AllWritten(w.violations, w.nextId, w.jobs[p], w.jobs[p].todo)
    decreases |w.jobs[p].todo|
  {
    if w.jobs[p].todo == [] {
      events := [];
    } else {
      var next := Next(w, Step(p, true));
      var rest := StepsWriteAll(next, p);
      events := [Step(p, true)] + rest;
      RunThen(w, Step(p, true), rest);
      var (after, id) := Written(w.violations, w.nextId, w.jobs[p], w.jobs[p].todo[0]);
      SameDevice(after, id, w.jobs[p], next.jobs[p], next.jobs[p].todo);
    }
  }

  lemma {:induction false} SameDevice(violations: seq<Violation>, nextId: nat, a: Job, b: Job, todo: seq<Write>)
    requires a.orgId == b.orgId && a.deviceId == b.deviceId
    ensures AllWritten(violations, nextId, a, todo) == AllWritten(violations, nextId, b, todo)
    decreases |todo|
  {
    if todo != [] {
      var (after, id) := Written(violations, nextId, a, todo[0]);
      SameDevice(after, id, a, b, todo[1..]);
    }
  }
}
