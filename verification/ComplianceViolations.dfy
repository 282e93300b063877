/** How evaluating a device's rules opens and resolves its violations. */
module ComplianceViolations {
  import opened Common
  import R = ComplianceRules

  datatype Action = Alert | Lock | Wipe | Restrict | Notify | OtherAction

  datatype Rule = Rule(id: string, name: string, document: R.Document, action: Action, gracePeriodHours: int)

  datatype Status = Active | Resolved | Dismissed

  datatype Violation = Violation(id: nat, orgId: string, ruleId: string, deviceId: string, status: Status)

  datatype Dispatch = Dispatch(action: Action, ruleId: string, deviceId: string, orgId: string)

  /** Which repository calls fail. */
  datatype Failures = Failures(read: bool, create: set<string>, resolve: set<nat>)

  const NO_FAILURES := Failures(false, {}, {})


  predicate ActiveFor(v: Violation, orgId: string, deviceId: string) {
    v.orgId == orgId && v.deviceId == deviceId && v.status.Active?
  }

  predicate HasActive(violations: seq<Violation>, orgId: string, deviceId: string, ruleId: string) {
    exists i :: 0 <= i < |violations| && ActiveFor(violations[i], orgId, deviceId) && violations[i].ruleId == ruleId
  }

  /** The ids of the listed rules that are violated. */
  function ViolatedIds(rules: seq<Rule>, violated: set<string>): (ids: set<string>)
    ensures forall i :: 0 <= i < |rules| && rules[i].id in violated ==> rules[i].id in ids
    ensures forall id :: id in ids ==> id in violated && exists i :: 0 <= i < |rules| && rules[i].id == id
  {
    if rules == [] then {}
    else
      var last := rules[|rules| - 1];
      ViolatedIds(rules[..|rules| - 1], violated) + if last.id in violated then {last.id} else {}
  }

  ghost predicate DistinctRules(rules: seq<Rule>) {
    forall i, j :: 0 <= i < j < |rules| ==> rules[i].id != rules[j].id
  }

  // ----- The new table -----

  /** The rule gets a new violation: cleanly violated, none known to be active, and the insert succeeds. */
  predicate Opens(rule: Rule, violated: set<string>, existing: seq<Violation>, fails: Failures) {
    rule.id in violated && rule.id !in fails.create
    && !exists i :: 0 <= i < |existing| && existing[i].ruleId == rule.id && existing[i].status.Active?
  }

  function OpenedBy(rule: Rule, violated: set<string>, existing: seq<Violation>, fails: Failures): seq<Rule> {
    if Opens(rule, violated, existing, fails) then [rule] else []
  }

  function Opened(rules: seq<Rule>, violated: set<string>, existing: seq<Violation>, fails: Failures): seq<Rule> {
    if rules == [] then []
    else Opened(rules[..|rules| - 1], violated, existing, fails) + OpenedBy(rules[|rules| - 1], violated, existing, fails)
  }

  function NewViolations(created: seq<Rule>, orgId: string, deviceId: string, nextId: nat): (vs: seq<Violation>)
    ensures |vs| == |created|
    ensures forall i :: 0 <= i < |vs| ==> vs[i] == Violation(nextId + i, orgId, created[i].id, deviceId, Active)
  {
    if created == [] then []
    else
      var n := |created| - 1;
      NewViolations(created[..n], orgId, deviceId, nextId) + [Violation(nextId + n, orgId, created[n].id, deviceId, Active)]
  }

  /** The dispatches for the created rules, those with a grace period left to its own sweep. */
  function Dispatches(created: seq<Rule>, orgId: string, deviceId: string): seq<Dispatch> {
    if created == [] then []
    else
      Dispatches(created[..|created| - 1], orgId, deviceId) + DispatchesOf(created[|created| - 1], orgId, deviceId)
  }

  function DispatchesOf(rule: Rule, orgId: string, deviceId: string): seq<Dispatch> {
    if rule.gracePeriodHours > 0 || rule.action.OtherAction? then [] else [Dispatch(rule.action, rule.id, deviceId, orgId)]
  }

  /** A violation is resolved if it was read as active and its rule is not violated now. */
  predicate Resolves(v: Violation, rules: seq<Rule>, violated: set<string>, orgId: string, deviceId: string, fails: Failures) {
    !fails.read && ActiveFor(v, orgId, deviceId) && v.ruleId !in ViolatedIds(rules, violated) && v.id !in fails.resolve
  }

  function Settled(v: Violation, rules: seq<Rule>, violated: set<string>, orgId: string, deviceId: string, fails: Failures): Violation {
    if Resolves(v, rules, violated, orgId, deviceId, fails) then v.(status := Resolved) else v
  }

  function SettledAll(violations: seq<Violation>, rules: seq<Rule>, violated: set<string>, orgId: string, deviceId: string, fails: Failures): (r: seq<Violation>)
    ensures |r| == |violations|
    ensures forall i :: 0 <= i < |r| ==> r[i] == Settled(violations[i], rules, violated, orgId, deviceId, fails)
  {
    seq(|violations|, i requires 0 <= i < |violations| => Settled(violations[i], rules, violated, orgId, deviceId, fails))
  }

  ghost predicate DistinctIds(violations: seq<Violation>, nextId: nat) {
    && (forall i, j :: 0 <= i < j < |violations| ==> violations[i].id != violations[j].id)
    && forall i :: 0 <= i < |violations| ==> violations[i].id < nextId
  }

  /** The active violations of a device, as the query returns them. */
  function ActiveRows(violations: seq<Violation>, orgId: string, deviceId: string): (rows: seq<Violation>)
    ensures forall v :: v in rows <==> v in violations && ActiveFor(v, orgId, deviceId)
  {
    if violations == [] then []
    else
      assert violations == [violations[0]] + violations[1..];
      (if ActiveFor(violations[0], orgId, deviceId) then [violations[0]] else []) + ActiveRows(violations[1..], orgId, deviceId)
  }

  // ----- The handler -----

  datatype Table = Table(violations: seq<Violation>, nextId: nat, dispatched: seq<Dispatch>) {
    ghost predicate Valid() {
      DistinctIds(violations, nextId)
    }
  }

  /** One rule: a violation is opened, and its action dispatched, unless it is known to be active already. */
  function Handled(t: Table, rule: Rule, violated: set<string>, existing: seq<Violation>, fails: Failures, orgId: string, deviceId: string): Table {
    if Opens(rule, violated, existing, fails) then
      Table(t.violations + [Violation(t.nextId, orgId, rule.id, deviceId, Active)], t.nextId + 1, t.dispatched + DispatchesOf(rule, orgId, deviceId))
    else t
  }

  function HandledAll(t: Table, rules: seq<Rule>, violated: set<string>, existing: seq<Violation>, fails: Failures, orgId: string, deviceId: string): Table {
    if rules == [] then t
    else
      Handled(HandledAll(t, rules[..|rules| - 1], violated, existing, fails, orgId, deviceId),
              rules[|rules| - 1], violated, existing, fails, orgId, deviceId)
  }

  lemma OneRuleMore(t: Table, rules: seq<Rule>, n: nat, violated: set<string>, existing: seq<Violation>, fails: Failures, orgId: string, deviceId: string)
    requires n < |rules|
    ensures HandledAll(t, rules[..n + 1], violated, existing, fails, orgId, deviceId)
         == Handled(HandledAll(t, rules[..n], violated, existing, fails, orgId, deviceId), rules[n], violated, existing, fails, orgId, deviceId)
    ensures ViolatedIds(rules[..n + 1], violated) == ViolatedIds(rules[..n], violated) + if rules[n].id in violated then {rules[n].id} else {}
  {
    assert rules[..n + 1][..n] == rules[..n];
  }

  /** The new violations and dispatches added behind the old ones. */
  function WithCreated(t: Table, created: seq<Rule>, orgId: string, deviceId: string): Table {
    Table(t.violations + NewViolations(created, orgId, deviceId, t.nextId), t.nextId + |created|, t.dispatched + Dispatches(created, orgId, deviceId))
  }

  lemma {:induction false} HandledAllAdds(t: Table, rules: seq<Rule>, violated: set<string>, existing: seq<Violation>, fails: Failures, orgId: string, deviceId: string)
    ensures HandledAll(t, rules, violated, existing, fails, orgId, deviceId)
         == WithCreated(t, Opened(rules, violated, existing, fails), orgId, deviceId)
  {
    if rules == [] {
      assert t.violations + [] == t.violations && t.dispatched + [] == t.dispatched;
    } else {
      var front, rule := rules[..|rules| - 1], rules[|rules| - 1];
      HandledAllAdds(t, front, violated, existing, fails, orgId, deviceId);
      var created := Opened(front, violated, existing, fails);
      if Opens(rule, violated, existing, fails) {
        AddedOne(t, created, rule, orgId, deviceId);
      } else {
        assert created + [] == created;
      }
    }
  }

  lemma AddedOne(t: Table, created: seq<Rule>, rule: Rule, orgId: string, deviceId: string)
    ensures var before := WithCreated(t, created, orgId, deviceId);
      WithCreated(t, created + [rule], orgId, deviceId)
      == Table(before.violations + [Violation(before.nextId, orgId, rule.id, deviceId, Active)], before.nextId + 1,
               before.dispatched + DispatchesOf(rule, orgId, deviceId))
  {
    assert (created + [rule])[..|created|] == created;
  }

  lemma CreatedHaveNewIds(t: Table, created: seq<Rule>, orgId: string, deviceId: string)
    requires t.Valid()
    ensures WithCreated(t, created, orgId, deviceId).Valid()
  {
  }

  class Handler {
    var violations: seq<Violation>
    var nextId: nat
    var dispatched: seq<Dispatch>

    ghost function Contents(): Table
      reads this
    {
      Table(violations, nextId, dispatched)
    }

    constructor ()
      ensures Contents() == Table([], 0, [])
    {
      violations, nextId, dispatched := [], 0, [];
    }

    /** A failed rule listing changes nothing; every other failure is passed over. */
    method EvaluateCompliance(lib: R.Library, orgId: string, deviceId: string, rules: Option<seq<Rule>>, state: R.State, fails: Failures,
                              ghost violated: set<string>)
      returns (compliant: Option<bool>, created: seq<Violation>)
      requires Contents().Valid()
      requires rules.Some? ==> AreViolated(lib, rules.value, state, violated)
      modifies this
      ensures Contents().Valid()
      ensures rules.None? ==> compliant.None? && Contents() == old(Contents())
      ensures rules.Some? ==>
        && compliant == Some(ViolatedIds(rules.value, violated) == {})
        && Evaluated(old(Contents()), Contents(), rules.value, violated, fails, orgId, deviceId)
        && created == violations[|old(violations)|..]
    {
      if rules.None? {
        return None, [];
      }
      var existing := if fails.read then [] else ActiveRows(violations, orgId, deviceId);
      var count, violatedIds := |violations|, {};
      compliant, violatedIds := OpenViolations(lib, orgId, deviceId, rules.value, state, existing, fails, violated);
      HandledAllAdds(old(Contents()), rules.value, violated, existing, fails, orgId, deviceId);
      created := violations[count..];
      ghost var handled := Contents();
      ResolveOthers(existing, violatedIds, fails);
      StaysValid(old(Contents()), handled, Contents(), existing, rules.value, violated, orgId, deviceId, fails);
      SettledIsResolved(old(Contents()), handled, Contents(), existing, rules.value, violated, orgId, deviceId, fails);
    }

    /** The loop over the rules. */
    method OpenViolations(lib: R.Library, orgId: string, deviceId: string, rules: seq<Rule>, state: R.State,
                          existing: seq<Violation>, fails: Failures, ghost violated: set<string>)
      returns (compliant: Option<bool>, violatedIds: set<string>)
      requires AreViolated(lib, rules, state, violated)
      modifies this
      ensures compliant == Some(violatedIds == {}) && violatedIds == ViolatedIds(rules, violated)
      ensures Contents() == HandledAll(old(Contents()), rules, violated, existing, fails, orgId, deviceId)
    {
      compliant, violatedIds := Some(true), {};
      ghost var before := Contents();
      for n := 0 to |rules|
        invariant compliant == Some(violatedIds == {}) && violatedIds == ViolatedIds(rules[..n], violated)
        invariant Contents() == HandledAll(before, rules[..n], violated, existing, fails, orgId, deviceId)
      {
        var breaks := OpenNext(lib, orgId, deviceId, rules, n, state, existing, fails, violated, before);
        if breaks {
          compliant := Some(false);
          violatedIds := violatedIds + {rules[n].id};
        }
      }
      assert rules[..|rules|] == rules;
    }

    /** One pass of the loop. */
    method OpenNext(lib: R.Library, orgId: string, deviceId: string, rules: seq<Rule>, n: nat, state: R.State,
                    existing: seq<Violation>, fails: Failures, ghost violated: set<string>, ghost before: Table)
      returns (breaks: bool)
      requires n < |rules| && AreViolated(lib, rules, state, violated)
      requires Contents() == HandledAll(before, rules[..n], violated, existing, fails, orgId, deviceId)
      modifies this
      ensures Contents() == HandledAll(before, rules[..n + 1], violated, existing, fails, orgId, deviceId)
      ensures ViolatedIds(rules[..n + 1], violated) == ViolatedIds(rules[..n], violated) + if breaks then {rules[n].id} else {}
    {
      OneRuleMore(before, rules, n, violated, existing, fails, orgId, deviceId);
      breaks := HandleRule(lib, orgId, deviceId, rules, n, state, existing, fails, violated);
    }

    method HandleRule(lib: R.Library, orgId: string, deviceId: string, rules: seq<Rule>, n: nat, state: R.State,
                      existing: seq<Violation>, fails: Failures, ghost violated: set<string>)
      returns (breaks: bool)
      requires n < |rules| && AreViolated(lib, rules, state, violated)
      modifies this
      ensures breaks <==> rules[n].id in violated
      ensures Contents() == Handled(old(Contents()), rules[n], violated, existing, fails, orgId, deviceId)
    {
      var rule := rules[n];
      var outcome := R.Evaluate(lib, rule.document, state);
      breaks := outcome == Ok(false);
      if breaks {
        var known := HasActiveViolation(existing, rule.id);
        if !known && rule.id !in fails.create {
          violations := violations + [Violation(nextId, orgId, rule.id, deviceId, Active)];
          nextId := nextId + 1;
          DispatchAction(rule, deviceId, orgId);
        }
      }
    }

    method DispatchAction(rule: Rule, deviceId: string, orgId: string)
      modifies this`dispatched
      ensures dispatched == old(dispatched) + DispatchesOf(rule, orgId, deviceId)
    {
      if rule.gracePeriodHours > 0 {
        return;
      }
      if !rule.action.OtherAction? {
        dispatched := dispatched + [Dispatch(rule.action, rule.id, deviceId, orgId)];
      }
    }

    /** Marks the read violations whose rules are not violated, one update by id each. */
    method ResolveOthers(existing: seq<Violation>, violatedIds: set<string>, fails: Failures)
      modifies this`violations
      ensures AllResolved(old(violations), violations, existing, violatedIds, fails)
    {
      for n := 0 to |existing|
        invariant |violations| == |old(violations)|
        invariant forall i :: 0 <= i < |violations| ==> violations[i] == ResolvedIf(old(violations)[i], existing[..n], violatedIds, fails)
      {
        assert existing[..n + 1] == existing[..n] + [existing[n]];
        if existing[n].ruleId !in violatedIds && existing[n].id !in fails.resolve {
          ResolveViolation(existing[n].id);
        }
      }
      assert existing[..|existing|] == existing;
    }

    method ResolveViolation(id: nat)
      modifies this`violations
      ensures |violations| == |old(violations)|
      ensures forall i :: 0 <= i < |violations| ==>
        violations[i] == if old(violations)[i].id == id then old(violations)[i].(status := Resolved) else old(violations)[i]
    {
      violations := seq(|violations|, i requires 0 <= i < |violations| reads this =>
        if violations[i].id == id then violations[i].(status := Resolved) else violations[i]);
    }
  }

  /** The given ids are, among the rules', those of the rules that evaluate cleanly to false. */
  ghost predicate AreViolated(lib: R.Library, rules: seq<Rule>, state: R.State, violated: set<string>) {
    forall i {:trigger R.DocumentOutcome(lib, rules[i].document, state)} ::
      0 <= i < |rules| ==> (rules[i].id in violated <==> R.DocumentOutcome(lib, rules[i].document, state) == Ok(false))
  }

  method HasActiveViolation(violations: seq<Violation>, ruleId: string) returns (found: bool)
    ensures found <==> exists i :: 0 <= i < |violations| && violations[i].ruleId == ruleId && violations[i].status.Active?
  {
    for n := 0 to |violations|
      invariant !exists i :: 0 <= i < n && violations[i].ruleId == ruleId && violations[i].status.Active?
    {
      if violations[n].ruleId == ruleId && violations[n].status.Active? {
        return true;
      }
    }
    return false;
  }

  predicate ToResolve(id: nat, existing: seq<Violation>, violatedIds: set<string>, fails: Failures) {
    exists k :: 0 <= k < |existing| && existing[k].id == id && existing[k].ruleId !in violatedIds && id !in fails.resolve
  }

  function ResolvedIf(v: Violation, existing: seq<Violation>, violatedIds: set<string>, fails: Failures): Violation {
    if ToResolve(v.id, existing, violatedIds, fails) then v.(status := Resolved) else v
  }

  /** The table before and after an evaluation: read violations settled, new ones added, their actions dispatched. */
  ghost predicate Evaluated(before: Table, after: Table, rules: seq<Rule>, violated: set<string>, fails: Failures, orgId: string, deviceId: string) {
    var existing := if fails.read then [] else ActiveRows(before.violations, orgId, deviceId);
    var created := Opened(rules, violated, existing, fails);
    && after.violations
       == SettledAll(before.violations, rules, violated, orgId, deviceId, fails) + NewViolations(created, orgId, deviceId, before.nextId)
    && after.nextId == before.nextId + |created|
    && after.dispatched == before.dispatched + Dispatches(created, orgId, deviceId)
  }

  lemma ResolvesOne(before: Table, existing: seq<Violation>, rules: seq<Rule>, violated: set<string>,
                    orgId: string, deviceId: string, fails: Failures, v: Violation)
    requires before.Valid() && existing == if fails.read then [] else ActiveRows(before.violations, orgId, deviceId)
    requires v in before.violations
    ensures ToResolve(v.id, existing, ViolatedIds(rules, violated), fails) <==> Resolves(v, rules, violated, orgId, deviceId, fails)
  {
    var violatedIds := ViolatedIds(rules, violated);
    if k :| 0 <= k < |existing| && existing[k].id == v.id && existing[k].ruleId !in violatedIds {
      SameRow(before, existing[k], v, existing, orgId, deviceId, fails);
    }
    if Resolves(v, rules, violated, orgId, deviceId, fails) {
      assert v in existing;
    }
  }

  /** A row that was read under the id of a row of the table is that row. */
  lemma SameRow(before: Table, read: Violation, v: Violation, existing: seq<Violation>, orgId: string, deviceId: string, fails: Failures)
    requires before.Valid() && existing == if fails.read then [] else ActiveRows(before.violations, orgId, deviceId)
    requires read in existing && v in before.violations && read.id == v.id
    ensures read == v && ActiveFor(v, orgId, deviceId) && !fails.read
  {
  }

  lemma ReadBefore(before: Table, existing: seq<Violation>, orgId: string, deviceId: string, fails: Failures, k: nat)
    requires before.Valid() && existing == if fails.read then [] else ActiveRows(before.violations, orgId, deviceId)
    requires k < |existing|
    ensures existing[k].id < before.nextId
  {
    assert existing[k] in existing;
  }

  /** The updates by id resolve exactly the violations to be settled, and never one made in the same run. */
  lemma ResolvesTheSettled(before: Table, existing: seq<Violation>, rules: seq<Rule>, violated: set<string>,
                           orgId: string, deviceId: string, fails: Failures)
    requires before.Valid() && existing == if fails.read then [] else ActiveRows(before.violations, orgId, deviceId)
    ensures forall v: Violation :: v in before.violations ==>
      ResolvedIf(v, existing, ViolatedIds(rules, violated), fails) == Settled(v, rules, violated, orgId, deviceId, fails)
    ensures forall v: Violation :: v.id >= before.nextId ==> ResolvedIf(v, existing, ViolatedIds(rules, violated), fails) == v
  {
    forall v: Violation | v in before.violations
      ensures ResolvedIf(v, existing, ViolatedIds(rules, violated), fails) == Settled(v, rules, violated, orgId, deviceId, fails)
    {
      ResolvesOne(before, existing, rules, violated, orgId, deviceId, fails, v);
    }
    forall k | 0 <= k < |existing|
      ensures existing[k].id < before.nextId
    {
      ReadBefore(before, existing, orgId, deviceId, fails, k);
    }
  }

  /** Resolving keeps the ids. */
  lemma StaysValid(before: Table, handled: Table, after: Table, existing: seq<Violation>, rules: seq<Rule>, violated: set<string>,
                   orgId: string, deviceId: string, fails: Failures)
    requires before.Valid() && handled == HandledAll(before, rules, violated, existing, fails, orgId, deviceId)
    requires after.nextId == handled.nextId
    requires AllResolved(handled.violations, after.violations, existing, ViolatedIds(rules, violated), fails)
    ensures after.Valid()
  {
    HandledAllAdds(before, rules, violated, existing, fails, orgId, deviceId);
    CreatedHaveNewIds(before, Opened(rules, violated, existing, fails), orgId, deviceId);
  }

  lemma SettledIsResolved(before: Table, handled: Table, after: Table, existing: seq<Violation>, rules: seq<Rule>, violated: set<string>,
                          orgId: string, deviceId: string, fails: Failures)
    requires before.Valid()
    requires existing == if fails.read then [] else ActiveRows(before.violations, orgId, deviceId)
    requires handled == HandledAll(before, rules, violated, existing, fails, orgId, deviceId)
    requires after.nextId == handled.nextId && after.dispatched == handled.dispatched
    requires AllResolved(handled.violations, after.violations, existing, ViolatedIds(rules, violated), fails)
    ensures Evaluated(before, after, rules, violated, fails, orgId, deviceId)
  {
    var all := Opened(rules, violated, existing, fails);
    HandledAllAdds(before, rules, violated, existing, fails, orgId, deviceId);
    ResolvesTheSettled(before, existing, rules, violated, orgId, deviceId, fails);
    SettledThenCreated(before.violations, NewViolations(all, orgId, deviceId, before.nextId), after.violations,
                       SettledAll(before.violations, rules, violated, orgId, deviceId, fails), existing, ViolatedIds(rules, violated), fails);
  }

  ghost predicate AllResolved(before: seq<Violation>, after: seq<Violation>, existing: seq<Violation>, violatedIds: set<string>, fails: Failures) {
    |after| == |before| && forall i :: 0 <= i < |after| ==> after[i] == ResolvedIf(before[i], existing, violatedIds, fails)
  }

  lemma SettledThenCreated(before: seq<Violation>, created: seq<Violation>, after: seq<Violation>, settled: seq<Violation>,
                           existing: seq<Violation>, violatedIds: set<string>, fails: Failures)
    requires AllResolved(before + created, after, existing, violatedIds, fails)
    requires |settled| == |before| && forall i :: 0 <= i < |before| ==> ResolvedIf(before[i], existing, violatedIds, fails) == settled[i]
    requires forall i :: 0 <= i < |created| ==> ResolvedIf(created[i], existing, violatedIds, fails) == created[i]
    ensures after == settled + created
  {
    forall i | 0 <= i < |after|
      ensures after[i] == (settled + created)[i]
    {
      if i >= |before| {
        assert (before + created)[i] == created[i - |before|];
      }
    }
  }
}
