/** What evaluations do to the violations over time, and the score of a device. */
module ComplianceReconciliation {
  import opened Common
  import opened ComplianceViolations
  import R = ComplianceRules

  // ----- After one evaluation -----

  lemma {:induction false} OpenedMembers(rules: seq<Rule>, violated: set<string>, existing: seq<Violation>, fails: Failures)
    ensures forall rule :: rule in Opened(rules, violated, existing, fails) <==> rule in rules && Opens(rule, violated, existing, fails)
  {
    if rules != [] {
      OpenedMembers(rules[..|rules| - 1], violated, existing, fails);
      assert rules == rules[..|rules| - 1] + [rules[|rules| - 1]];
    }
  }

  /** Whether an active violation is there afterwards: it was and is not settled, or it is new. */
  lemma ActiveAfter(before: Table, after: Table, rules: seq<Rule>, violated: set<string>, fails: Failures, orgId: string, deviceId: string,
                    org: string, device: string, ruleId: string)
    requires Evaluated(before, after, rules, violated, fails, orgId, deviceId)
    ensures HasActive(after.violations, org, device, ruleId) <==>
      || (exists v :: v in before.violations && ActiveFor(v, org, device) && v.ruleId == ruleId
                      && !Resolves(v, rules, violated, orgId, deviceId, fails))
      || ((org, device) == (orgId, deviceId)
          && exists rule :: rule in rules && rule.id == ruleId
                            && Opens(rule, violated, if fails.read then [] else ActiveRows(before.violations, orgId, deviceId), fails))
  {
    if HasActive(after.violations, org, device, ruleId) {
      var i :| 0 <= i < |after.violations| && ActiveFor(after.violations[i], org, device) && after.violations[i].ruleId == ruleId;
      ActiveComesFrom(before, after, rules, violated, fails, orgId, deviceId, i);
    }
    if v :| v in before.violations && ActiveFor(v, org, device) && v.ruleId == ruleId && !Resolves(v, rules, violated, orgId, deviceId, fails) {
      KeptIsActive(before, after, rules, violated, fails, orgId, deviceId, v);
    }
    var existing := if fails.read then [] else ActiveRows(before.violations, orgId, deviceId);
    if rule :| rule in rules && rule.id == ruleId && Opens(rule, violated, existing, fails) {
      NewIsActive(before, after, rules, violated, fails, orgId, deviceId, rule);
    }
  }

  lemma ActiveComesFrom(before: Table, after: Table, rules: seq<Rule>, violated: set<string>, fails: Failures, orgId: string, deviceId: string, i: nat)
    requires Evaluated(before, after, rules, violated, fails, orgId, deviceId)
    requires i < |after.violations| && after.violations[i].status.Active?
    ensures var v := after.violations[i];
      || (v in before.violations && !Resolves(v, rules, violated, orgId, deviceId, fails))
      || ((v.orgId, v.deviceId) == (orgId, deviceId)
          && exists rule :: rule in rules && rule.id == v.ruleId
                            && Opens(rule, violated, if fails.read then [] else ActiveRows(before.violations, orgId, deviceId), fails))
  {
    var existing := if fails.read then [] else ActiveRows(before.violations, orgId, deviceId);
    var created, n := Opened(rules, violated, existing, fails), |before.violations|;
    OpenedMembers(rules, violated, existing, fails);
    if i >= n {
      assert after.violations[i] == NewViolations(created, orgId, deviceId, before.nextId)[i - n];
      assert created[i - n] in created;
    }
  }

  lemma KeptIsActive(before: Table, after: Table, rules: seq<Rule>, violated: set<string>, fails: Failures, orgId: string, deviceId: string, v: Violation)
    requires Evaluated(before, after, rules, violated, fails, orgId, deviceId)
    requires v in before.violations && v.status.Active? && !Resolves(v, rules, violated, orgId, deviceId, fails)
    ensures HasActive(after.violations, v.orgId, v.deviceId, v.ruleId)
  {
    var i :| 0 <= i < |before.violations| && before.violations[i] == v;
    assert after.violations[i] == v;
  }

  lemma NewIsActive(before: Table, after: Table, rules: seq<Rule>, violated: set<string>, fails: Failures, orgId: string, deviceId: string, rule: Rule)
    requires Evaluated(before, after, rules, violated, fails, orgId, deviceId)
    requires rule in rules && Opens(rule, violated, if fails.read then [] else ActiveRows(before.violations, orgId, deviceId), fails)
    ensures HasActive(after.violations, orgId, deviceId, rule.id)
  {
    var existing := if fails.read then [] else ActiveRows(before.violations, orgId, deviceId);
    var created := Opened(rules, violated, existing, fails);
    OpenedMembers(rules, violated, existing, fails);
    var k :| 0 <= k < |created| && created[k] == rule;
    ActiveInTail(SettledAll(before.violations, rules, violated, orgId, deviceId, fails), NewViolations(created, orgId, deviceId, before.nextId), k);
  }

  lemma ActiveInTail(front: seq<Violation>, tail: seq<Violation>, k: nat)
    requires k < |tail| && tail[k].status.Active?
    ensures HasActive(front + tail, tail[k].orgId, tail[k].deviceId, tail[k].ruleId)
  {
    assert (front + tail)[|front| + k] == tail[k];
  }

  /** Without failures, afterwards exactly the rules that evaluate cleanly to false have an active violation. */
  lemma ActiveAreTheViolated(before: Table, after: Table, rules: seq<Rule>, violated: set<string>, orgId: string, deviceId: string, ruleId: string)
    requires Evaluated(before, after, rules, violated, NO_FAILURES, orgId, deviceId)
    ensures HasActive(after.violations, orgId, deviceId, ruleId) <==> ruleId in ViolatedIds(rules, violated)
  {
    ActiveAfter(before, after, rules, violated, NO_FAILURES, orgId, deviceId, orgId, deviceId, ruleId);
    var existing := ActiveRows(before.violations, orgId, deviceId);
    if ruleId in ViolatedIds(rules, violated) {
      var i :| 0 <= i < |rules| && rules[i].id == ruleId;
      if k :| 0 <= k < |existing| && existing[k].ruleId == ruleId && existing[k].status.Active? {
        assert existing[k] in existing;
        assert existing[k] in before.violations && ActiveFor(existing[k], orgId, deviceId);
      } else {
        assert rules[i] in rules && Opens(rules[i], violated, existing, NO_FAILURES);
      }
    }
  }

  /** An evaluation error counts as not violated: it resolves the violation the rule had. */
  lemma ErrorResolvesViolation(lib: R.Library, state: R.State, before: Table, after: Table, rules: seq<Rule>, violated: set<string>,
                               orgId: string, deviceId: string, i: nat)
    requires AreViolated(lib, rules, state, violated) && Evaluated(before, after, rules, violated, NO_FAILURES, orgId, deviceId)
    requires i < |rules| && R.DocumentOutcome(lib, rules[i].document, state).Err?
    ensures !HasActive(after.violations, orgId, deviceId, rules[i].id)
  {
    ActiveAreTheViolated(before, after, rules, violated, orgId, deviceId, rules[i].id);
  }

  /** Nothing of other devices or organisations changes, whatever fails. */
  lemma OthersUnchanged(before: Table, after: Table, rules: seq<Rule>, violated: set<string>, fails: Failures, orgId: string, deviceId: string)
    requires Evaluated(before, after, rules, violated, fails, orgId, deviceId)
    ensures |before.violations| <= |after.violations|
    ensures forall i :: 0 <= i < |before.violations| && (before.violations[i].orgId, before.violations[i].deviceId) != (orgId, deviceId) ==>
      after.violations[i] == before.violations[i]
    ensures forall i :: |before.violations| <= i < |after.violations| ==>
      (after.violations[i].orgId, after.violations[i].deviceId) == (orgId, deviceId)
  {
  }

  /** The actions dispatched are those of the new violations' rules without a grace period. */
  lemma {:induction false} DispatchedForNewViolations(created: seq<Rule>, orgId: string, deviceId: string, d: Dispatch)
    ensures d in Dispatches(created, orgId, deviceId) <==>
      exists rule :: rule in created && rule.gracePeriodHours <= 0 && !rule.action.OtherAction? && d == Dispatch(rule.action, rule.id, deviceId, orgId)
  {
    if created != [] {
      var front, last := created[..|created| - 1], created[|created| - 1];
      DispatchedForNewViolations(front, orgId, deviceId, d);
      assert created == front + [last];
    }
  }

  // ----- Repeating -----

  lemma {:induction false} NothingOpens(rules: seq<Rule>, violated: set<string>, existing: seq<Violation>, fails: Failures)
    requires forall rule :: rule in rules ==> !Opens(rule, violated, existing, fails)
    ensures Opened(rules, violated, existing, fails) == []
  {
    if rules != [] {
      var front, last := rules[..|rules| - 1], rules[|rules| - 1];
      assert last in rules && forall rule :: rule in front ==> rule in rules;
      NothingOpens(front, violated, existing, fails);
    }
  }

  /** Evaluating again with the same rules and state creates, resolves and dispatches nothing. */
  lemma RepeatChangesNothing(before: Table, first: Table, second: Table, rules: seq<Rule>, violated: set<string>, orgId: string, deviceId: string)
    requires Evaluated(before, first, rules, violated, NO_FAILURES, orgId, deviceId)
    requires Evaluated(first, second, rules, violated, NO_FAILURES, orgId, deviceId)
    ensures second == first
  {
    var existing := ActiveRows(first.violations, orgId, deviceId);
    forall rule | rule in rules
      ensures !Opens(rule, violated, existing, NO_FAILURES)
    {
      if rule.id in violated {
        var i :| 0 <= i < |rules| && rules[i] == rule;
        ActiveAreTheViolated(before, first, rules, violated, orgId, deviceId, rule.id);
        var k :| 0 <= k < |first.violations| && ActiveFor(first.violations[k], orgId, deviceId) && first.violations[k].ruleId == rule.id;
        assert first.violations[k] in existing;
      }
    }
    NothingOpens(rules, violated, existing, NO_FAILURES);
    var settled := SettledAll(first.violations, rules, violated, orgId, deviceId, NO_FAILURES);
    forall i | 0 <= i < |first.violations|
      ensures settled[i] == first.violations[i]
    {
      if ActiveFor(first.violations[i], orgId, deviceId) {
        ActiveAreTheViolated(before, first, rules, violated, orgId, deviceId, first.violations[i].ruleId);
      }
    }
    assert settled == first.violations;
    assert second.violations == settled + [] && second.dispatched == first.dispatched + [];
  }

  /** In the evaluator's own terms: after an evaluation without failures a listed rule has an active violation exactly if it is false of the state. */
  lemma RulesAreJudged(lib: R.Library, before: Table, after: Table, rules: seq<Rule>, state: R.State, violated: set<string>,
                       orgId: string, deviceId: string, rule: Rule)
    requires AreViolated(lib, rules, state, violated) && Evaluated(before, after, rules, violated, NO_FAILURES, orgId, deviceId)
    requires rule in rules
    ensures (exists v :: v in after.violations && v.orgId == orgId && v.deviceId == deviceId && v.ruleId == rule.id && v.status == Active)
       <==> R.DocumentOutcome(lib, rule.document, state) == Ok(false)
  {
    ActiveAreTheViolated(before, after, rules, violated, orgId, deviceId, rule.id);
    var i :| 0 <= i < |rules| && rules[i] == rule;
    assert rules[i].id in violated <==> R.DocumentOutcome(lib, rules[i].document, state) == Ok(false);
    if v :| v in after.violations && v.orgId == orgId && v.deviceId == deviceId && v.ruleId == rule.id && v.status == Active {
      var k :| 0 <= k < |after.violations| && after.violations[k] == v;
      assert ActiveFor(after.violations[k], orgId, deviceId);
    }
    if k :| 0 <= k < |after.violations| && ActiveFor(after.violations[k], orgId, deviceId) && after.violations[k].ruleId == rule.id {
      assert after.violations[k] in after.violations;
    }
  }

  // ----- At most one active violation -----

  ghost predicate AtMostOne(violations: seq<Violation>) {
    forall i, j :: 0 <= i < j < |violations| ==> !SameActive(violations[i], violations[j])
  }

  /** Both are active for the same device and rule. */
  predicate SameActive(v: Violation, w: Violation) {
    v.status.Active? && w.status.Active? && v.orgId == w.orgId && v.deviceId == w.deviceId && v.ruleId == w.ruleId
  }

  /** A rule that opens a violation although one is active: possible only where the read failed. */
  ghost predicate Duplicates(before: Table, rules: seq<Rule>, violated: set<string>, fails: Failures, orgId: string, deviceId: string) {
    fails.read && exists rule :: rule in rules && rule.id in violated && rule.id !in fails.create
                                 && HasActive(before.violations, orgId, deviceId, rule.id)
  }

  lemma {:induction false} OpenedDistinct(rules: seq<Rule>, violated: set<string>, existing: seq<Violation>, fails: Failures)
    requires DistinctRules(rules)
    ensures DistinctRules(Opened(rules, violated, existing, fails))
  {
    if rules != [] {
      var front := rules[..|rules| - 1];
      OpenedDistinct(front, violated, existing, fails);
      OpenedMembers(front, violated, existing, fails);
      var created := Opened(front, violated, existing, fails);
      forall i | 0 <= i < |created|
        ensures created[i].id != rules[|rules| - 1].id
      {
        assert created[i] in front;
        var k :| 0 <= k < |front| && front[k] == created[i];
      }
    }
  }

  /** One active violation per device and rule is kept exactly where no failed read lets a rule open a second one. */
  lemma AtMostOneIsKept(before: Table, after: Table, rules: seq<Rule>, violated: set<string>, fails: Failures, orgId: string, deviceId: string)
    requires Evaluated(before, after, rules, violated, fails, orgId, deviceId)
    requires AtMostOne(before.violations) && DistinctRules(rules)
    ensures AtMostOne(after.violations) <==> !Duplicates(before, rules, violated, fails, orgId, deviceId)
  {
    if Duplicates(before, rules, violated, fails, orgId, deviceId) {
      SecondIsOpened(before, after, rules, violated, fails, orgId, deviceId);
    } else {
      NoSecondIsOpened(before, after, rules, violated, fails, orgId, deviceId);
    }
  }

  lemma SecondIsOpened(before: Table, after: Table, rules: seq<Rule>, violated: set<string>, fails: Failures, orgId: string, deviceId: string)
    requires Evaluated(before, after, rules, violated, fails, orgId, deviceId)
    requires Duplicates(before, rules, violated, fails, orgId, deviceId)
    ensures !AtMostOne(after.violations)
  {
    var created := Opened(rules, violated, [], fails);
    var rule :| rule in rules && rule.id in violated && rule.id !in fails.create && HasActive(before.violations, orgId, deviceId, rule.id);
    assert rule in created by {
      OpenedMembers(rules, violated, [], fails);
      assert Opens(rule, violated, [], fails);
    }
    var k :| 0 <= k < |created| && created[k] == rule;
    var i :| 0 <= i < |before.violations| && ActiveFor(before.violations[i], orgId, deviceId) && before.violations[i].ruleId == rule.id;
    var settled := SettledAll(before.violations, rules, violated, orgId, deviceId, fails);
    assert settled[i] == before.violations[i];
    SecondBehind(settled, created, before.nextId, orgId, deviceId, i, k);
  }

  lemma SecondBehind(settled: seq<Violation>, created: seq<Rule>, nextId: nat, orgId: string, deviceId: string, i: nat, k: nat)
    requires i < |settled| && k < |created| && ActiveFor(settled[i], orgId, deviceId) && settled[i].ruleId == created[k].id
    ensures !AtMostOne(settled + NewViolations(created, orgId, deviceId, nextId))
  {
    var news := NewViolations(created, orgId, deviceId, nextId);
    var all := settled + news;
    assert all[i] == settled[i] && all[|settled| + k] == news[k];
    assert SameActive(all[i], all[|settled| + k]);
  }

  lemma NotKnownBefore(before: Table, rules: seq<Rule>, violated: set<string>, fails: Failures, orgId: string, deviceId: string, rule: Rule, i: nat)
    requires !Duplicates(before, rules, violated, fails, orgId, deviceId)
    requires rule in rules && Opens(rule, violated, if fails.read then [] else ActiveRows(before.violations, orgId, deviceId), fails)
    requires i < |before.violations| && ActiveFor(before.violations[i], orgId, deviceId)
    ensures before.violations[i].ruleId != rule.id
  {
    if fails.read {
      assert HasActive(before.violations, orgId, deviceId, before.violations[i].ruleId);
    } else {
      assert before.violations[i] in ActiveRows(before.violations, orgId, deviceId);
    }
  }

  lemma NoSecondIsOpened(before: Table, after: Table, rules: seq<Rule>, violated: set<string>, fails: Failures, orgId: string, deviceId: string)
    requires Evaluated(before, after, rules, violated, fails, orgId, deviceId)
    requires AtMostOne(before.violations) && DistinctRules(rules)
    requires !Duplicates(before, rules, violated, fails, orgId, deviceId)
    ensures AtMostOne(after.violations)
  {
    var existing := if fails.read then [] else ActiveRows(before.violations, orgId, deviceId);
    var created := Opened(rules, violated, existing, fails);
    OpenedDistinct(rules, violated, existing, fails);
    OpenedMembers(rules, violated, existing, fails);
    var settled := SettledAll(before.violations, rules, violated, orgId, deviceId, fails);
    var news := NewViolations(created, orgId, deviceId, before.nextId);
    forall i, j | 0 <= i < |settled| && 0 <= j < |news|
      ensures !SameActive(settled[i], news[j])
    {
      assert created[j] in created;
      if ActiveFor(before.violations[i], orgId, deviceId) {
        NotKnownBefore(before, rules, violated, fails, orgId, deviceId, created[j], i);
      }
    }
    SettlingKeepsAtMostOne(before.violations, settled);
    PartsKeepAtMostOne(settled, news);
  }

  lemma SettlingKeepsAtMostOne(before: seq<Violation>, settled: seq<Violation>)
    requires AtMostOne(before) && |settled| == |before|
    requires forall i :: 0 <= i < |before| ==> settled[i] == before[i] || !settled[i].status.Active?
    ensures AtMostOne(settled)
  {
    forall i, j | 0 <= i < j < |settled|
      ensures !SameActive(settled[i], settled[j])
    {
      assert !SameActive(before[i], before[j]);
    }
  }

  lemma PartsKeepAtMostOne(front: seq<Violation>, tail: seq<Violation>)
    requires AtMostOne(front) && forall i, j :: 0 <= i < j < |tail| ==> tail[i].ruleId != tail[j].ruleId
    requires forall i, j :: 0 <= i < |front| && 0 <= j < |tail| ==> !SameActive(front[i], tail[j])
    ensures AtMostOne(front + tail)
  {
  }

  /** One evaluation of a run. */
  datatype Evaluation = Evaluation(orgId: string, deviceId: string, rules: seq<Rule>, violated: set<string>, fails: Failures)

  /** The table can be the result of the evaluations, one after the other, from an empty one. */
  ghost predicate Reached(evaluations: seq<Evaluation>, table: Table) {
    if evaluations == [] then table == Table([], 0, [])
    else
      var front, last := evaluations[..|evaluations| - 1], evaluations[|evaluations| - 1];
      exists before: Table :: Reached(front, before) && IsStep(before, table, last)
  }

  ghost predicate IsStep(before: Table, after: Table, e: Evaluation) {
    Evaluated(before, after, e.rules, e.violated, e.fails, e.orgId, e.deviceId) && DistinctRules(e.rules)
  }

  /** Any number of evaluations of any devices from an empty table, inserts and updates failing as they like, keep at most one. */
  lemma {:induction false} RunsKeepAtMostOne(evaluations: seq<Evaluation>, table: Table)
    requires Reached(evaluations, table) && forall i :: 0 <= i < |evaluations| ==> !evaluations[i].fails.read
    ensures AtMostOne(table.violations)
  {
    if evaluations != [] {
      var front, last := evaluations[..|evaluations| - 1], evaluations[|evaluations| - 1];
      var before: Table :| Reached(front, before) && IsStep(before, table, last);
      RunsKeepAtMostOne(front, before);
      StepKeepsAtMostOne(before, table, last);
    }
  }

  lemma StepKeepsAtMostOne(before: Table, after: Table, e: Evaluation)
    requires IsStep(before, after, e) && !e.fails.read && AtMostOne(before.violations)
    ensures AtMostOne(after.violations)
  {
    AtMostOneIsKept(before, after, e.rules, e.violated, e.fails, e.orgId, e.deviceId);
  }

  // ----- The score -----

  function RuleIds(violations: seq<Violation>): (ids: set<string>)
    ensures forall id :: id in ids <==> exists i :: 0 <= i < |violations| && violations[i].ruleId == id
  {
    set i | 0 <= i < |violations| :: violations[i].ruleId
  }

  function Score(ruleCount: nat, violatedCount: nat): real {
    if ruleCount == 0 then 100.0 else (ruleCount - violatedCount) as real / ruleCount as real * 100.0
  }

  /** Counts each violated rule once, however many violations it has. */
  method CalculateDeviceScore(rules: Option<seq<Rule>>, active: Option<seq<Violation>>) returns (score: Option<real>)
    ensures score.None? <==> rules.None? || (rules.value != [] && active.None?)
    ensures score.Some? && rules.value == [] ==> score.value == 100.0
    ensures score.Some? && rules.value != [] ==> score.value == Score(|rules.value|, |RuleIds(active.value)|)
  {
    if rules.None? {
      return None;
    }
    if rules.value == [] {
      return Some(100.0);
    }
    if active.None? {
      return None;
    }
    var violatedRules: set<string> := {};
    for i := 0 to |active.value|
      invariant violatedRules == RuleIds(active.value[..i])
    {
      assert active.value[..i + 1] == active.value[..i] + [active.value[i]];
      RuleIdsGrow(active.value[..i], active.value[i]);
      violatedRules := violatedRules + {active.value[i].ruleId};
    }
    assert active.value[..|active.value|] == active.value;
    score := Some((|rules.value| - |violatedRules|) as real / |rules.value| as real * 100.0);
  }

  lemma RuleIdsGrow(violations: seq<Violation>, v: Violation)
    ensures RuleIds(violations + [v]) == RuleIds(violations) + {v.ruleId}
  {
    var all := violations + [v];
    assert all[|violations|] == v;
    forall id | id in RuleIds(violations)
      ensures id in RuleIds(all)
    {
      var i :| 0 <= i < |violations| && violations[i].ruleId == id;
      assert all[i] == violations[i];
    }
  }

  /** The score is a percentage exactly where no more rules are violated than are listed. */
  lemma ScoreIsPercentage(ruleCount: nat, violatedCount: nat)
    requires ruleCount > 0
    ensures 0.0 <= Score(ruleCount, violatedCount) <= 100.0 <==> violatedCount <= ruleCount
    ensures Score(ruleCount, violatedCount) == 100.0 <==> violatedCount == 0
  {
    var n, m, q := ruleCount as real, (ruleCount - violatedCount) as real, Score(ruleCount, violatedCount) / 100.0;
    assert q * n == m;
    QuotientBounds(q, n, m);
  }

  lemma QuotientBounds(q: real, n: real, m: real)
    requires q * n == m && n > 0.0
    ensures q >= 0.0 <==> m >= 0.0
    ensures q <= 1.0 <==> m <= n
    ensures q == 1.0 <==> m == n
  {
    var r := 1.0 - q;
    assert r * n == n - m;
    SignOfProduct(q, n);
    SignOfProduct(r, n);
  }

  lemma SignOfProduct(x: real, n: real)
    requires n > 0.0
    ensures x * n >= 0.0 <==> x >= 0.0
    ensures x * n == 0.0 <==> x == 0.0
  {
    if x > 0.0 {
      assert x * n > 0.0;
    } else if x < 0.0 {
      assert (-x) * n > 0.0;
      assert x * n == -((-x) * n);
    }
  }

  lemma {:induction false} IdsOfRules(rules: seq<Rule>, violated: set<string>)
    ensures |ViolatedIds(rules, violated)| <= |rules|
  {
    if rules != [] {
      IdsOfRules(rules[..|rules| - 1], violated);
    }
  }

  lemma ActiveRuleIds(violations: seq<Violation>, orgId: string, deviceId: string, id: string)
    ensures id in RuleIds(ActiveRows(violations, orgId, deviceId)) <==> HasActive(violations, orgId, deviceId, id)
  {
    var rows := ActiveRows(violations, orgId, deviceId);
    if id in RuleIds(rows) {
      var i :| 0 <= i < |rows| && rows[i].ruleId == id;
      assert rows[i] in rows;
      var k :| 0 <= k < |violations| && violations[k] == rows[i];
    }
    if HasActive(violations, orgId, deviceId, id) {
      var k :| 0 <= k < |violations| && ActiveFor(violations[k], orgId, deviceId) && violations[k].ruleId == id;
      assert violations[k] in rows;
    }
  }

  /** Right after an evaluation without failures the score over the same rules lies in 0..100, and is 100 exactly for a compliant device. */
  lemma ScoreAfterEvaluation(before: Table, after: Table, rules: seq<Rule>, violated: set<string>, orgId: string, deviceId: string)
    requires Evaluated(before, after, rules, violated, NO_FAILURES, orgId, deviceId)
    ensures var score := Score(|rules|, |RuleIds(ActiveRows(after.violations, orgId, deviceId))|);
      0.0 <= score <= 100.0 && (score == 100.0 <==> ViolatedIds(rules, violated) == {})
  {
    var rows := ActiveRows(after.violations, orgId, deviceId);
    forall id
      ensures id in RuleIds(rows) <==> id in ViolatedIds(rules, violated)
    {
      ActiveAreTheViolated(before, after, rules, violated, orgId, deviceId, id);
      ActiveRuleIds(after.violations, orgId, deviceId, id);
    }
    assert RuleIds(rows) == ViolatedIds(rules, violated);
    IdsOfRules(rules, violated);
    if rules != [] {
      ScoreIsPercentage(|rules|, |RuleIds(rows)|);
    }
  }

  /** Two rules violated, one of them deactivated since: the score is -100. */
  lemma ScoreCanBeNegative()
    ensures Score(1, |RuleIds([Violation(0, "o", "a", "d", Active), Violation(1, "o", "b", "d", Active)])|) == -100.0
  {
    var vs := [Violation(0, "o", "a", "d", Active), Violation(1, "o", "b", "d", Active)];
    assert vs[0].ruleId == "a" && vs[1].ruleId == "b";
    assert RuleIds(vs) == {"a", "b"};
  }
}
