/** What each operator name of a compliance condition says of the reported value. */
module ComplianceOperators {
  import opened Common
  import opened ComplianceRules
  import S = Strings
  import V = Versions

  /** Not one of the two fields whose values are versions. */
  predicate IsPlain(field: string) {
    field != "os_version" && field != "agent_version"
  }

  predicate Reports(state: State, field: string, v: Value) {
    field in state && state[field] == v
  }

  // ----- Names -----

  lemma ComparisonNames()
    ensures ParseOperator("eq") == Eq && ParseOperator("neq") == Neq && ParseOperator("gt") == Gt
    ensures ParseOperator("gte") == Gte && ParseOperator("lt") == Lt && ParseOperator("lte") == Lte
  {
  }

  lemma OtherNames()
    ensures ParseOperator("contains") == Contains && ParseOperator("not_contains") == NotContains && ParseOperator("in") == In
    ensures ParseOperator("regex") == Regex && ParseOperator("bool_eq") == BoolEq
  {
  }

  // ----- Numbers -----

  /** The number that a value is read as. */
  predicate ReadsAs(lib: Library, v: Value, a: Float) {
    match v
    case Number(x) => a == Finite(x)
    case Text(text) => lib.parseFloat(text) == Some(a)
    case _ => false
  }

  predicate Greater(a: Float, b: Float) {
    || (a.Finite? && b.Finite? && a.amount > b.amount)
    || (a == Infinite(true) && (b.Finite? || b == Infinite(false)))
    || (a.Finite? && b == Infinite(false))
  }

  /** gt, gte, lt and lte compare the reported number with the target; NaN on either side fails all four. */
  lemma NumbersAreCompared(lib: Library, field: string, v: Value, target: string, a: Float, b: Float, cs: seq<Condition>, state: State)
    requires IsPlain(field) && Reports(state, field, v) && ReadsAs(lib, v, a) && lib.parseFloat(target) == Some(b)
    ensures Outcome(lib, Condition(field, "gt", target, cs), state) == Ok(Greater(a, b))
    ensures Outcome(lib, Condition(field, "lt", target, cs), state) == Ok(Greater(b, a))
    ensures Outcome(lib, Condition(field, "gte", target, cs), state) == Ok(Greater(a, b) || (a == b && a != NaN))
    ensures Outcome(lib, Condition(field, "lte", target, cs), state) == Ok(Greater(b, a) || (a == b && a != NaN))
  {
    ComparisonNames();
  }

  /** In particular of two real numbers. */
  lemma RealsAreCompared(lib: Library, field: string, x: real, y: real, target: string, cs: seq<Condition>, state: State)
    requires IsPlain(field) && Reports(state, field, Number(x)) && lib.parseFloat(target) == Some(Finite(y))
    ensures Outcome(lib, Condition(field, "gt", target, cs), state) == Ok(x > y)
    ensures Outcome(lib, Condition(field, "gte", target, cs), state) == Ok(x >= y)
    ensures Outcome(lib, Condition(field, "lt", target, cs), state) == Ok(x < y)
    ensures Outcome(lib, Condition(field, "lte", target, cs), state) == Ok(x <= y)
  {
    NumbersAreCompared(lib, field, Number(x), target, Finite(x), Finite(y), cs, state);
  }

  /** Where one side is no number the four are errors. */
  lemma OthersAreErrors(lib: Library, field: string, v: Value, op: string, target: string, cs: seq<Condition>, state: State)
    requires IsPlain(field) && Reports(state, field, v) && op in {"gt", "gte", "lt", "lte"}
    requires (forall a :: !ReadsAs(lib, v, a)) || lib.parseFloat(target) == None
    ensures Outcome(lib, Condition(field, op, target, cs), state).Err?
  {
    ComparisonNames();
    if ToFloat(lib, v).Some? {
      assert ReadsAs(lib, v, ToFloat(lib, v).value);
    }
  }

  // ----- Texts -----

  predicate OccursAt(t: string, text: string, i: int) {
    0 <= i <= |text| - |t| && text[i..i + |t|] == t
  }

  ghost predicate Occurs(t: string, text: string) {
    exists i :: OccursAt(t, text, i)
  }

  lemma OccursBehind(c: char, rest: string, t: string, i: nat)
    ensures OccursAt(t, [c] + rest, i + 1) <==> OccursAt(t, rest, i)
  {
    if i + |t| <= |rest| {
      assert ([c] + rest)[i + 1..i + 1 + |t|] == rest[i..i + |t|];
    }
  }

  lemma OccursInFront(text: string, t: string)
    ensures OccursAt(t, text, 0) <==> t <= text
  {
  }

  lemma {:induction false} SubstringOccurs(text: string, t: string)
    ensures HasSubstring(text, t) <==> Occurs(t, text)
  {
    OccursInFront(text, t);
    if text != "" {
      var c, rest := text[0], text[1..];
      assert text == [c] + rest;
      SubstringOccurs(rest, t);
      forall i: nat
        ensures OccursAt(t, text, i + 1) <==> OccursAt(t, rest, i)
      {
        OccursBehind(c, rest, t, i);
      }
      OccursSteps(text, rest, t);
    }
  }

  lemma OccursSteps(text: string, rest: string, t: string)
    requires forall i: nat :: OccursAt(t, text, i + 1) <==> OccursAt(t, rest, i)
    ensures Occurs(t, text) <==> OccursAt(t, text, 0) || Occurs(t, rest)
  {
    forall i | OccursAt(t, text, i)
      ensures OccursAt(t, text, 0) || Occurs(t, rest)
    {
      if i > 0 {
        var before: nat := i - 1;
        assert OccursAt(t, text, before + 1);
        assert OccursAt(t, rest, before);
      }
    }
    forall i | OccursAt(t, rest, i)
      ensures Occurs(t, text)
    {
      assert OccursAt(t, text, i + 1);
    }
  }

  /** All other operators look at the formatted text. */
  lemma TextsAreCompared(lib: Library, field: string, v: Value, target: string, cs: seq<Condition>, state: State)
    requires IsPlain(field) && Reports(state, field, v)
    ensures Outcome(lib, Condition(field, "eq", target, cs), state) == Ok(lib.format(v) == target)
    ensures Outcome(lib, Condition(field, "neq", target, cs), state) == Ok(lib.format(v) != target)
    ensures Outcome(lib, Condition(field, "contains", target, cs), state) == Ok(Occurs(target, lib.format(v)))
    ensures Outcome(lib, Condition(field, "not_contains", target, cs), state) == Ok(!Occurs(target, lib.format(v)))
  {
    ComparisonNames();
    OtherNames();
    SubstringOccurs(lib.format(v), target);
  }

  lemma TextsAreLookedUp(lib: Library, field: string, v: Value, target: string, cs: seq<Condition>, state: State)
    requires IsPlain(field) && Reports(state, field, v)
    ensures Outcome(lib, Condition(field, "in", target, cs), state)
         == Ok(exists part :: part in S.Split(target, ',') && lib.trim(part) == lib.format(v))
    ensures Outcome(lib, Condition(field, "bool_eq", target, cs), state) == Ok(lib.parseBool(lib.format(v)) == lib.parseBool(target))
    ensures lib.matches(target, lib.format(v)).Some? ==>
      Outcome(lib, Condition(field, "regex", target, cs), state) == Ok(lib.matches(target, lib.format(v)).value)
    ensures lib.matches(target, lib.format(v)).None? ==> Outcome(lib, Condition(field, "regex", target, cs), state).Err?
  {
    OtherNames();
    ListHolds(lib, lib.format(v), target);
  }

  lemma ListHolds(lib: Library, value: string, list: string)
    ensures InList(lib, value, list) <==> exists part :: part in S.Split(list, ',') && lib.trim(part) == value
  {
    var parts := S.Split(list, ',');
    if part :| part in parts && lib.trim(part) == value {
      var i :| 0 <= i < |parts| && parts[i] == part;
      assert lib.trim(S.Split(list, ',')[i]) == value;
    }
  }

  /** No other operator name is known. */
  lemma OtherNamesAreErrors(lib: Library, field: string, op: string, target: string, cs: seq<Condition>, state: State)
    requires field in state && op !in {"and", "or", "eq", "neq", "gt", "gte", "lt", "lte", "contains", "not_contains", "in", "regex", "bool_eq"}
    ensures Outcome(lib, Condition(field, op, target, cs), state).Err?
  {
  }

  // ----- Versions -----

  /** On the two version fields the six comparisons are those of the versions. */
  lemma VersionsAreCompared(lib: Library, field: string, v: Value, target: string, cs: seq<Condition>, state: State)
    requires !IsPlain(field) && Reports(state, field, v)
    ensures var reported, wanted := V.Parts(lib.format(v)), V.Parts(target);
      && Outcome(lib, Condition(field, "eq", target, cs), state) == Ok(V.Same(reported, wanted))
      && Outcome(lib, Condition(field, "neq", target, cs), state) == Ok(!V.Same(reported, wanted))
      && Outcome(lib, Condition(field, "lt", target, cs), state) == Ok(V.Lower(reported, wanted))
      && Outcome(lib, Condition(field, "gt", target, cs), state) == Ok(V.Lower(wanted, reported))
      && Outcome(lib, Condition(field, "lte", target, cs), state) == Ok(!V.Lower(wanted, reported))
      && Outcome(lib, Condition(field, "gte", target, cs), state) == Ok(!V.Lower(reported, wanted))
  {
    ComparisonNames();
    var reported, wanted := V.Parts(lib.format(v)), V.Parts(target);
    V.CompareIsZeroForSame(reported, wanted);
    V.LowerIsExclusive(reported, wanted);
    V.LowerIsExclusive(wanted, reported);
  }

  lemma VersionTextsAreMatched(lib: Library, field: string, v: Value, op: string, target: string, cs: seq<Condition>, state: State)
    requires !IsPlain(field) && Reports(state, field, v)
    ensures Outcome(lib, Condition(field, "contains", target, cs), state) == Ok(Occurs(target, lib.format(v)))
    ensures lib.matches(target, lib.format(v)).Some? ==>
      Outcome(lib, Condition(field, "regex", target, cs), state) == Ok(lib.matches(target, lib.format(v)).value)
    ensures op in {"not_contains", "in", "bool_eq"} ==> Outcome(lib, Condition(field, op, target, cs), state).Err?
  {
    OtherNames();
    SubstringOccurs(lib.format(v), target);
  }

  // ----- Compounds -----

  /** An unreported field fails; `and` needs all parts, `or` one, and a compound without parts holds. */
  lemma CompoundsCombine(lib: Library, op: string, cs: seq<Condition>, field: string, target: string, state: State)
    requires op == "and" || op == "or"
    requires forall i :: 0 <= i < |cs| ==> AllClean(lib, cs[i], state)
    ensures Outcome(lib, Condition(field, op, target, cs), state)
         == Ok(cs == [] || (if op == "and" then forall i :: 0 <= i < |cs| ==> Outcome(lib, cs[i], state) == Ok(true)
                            else exists i :: 0 <= i < |cs| && Outcome(lib, cs[i], state) == Ok(true)))
  {
    var c := Condition(field, op, target, cs);
    CleanOutcomeIsLogic(lib, c, state);
    forall i | 0 <= i < |cs|
      ensures Outcome(lib, cs[i], state) == Ok(Holds(lib, cs[i], state))
    {
      CleanOutcomeIsLogic(lib, cs[i], state);
    }
  }
}
