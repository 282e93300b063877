/** What each operator name and each field of a dynamic-group rule asks for, and the text it compiles to. */
module DynamicGroupOperators {
  import opened Common
  import opened SqlText
  import opened DynamicGroupRules
  import S = Strings

  // ----- Fields -----

  /** The field is looked up in the column, which the text names. */
  predicate IsLookedUpIn(field: string, c: Column, text: string) {
    || (field == "os_version" && c == Plain("os_version") && text == "os_version")
    || (field == "model" && c == Plain("model") && text == "model")
    || (field == "manufacturer" && c == Plain("manufacturer") && text == "manufacturer")
    || ((field == "platform" || field == "os_type") && c == Plain("platform") && text == "platform")
    || ((field == "status" || field == "enrollment_status") && c == Plain("status") && text == "status")
    || ((field == "compliance_status" || field == "compliance_state") && c == Plain("compliance_status") && text == "compliance_status")
    || (field == "agent_version" && c == Json("device_info", "agent_version") && text == "device_info->>'agent_version'")
    || (field == "last_seen_at" && c == Plain("last_seen_at") && text == "last_seen_at")
  }

  predicate IsField(field: string) {
    field in {"os_version", "model", "manufacturer", "platform", "os_type", "status", "enrollment_status",
              "compliance_status", "compliance_state", "agent_version", "last_seen_at"}
  }

  lemma FieldIsLookedUp(field: string, c: Column, text: string)
    requires IsLookedUpIn(field, c, text)
    ensures FieldColumn(field) == Some(c) && FieldText(field) == Some(text)
  {
    if field == "agent_version" {
      assert "device_info" + "->>'" + "agent_version" + "'" == "device_info->>'agent_version'";
    }
  }

  /** Any other field is refused by name, before its operator is looked at. */
  lemma OtherFieldsAreRefused(field: string, op: string, v: Value)
    requires !IsField(field)
    ensures BuildRule(Condition(field, op, v)) == Err("Unknown field: " + field)
  {
  }

  // ----- Operators -----

  predicate IsOperator(op: string) {
    op in {"eq", "neq", "gt", "gte", "lt", "lte", "contains", "not_contains", "starts_with", "in", "regex"}
  }

  /** A number of days, hours or minutes. */
  predicate IsAge(v: string) {
    |v| >= 2 && (v[|v| - 1] == 'd' || v[|v| - 1] == 'h' || v[|v| - 1] == 'm') && forall i :: 0 <= i < |v| - 1 ==> '0' <= v[i] <= '9'
  }

  predicate AsksForAge(field: string, v: Value) {
    field == "last_seen_at" && v.One? && IsAge(v.text)
  }

  lemma NoInterval(field: string, v: Value)
    ensures RelativeInterval(field, v).Some? <==> AsksForAge(field, v)
  {
  }

  lemma ComparisonNames()
    ensures OperatorOf("eq") == Some(OpEq) && OperatorOf("neq") == Some(OpNeq)
    ensures OperatorOf("gt") == Some(OpGt) && OperatorOf("gte") == Some(OpGte)
    ensures OperatorOf("lt") == Some(OpLt) && OperatorOf("lte") == Some(OpLte)
  {
  }

  lemma PatternNames()
    ensures OperatorOf("contains") == Some(OpContains) && OperatorOf("not_contains") == Some(OpNotContains)
    ensures OperatorOf("starts_with") == Some(OpStartsWith) && OperatorOf("in") == Some(OpIn) && OperatorOf("regex") == Some(OpRegex)
  {
  }

  /** Any other name is refused, except with an age, where it asks for a row seen since. */
  lemma OtherOperatorsAreRefused(field: string, op: string, v: Value)
    requires IsField(field) && !IsOperator(op) && !AsksForAge(field, v)
    ensures BuildRule(Condition(field, op, v)) == Err("Unknown operator: " + op)
  {
    NoInterval(field, v);
  }

  /** What the six comparisons ask of a value a that is not NULL. */
  lemma ComparisonsAsk(d: Dialect, row: Row, field: string, c: Column, text: string, a: string, v: string)
    requires IsLookedUpIn(field, c, text) && row(c) == Some(a) && !AsksForAge(field, One(v))
    ensures Meaning(d, row, Condition(field, "eq", One(v))) == Known(d.equal(c, a, v))
    ensures Meaning(d, row, Condition(field, "neq", One(v))) == Known(!d.equal(c, a, v))
    ensures Meaning(d, row, Condition(field, "gt", One(v))) == Known(d.less(c, v, a))
    ensures Meaning(d, row, Condition(field, "gte", One(v))) == Known(!d.less(c, a, v))
    ensures Meaning(d, row, Condition(field, "lt", One(v))) == Known(d.less(c, a, v))
    ensures Meaning(d, row, Condition(field, "lte", One(v))) == Known(!d.less(c, v, a))
  {
    FieldIsLookedUp(field, c, text);
    NoInterval(field, One(v));
    ComparisonNames();
  }

  lemma PatternsAsk(d: Dialect, row: Row, field: string, c: Column, text: string, a: string, v: string)
    requires IsLookedUpIn(field, c, text) && row(c) == Some(a) && !AsksForAge(field, One(v))
    ensures Meaning(d, row, Condition(field, "contains", One(v))) == Known(d.like(a, "%" + v + "%"))
    ensures Meaning(d, row, Condition(field, "not_contains", One(v))) == Known(!d.like(a, "%" + v + "%"))
    ensures Meaning(d, row, Condition(field, "starts_with", One(v))) == Known(d.like(a, v + "%"))
    ensures Meaning(d, row, Condition(field, "regex", One(v))) == Known(d.regex(a, v))
  {
    FieldIsLookedUp(field, c, text);
    NoInterval(field, One(v));
    PatternNames();
  }

  /** A list asks for one of its elements. */
  lemma ListsAsk(d: Dialect, row: Row, field: string, c: Column, text: string, a: string, vs: seq<string>)
    requires IsLookedUpIn(field, c, text) && row(c) == Some(a)
    ensures Meaning(d, row, Condition(field, "in", Many(vs))) == Known(exists i :: 0 <= i < |vs| && d.equal(c, a, vs[i]))
  {
    FieldIsLookedUp(field, c, text);
    NoInterval(field, Many(vs));
    PatternNames();
    ListMeaning(d, c, a, Many(vs), vs);
  }

  lemma ListMeaning(d: Dialect, c: Column, a: string, v: Value, vs: seq<string>)
    requires InOperands(v) == vs
    ensures OperatorMeaning(d, c, Some(a), OpIn, v) == Known(exists i :: 0 <= i < |vs| && d.equal(c, a, vs[i]))
  {
    if i :| 0 <= i < |vs| && d.equal(c, a, vs[i]) {
      assert d.equal(c, a, InOperands(v)[i]);
    }
  }

  /** A text is the list of its parts between commas, trimmed. */
  lemma TextsAreLists(d: Dialect, row: Row, field: string, v: string, vs: seq<string>)
    requires IsField(field) && !AsksForAge(field, One(v))
    requires |vs| == |S.Split(v, ',')| && forall i :: 0 <= i < |vs| ==> vs[i] == S.Trim(S.Split(v, ',')[i])
    ensures Meaning(d, row, Condition(field, "in", One(v))) == Meaning(d, row, Condition(field, "in", Many(vs)))
    ensures BuildRule(Condition(field, "in", One(v))) == BuildRule(Condition(field, "in", Many(vs)))
  {
    NoInterval(field, One(v));
    NoInterval(field, Many(vs));
    PatternNames();
    TrimmedParts(S.Split(v, ','));
    SameList(d, FieldColumn(field).value, row(FieldColumn(field).value), One(v), Many(vs));
  }

  lemma SameList(d: Dialect, c: Column, actual: Option<string>, v: Value, w: Value)
    requires InOperands(v) == InOperands(w)
    ensures OperatorMeaning(d, c, actual, OpIn, v) == OperatorMeaning(d, c, actual, OpIn, w)
    ensures OperatorSql(OpIn, v) == OperatorSql(OpIn, w)
  {
  }

  lemma {:induction false} TrimmedParts(ss: seq<string>)
    ensures |TrimAll(ss)| == |ss| && forall i :: 0 <= i < |ss| ==> TrimAll(ss)[i] == S.Trim(ss[i])
  {
    if ss != [] {
      TrimmedParts(ss[1..]);
    }
  }

  /** A list given to any other operator counts as the empty text. */
  lemma ListsElsewhereAreEmpty(d: Dialect, row: Row, field: string, op: string, vs: seq<string>)
    requires op != "in"
    ensures Meaning(d, row, Condition(field, op, Many(vs))) == Meaning(d, row, Condition(field, op, One("")))
    ensures BuildRule(Condition(field, op, Many(vs))) == BuildRule(Condition(field, op, One("")))
  {
    NoInterval(field, One(""));
    NoInterval(field, Many(vs));
    OnlyInIsIn(op);
  }

  lemma OnlyInIsIn(op: string)
    ensures OperatorOf(op) == Some(OpIn) <==> op == "in"
  {
  }

  /** NULL satisfies no condition and no negation of one. */
  lemma NullIsUnknown(d: Dialect, row: Row, field: string, c: Column, text: string, op: string, v: Value)
    requires IsLookedUpIn(field, c, text) && row(c) == None && (op == "in" ==> v != Many([]))
    ensures Meaning(d, row, Condition(field, op, v)) == Unknown
  {
    FieldIsLookedUp(field, c, text);
    PatternNames();
    if v.One? {
      TrimmedParts(S.Split(v.text, ','));
    }
  }

  // ----- Ages -----

  predicate IsUnit(unit: char, name: string) {
    (unit == 'd' && name == "days") || (unit == 'h' && name == "hours") || (unit == 'm' && name == "minutes")
  }

  /** An age asks for a row seen since, under gte and lte for one not seen since; every other name counts as gt. */
  lemma AgesAsk(d: Dialect, row: Row, op: string, a: string, digits: string, unit: char, name: string)
    requires row(Plain("last_seen_at")) == Some(a) && S.IsDigits(digits) && IsUnit(unit, name)
    ensures Meaning(d, row, Condition("last_seen_at", op, One(digits + [unit])))
         == Known(if op == "gte" || op == "lte" then !d.newerThan(a, digits + " " + name) else d.newerThan(a, digits + " " + name))
  {
    FieldIsLookedUp("last_seen_at", Plain("last_seen_at"), "last_seen_at");
    AgeInterval(digits, unit, name);
    OnlyTheseAskForOld(op);
  }

  lemma AgeInterval(digits: string, unit: char, name: string)
    requires S.IsDigits(digits) && IsUnit(unit, name)
    ensures RelativeInterval("last_seen_at", One(digits + [unit])) == Some(digits + " " + name)
  {
    var s := digits + [unit];
    assert s[..|s| - 1] == digits;
    assert digits + " " + "days" == digits + " days";
    assert digits + " " + "hours" == digits + " hours";
    assert digits + " " + "minutes" == digits + " minutes";
  }

  lemma OnlyTheseAskForOld(op: string)
    ensures AsksForOld(OperatorOf(op)) <==> op == "gte" || op == "lte"
  {
  }

  lemma AgesCompile(op: string, digits: string, unit: char, name: string)
    requires S.IsDigits(digits) && IsUnit(unit, name)
    ensures BuildRule(Condition("last_seen_at", op, One(digits + [unit])))
         == Ok("last_seen_at" + (if op == "gte" || op == "lte" then " <= NOW() - INTERVAL '" else " > NOW() - INTERVAL '") + digits + " " + name + "'")
  {
    FieldIsLookedUp("last_seen_at", Plain("last_seen_at"), "last_seen_at");
    AgeInterval(digits, unit, name);
    OnlyTheseAskForOld(op);
    Regrouped("last_seen_at", if op == "gte" || op == "lte" then " <= NOW() - INTERVAL '" else " > NOW() - INTERVAL '", digits, name);
  }

  lemma Regrouped(column: string, before: string, digits: string, name: string)
    ensures column + (before + (digits + " " + name) + "'") == column + before + digits + " " + name + "'"
  {
  }

  // ----- The compiled text -----

  lemma ComparisonsCompile(field: string, c: Column, text: string, v: string)
    requires IsLookedUpIn(field, c, text) && !AsksForAge(field, One(v))
    ensures BuildRule(Condition(field, "eq", One(v))) == Ok(text + (" = '" + Escape(v) + "'"))
    ensures BuildRule(Condition(field, "neq", One(v))) == Ok(text + (" != '" + Escape(v) + "'"))
    ensures BuildRule(Condition(field, "gt", One(v))) == Ok(text + (" > '" + Escape(v) + "'"))
    ensures BuildRule(Condition(field, "gte", One(v))) == Ok(text + (" >= '" + Escape(v) + "'"))
    ensures BuildRule(Condition(field, "lt", One(v))) == Ok(text + (" < '" + Escape(v) + "'"))
    ensures BuildRule(Condition(field, "lte", One(v))) == Ok(text + (" <= '" + Escape(v) + "'"))
  {
    FieldIsLookedUp(field, c, text);
    NoInterval(field, One(v));
    ComparisonNames();
  }

  lemma PatternsCompile(field: string, c: Column, text: string, v: string)
    requires IsLookedUpIn(field, c, text) && !AsksForAge(field, One(v))
    ensures BuildRule(Condition(field, "contains", One(v))) == Ok(text + (" ILIKE '%" + Escape(v) + "%'"))
    ensures BuildRule(Condition(field, "not_contains", One(v))) == Ok(text + (" NOT ILIKE '%" + Escape(v) + "%'"))
    ensures BuildRule(Condition(field, "starts_with", One(v))) == Ok(text + (" ILIKE '" + Escape(v) + "%'"))
    ensures BuildRule(Condition(field, "regex", One(v))) == Ok(text + (" ~ '" + Escape(v) + "'"))
  {
    FieldIsLookedUp(field, c, text);
    NoInterval(field, One(v));
    PatternNames();
  }

  /** Every element is quoted, in its place. */
  lemma ListsCompile(field: string, c: Column, text: string, vs: seq<string>, quoted: seq<string>)
    requires IsLookedUpIn(field, c, text)
    requires |quoted| == |vs| && forall i :: 0 <= i < |vs| ==> quoted[i] == "'" + Escape(vs[i]) + "'"
    ensures BuildRule(Condition(field, "in", Many(vs))) == Ok(text + (" IN (" + S.Join(quoted, ", ") + ")"))
  {
    FieldIsLookedUp(field, c, text);
    NoInterval(field, Many(vs));
    PatternNames();
    QuotedInPlace(vs);
    assert quoted == QuoteAll(vs);
  }

  lemma {:induction false} QuotedInPlace(vs: seq<string>)
    ensures |QuoteAll(vs)| == |vs| && forall i :: 0 <= i < |vs| ==> QuoteAll(vs)[i] == "'" + Escape(vs[i]) + "'"
  {
    if vs != [] {
      QuotedInPlace(vs[1..]);
    }
  }

  // ----- Groups -----

  /** An `and` group holds if all its conditions do and fails if one fails; an `or` group the other way round. */
  lemma {:induction false} GroupsAsk(d: Dialect, row: Row, rules: seq<Rule>)
    ensures Meaning(d, row, Group(All, rules)) == True <==> forall i :: 0 <= i < |rules| ==> Meaning(d, row, rules[i]) == True
    ensures Meaning(d, row, Group(All, rules)) == False <==> exists i :: 0 <= i < |rules| && Meaning(d, row, rules[i]) == False
    ensures Meaning(d, row, Group(Any, rules)) == True <==> exists i :: 0 <= i < |rules| && Meaning(d, row, rules[i]) == True
    ensures Meaning(d, row, Group(Any, rules)) == False <==> forall i :: 0 <= i < |rules| ==> Meaning(d, row, rules[i]) == False
  {
    if rules != [] {
      var tail := rules[1..];
      GroupsAsk(d, row, tail);
      assert rules == [rules[0]] + tail;
      assert Meaning(d, row, Group(All, tail)) == AllMean(d, row, tail);
      assert Meaning(d, row, Group(Any, tail)) == AnyMeans(d, row, tail);
      assert forall i :: 0 <= i < |tail| ==> tail[i] == rules[i + 1];
      assert forall i :: 1 <= i < |rules| ==> rules[i] == tail[i - 1];
    }
  }

  /** A group compiles to its parts in parentheses, joined by its operator's word. */
  lemma GroupsCompile(rules: seq<Rule>, parts: seq<string>)
    requires |parts| == |rules| && forall i :: 0 <= i < |rules| ==> BuildRule(rules[i]) == Ok(parts[i])
    ensures BuildRule(Group(All, rules)) == Ok("(" + S.Join(parts, " AND ") + ")")
    ensures BuildRule(Group(Any, rules)) == Ok("(" + S.Join(parts, " OR ") + ")")
  {
    PartsCompile(rules, parts);
  }

  lemma {:induction false} PartsCompile(rules: seq<Rule>, parts: seq<string>)
    requires |parts| == |rules| && forall i :: 0 <= i < |rules| ==> BuildRule(rules[i]) == Ok(parts[i])
    ensures BuildRules(rules) == Ok(parts)
  {
    if rules != [] {
      PartsCompile(rules[1..], parts[1..]);
      assert parts == [parts[0]] + parts[1..];
    }
  }
}
