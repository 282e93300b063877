/** Evaluating the condition of a compliance rule against a device's reported state. */
module ComplianceRules {
  import opened Common
  import S = Strings
  import V = Versions

  /** A reported value, as decoded from JSON. */
  datatype Value = Flag(on: bool) | Number(amount: real) | Text(text: string) | Structure(rendered: string)

  type State = map<string, Value>

  datatype Condition = Condition(field: string, operator: string, value: string, conditions: seq<Condition>)

  /** A rule's condition document: one condition, an array of them, or neither. */
  datatype Document = Single(condition: Condition) | Array(conditions: seq<Condition>) | Invalid

  /** A floating-point value; the words for infinities and for no number parse without an error. */
  datatype Float = Finite(amount: real) | Infinite(positive: bool) | NaN

  /** Formatting and parsing by the standard library. */
  datatype Library = Library(
    format: Value -> string,
    parseFloat: string -> Option<Float>,
    parseBool: string -> bool,
    trim: string -> string,
    matches: (string, string) -> Option<bool>)

  datatype Operator = Eq | Neq | Gt | Gte | Lt | Lte | Contains | NotContains | In | Regex | BoolEq | Unknown

  function ParseOperator(operator: string): Operator {
    match operator
    case "eq" => Eq
    case "neq" => Neq
    case "gt" => Gt
    case "gte" => Gte
    case "lt" => Lt
    case "lte" => Lte
    case "contains" => Contains
    case "not_contains" => NotContains
    case "in" => In
    case "regex" => Regex
    case "bool_eq" => BoolEq
    case _ => Unknown
  }

  predicate IsCompound(c: Condition) {
    c.operator == "and" || c.operator == "or"
  }

  predicate IsVersionField(field: string) {
    field == "os_version" || field == "agent_version"
  }

  // ----- Single conditions -----

  predicate HasSubstring(s: string, t: string) {
    t <= s || (s != "" && HasSubstring(s[1..], t))
  }

  predicate InList(lib: Library, value: string, list: string) {
    exists i :: 0 <= i < |S.Split(list, ',')| && lib.trim(S.Split(list, ',')[i]) == value
  }

  function ToFloat(lib: Library, v: Value): Option<Float> {
    match v
    case Number(amount) => Some(Finite(amount))
    case Text(text) => lib.parseFloat(text)
    case _ => None
  }

  predicate Below(a: Float, b: Float) {
    match (a, b)
    case (Finite(x), Finite(y)) => x < y
    case (Infinite(positive), Finite(_)) => !positive
    case (Finite(_), Infinite(positive)) => positive
    case (Infinite(p), Infinite(q)) => !p && q
    case _ => false
  }

  /** The comparisons of floating-point values: none of them holds of NaN. */
  predicate FloatsOrdered(op: Operator, a: Float, b: Float) {
    var equal := a == b && !a.NaN?;
    match op
    case Gt => Below(b, a)
    case Gte => Below(b, a) || equal
    case Lt => Below(a, b)
    case Lte => Below(a, b) || equal
    case _ => false
  }

  function Known(answer: Option<bool>): Result<bool> {
    if answer.Some? then Ok(answer.value) else Err("invalid regex pattern")
  }

  /** Both sides as numbers, compared; an error where either is none. */
  function Numeric(lib: Library, op: Operator, v: Value, target: string): Result<bool> {
    var a, b := ToFloat(lib, v), lib.parseFloat(target);
    if a.None? then Err("cannot convert to float64")
    else if b.None? then Err("invalid numeric target")
    else Ok(FloatsOrdered(op, a.value, b.value))
  }

  /** What a comparison operator says of the order of two versions. */
  predicate Ordered(op: Operator, difference: int) {
    match op
    case Eq => difference == 0
    case Neq => difference != 0
    case Gt => difference > 0
    case Gte => difference >= 0
    case Lt => difference < 0
    case Lte => difference <= 0
    case _ => false
  }

  ghost function VersionCondition(lib: Library, op: Operator, v: Value, target: string): Result<bool> {
    var text := lib.format(v);
    match op
    case Contains => Ok(HasSubstring(text, target))
    case Regex => Known(lib.matches(target, text))
    case NotContains => Err("unsupported operator for version field")
    case In => Err("unsupported operator for version field")
    case BoolEq => Err("unsupported operator for version field")
    case Unknown => Err("unsupported operator for version field")
    case _ => Ok(Ordered(op, V.Compare(V.Parts(text), V.Parts(target))))
  }

  function PlainCondition(lib: Library, op: Operator, v: Value, target: string): Result<bool> {
    var text := lib.format(v);
    match op
    case Eq => Ok(text == target)
    case Neq => Ok(text != target)
    case Contains => Ok(HasSubstring(text, target))
    case NotContains => Ok(!HasSubstring(text, target))
    case In => Ok(InList(lib, text, target))
    case Regex => Known(lib.matches(target, text))
    case BoolEq => Ok(lib.parseBool(text) == lib.parseBool(target))
    case Unknown => Err("unknown operator")
    case _ => Numeric(lib, op, v, target)
  }

  /** A condition on one field. */
  ghost function Leaf(lib: Library, c: Condition, state: State): Result<bool> {
    if c.field !in state then Ok(false)
    else if IsVersionField(c.field) then VersionCondition(lib, ParseOperator(c.operator), state[c.field], c.value)
    else PlainCondition(lib, ParseOperator(c.operator), state[c.field], c.value)
  }

  // ----- Compound conditions -----

  ghost function Outcome(lib: Library, c: Condition, state: State): Result<bool>
    decreases c, 1
  {
    if !IsCompound(c) then Leaf(lib, c, state)
    else if c.conditions == [] then Ok(true)
    else FirstOutcome(lib, c.conditions, c.operator == "or", state)
  }

  /** The first outcome other than `!stop` decides: an error, or `stop`. */
  ghost function FirstOutcome(lib: Library, cs: seq<Condition>, stop: bool, state: State): Result<bool>
    decreases cs, 0
  {
    if cs == [] then Ok(!stop)
    else
      var r := Outcome(lib, cs[0], state);
      if r == Ok(!stop) then FirstOutcome(lib, cs[1..], stop, state) else r
  }

  ghost function DocumentOutcome(lib: Library, d: Document, state: State): Result<bool> {
    match d
    case Single(c) => Outcome(lib, c, state)
    case Array(cs) => FirstOutcome(lib, cs, false, state)
    case Invalid => Err("invalid condition format")
  }

  // ----- The evaluator -----

  method Evaluate(lib: Library, d: Document, state: State) returns (r: Result<bool>)
    ensures r == DocumentOutcome(lib, d, state)
  {
    match d
    case Single(c) =>
      r := EvaluateCondition(lib, c, state);
    case Array(cs) =>
      r := EvaluateInTurn(lib, cs, false, state);
    case Invalid =>
      r := Err("invalid condition format");
  }

  method EvaluateCondition(lib: Library, c: Condition, state: State) returns (r: Result<bool>)
    ensures r == Outcome(lib, c, state)
    decreases c, 1
  {
    if IsCompound(c) {
      if c.conditions == [] {
        return Ok(true);
      }
      r := EvaluateInTurn(lib, c.conditions, c.operator == "or", state);
      return;
    }
    if c.field !in state {
      return Ok(false);
    }
    if IsVersionField(c.field) {
      r := EvaluateVersionCondition(lib, state[c.field], c);
      return;
    }
    r := PlainCondition(lib, ParseOperator(c.operator), state[c.field], c.value);
  }

  /** The loop of a compound: an error or the stopping outcome ends it at once. */
  method EvaluateInTurn(lib: Library, cs: seq<Condition>, stop: bool, state: State) returns (r: Result<bool>)
    ensures r == FirstOutcome(lib, cs, stop, state)
    decreases cs, 0
  {
    for i := 0 to |cs|
      invariant FirstOutcome(lib, cs, stop, state) == FirstOutcome(lib, cs[i..], stop, state)
    {
      var one := EvaluateCondition(lib, cs[i], state);
      assert cs[i..][0] == cs[i] && cs[i..][1..] == cs[i + 1..];
      if one.Err? || one.value == stop {
        return one;
      }
    }
    return Ok(!stop);
  }

  method EvaluateVersionCondition(lib: Library, v: Value, c: Condition) returns (r: Result<bool>)
    ensures r == VersionCondition(lib, ParseOperator(c.operator), v, c.value)
  {
    var text := lib.format(v);
    var cmp := V.CompareVersions(text, c.value);
    match ParseOperator(c.operator)
    case Eq => r := Ok(cmp == 0);
    case Neq => r := Ok(cmp != 0);
    case Gt => r := Ok(cmp > 0);
    case Gte => r := Ok(cmp >= 0);
    case Lt => r := Ok(cmp < 0);
    case Lte => r := Ok(cmp <= 0);
    case Contains => r := Ok(HasSubstring(text, c.value));
    case Regex => r := Known(lib.matches(c.value, text));
    case _ => r := Err("unsupported operator for version field");
  }

  // ----- What the outcomes mean -----

  /** Classical reading: a compound with parts is a conjunction or a disjunction, one without parts holds. */
  ghost predicate Holds(lib: Library, c: Condition, state: State)
    decreases c
  {
    if !IsCompound(c) then Leaf(lib, c, state) == Ok(true)
    else if c.conditions == [] then true
    else if c.operator == "or" then exists i :: 0 <= i < |c.conditions| && Holds(lib, c.conditions[i], state)
    else forall i :: 0 <= i < |c.conditions| ==> Holds(lib, c.conditions[i], state)
  }

  /** Every field condition below evaluates without error. */
  ghost predicate AllClean(lib: Library, c: Condition, state: State)
    decreases c
  {
    if !IsCompound(c) then Leaf(lib, c, state).Ok?
    else forall i :: 0 <= i < |c.conditions| ==> AllClean(lib, c.conditions[i], state)
  }

  /** Without errors the short-circuiting evaluation is the classical reading, in whatever order the parts stand. */
  lemma {:induction false} CleanOutcomeIsLogic(lib: Library, c: Condition, state: State)
    requires AllClean(lib, c, state)
    ensures Outcome(lib, c, state) == Ok(Holds(lib, c, state))
    decreases c, 1
  {
    if IsCompound(c) && c.conditions != [] {
      forall i | 0 <= i < |c.conditions|
        ensures Outcome(lib, c.conditions[i], state) == Ok(Holds(lib, c.conditions[i], state))
      {
        CleanOutcomeIsLogic(lib, c.conditions[i], state);
      }
      CleanInTurn(lib, c.conditions, c.operator == "or", state);
      var stop := c.operator == "or";
      assert Outcome(lib, c, state) == FirstOutcome(lib, c.conditions, stop, state);
      if i :| 0 <= i < |c.conditions| && Holds(lib, c.conditions[i], state) == stop {
        assert Outcome(lib, c.conditions[i], state).value == stop;
        assert Holds(lib, c, state) == stop;
      } else {
        assert Holds(lib, c, state) == !stop;
      }
    } else if IsCompound(c) {
      assert Outcome(lib, c, state) == Ok(true);
      assert Holds(lib, c, state);
    } else {
      var r := Leaf(lib, c, state);
      assert r == Ok(r.value) && Outcome(lib, c, state) == r;
      assert Holds(lib, c, state) == r.value;
    }
  }

  lemma {:induction false} CleanInTurn(lib: Library, cs: seq<Condition>, stop: bool, state: State)
    requires forall i :: 0 <= i < |cs| ==> Outcome(lib, cs[i], state).Ok?
    ensures (forall i :: 0 <= i < |cs| ==> Outcome(lib, cs[i], state).value != stop) ==> FirstOutcome(lib, cs, stop, state) == Ok(!stop)
    ensures forall i :: 0 <= i < |cs| && Outcome(lib, cs[i], state).value == stop ==> FirstOutcome(lib, cs, stop, state) == Ok(stop)
  {
    if cs != [] {
      assert forall i :: 0 <= i < |cs| - 1 ==> cs[1..][i] == cs[i + 1];
      CleanInTurn(lib, cs[1..], stop, state);
      var r := Outcome(lib, cs[0], state);
      assert r == Ok(r.value);
      assert FirstOutcome(lib, cs, stop, state) == if r.value == stop then r else FirstOutcome(lib, cs[1..], stop, state);
      forall i | 0 <= i < |cs| && Outcome(lib, cs[i], state).value == stop
        ensures FirstOutcome(lib, cs, stop, state) == Ok(stop)
      {
        if i > 0 {
          assert cs[1..][i - 1] == cs[i];
          assert FirstOutcome(lib, cs[1..], stop, state) == Ok(stop);
        }
      }
    }
  }

  /** The outcome of a compound is that of its first deciding part, an error as well as a decision. */
  lemma {:induction false} FirstOutcomeDecides(lib: Library, cs: seq<Condition>, stop: bool, state: State, k: nat)
    requires k < |cs| && DecidesAt(lib, cs, stop, state, k)
    ensures FirstOutcome(lib, cs, stop, state) == Outcome(lib, cs[k], state)
  {
    if k > 0 {
      assert forall i :: 0 <= i < |cs| - 1 ==> cs[1..][i] == cs[i + 1];
      FirstOutcomeDecides(lib, cs[1..], stop, state, k - 1);
    }
  }

  /** Part k is the first that is not simply passed over. */
  ghost predicate DecidesAt(lib: Library, cs: seq<Condition>, stop: bool, state: State, k: nat)
    requires k < |cs|
  {
    Outcome(lib, cs[k], state) != Ok(!stop) && forall i :: 0 <= i < k ==> Outcome(lib, cs[i], state) == Ok(!stop)
  }

  /** An array of conditions is the compound `and` of them, the empty array included. */
  lemma ArrayIsAnd(lib: Library, cs: seq<Condition>, field: string, value: string, state: State)
    ensures DocumentOutcome(lib, Array(cs), state) == DocumentOutcome(lib, Single(Condition(field, "and", value, cs)), state)
  {
    assert "and"[0] != "or"[0];
  }

  /** An `or` is the disjunction of its parts if and only if it has parts: without any it holds. */
  lemma OrIsDisjunctionIffItHasParts(lib: Library, c: Condition, state: State)
    requires c.operator == "or" && AllClean(lib, c, state)
    ensures c.conditions != [] <==>
      Outcome(lib, c, state) == Ok(exists i :: 0 <= i < |c.conditions| && Holds(lib, c.conditions[i], state))
  {
    CleanOutcomeIsLogic(lib, c, state);
  }

  // ----- Fields the device did not report -----

  predicate Negates(op: Operator, negated: Operator) {
    (op, negated) in {(Eq, Neq), (Contains, NotContains), (Gt, Lte), (Gte, Lt)}
  }

  /** The numbers that gt, gte, lt and lte compare; other conditions compare none. */
  function Compared(lib: Library, op: Operator, v: Value, target: string): set<Option<Float>> {
    if op in {Gt, Gte, Lt, Lte} then {ToFloat(lib, v), lib.parseFloat(target)} else {}
  }

  /**
   Where both evaluate, a condition and its negation have opposite outcomes if and only if the field was reported
   and neither of two numbers to be compared is NaN.
   */
  lemma NegationsComplementIffComparable(lib: Library, c: Condition, d: Condition, state: State)
    requires c.field == d.field && c.value == d.value && Negates(ParseOperator(c.operator), ParseOperator(d.operator))
    requires Leaf(lib, c, state).Ok? && Leaf(lib, d, state).Ok?
    ensures Leaf(lib, c, state).value != Leaf(lib, d, state).value <==>
      && c.field in state
      && (IsVersionField(c.field) || Some(NaN) !in Compared(lib, ParseOperator(c.operator), state[c.field], c.value))
  {
    if c.field in state && !IsVersionField(c.field) {
      var v := state[c.field];
      assert ParseOperator(c.operator) in {Gt, Gte} ==> Numeric(lib, ParseOperator(c.operator), v, c.value).Ok?;
    }
  }

  /** None of the fields in a condition was reported. */
  ghost predicate NoneReported(c: Condition, state: State)
    decreases c
  {
    if !IsCompound(c) then c.field !in state
    else forall i :: 0 <= i < |c.conditions| ==> NoneReported(c.conditions[i], state)
  }

  /** The condition holds for its empty compounds alone. */
  ghost predicate Vacuous(c: Condition)
    decreases c
  {
    && IsCompound(c)
    && if c.operator == "or" && c.conditions != [] then exists i :: 0 <= i < |c.conditions| && Vacuous(c.conditions[i])
       else forall i :: 0 <= i < |c.conditions| ==> Vacuous(c.conditions[i])
  }

  ghost predicate AllHaveParts(c: Condition)
    decreases c
  {
    IsCompound(c) ==> c.conditions != [] && forall i :: 0 <= i < |c.conditions| ==> AllHaveParts(c.conditions[i])
  }

  /**
   A device that reported none of the fields evaluates without error, whatever the operators, and passes if and only
   if empty compounds alone satisfy the condition; it fails every condition whose compounds all have parts.
   */
  lemma UnreportedPassesIffVacuous(lib: Library, c: Condition, state: State)
    requires NoneReported(c, state)
    ensures Outcome(lib, c, state) == Ok(Vacuous(c))
    ensures AllHaveParts(c) ==> Outcome(lib, c, state) == Ok(false)
  {
    UnreportedIsClean(lib, c, state);
    CleanOutcomeIsLogic(lib, c, state);
    UnreportedHoldsIffVacuous(lib, c, state);
    if AllHaveParts(c) {
      NotVacuous(c);
    }
  }

  lemma {:induction false} UnreportedIsClean(lib: Library, c: Condition, state: State)
    requires NoneReported(c, state)
    ensures AllClean(lib, c, state)
    decreases c
  {
    forall i | IsCompound(c) && 0 <= i < |c.conditions|
      ensures AllClean(lib, c.conditions[i], state)
    {
      UnreportedIsClean(lib, c.conditions[i], state);
    }
  }

  lemma {:induction false} UnreportedHoldsIffVacuous(lib: Library, c: Condition, state: State)
    requires NoneReported(c, state)
    ensures Holds(lib, c, state) == Vacuous(c)
    decreases c
  {
    forall i | IsCompound(c) && 0 <= i < |c.conditions|
      ensures Holds(lib, c.conditions[i], state) == Vacuous(c.conditions[i])
    {
      UnreportedHoldsIffVacuous(lib, c.conditions[i], state);
    }
  }

  lemma {:induction false} NotVacuous(c: Condition)
    requires AllHaveParts(c)
    ensures !Vacuous(c)
    decreases c
  {
    if IsCompound(c) {
      forall i | 0 <= i < |c.conditions|
        ensures !Vacuous(c.conditions[i])
      {
        NotVacuous(c.conditions[i]);
      }
      assert !Vacuous(c.conditions[0]);
    }
  }

  // ----- Version operators -----

  /** Exactly one of lt, eq and gt holds of a reported version, and gte, lte and neq are their negations. */
  lemma VersionOperatorsAreConsistent(lib: Library, v: Value, target: string)
    ensures var lt, eq, gt := Says(lib, Lt, v, target), Says(lib, Eq, v, target), Says(lib, Gt, v, target);
      && (lt || eq || gt) && !(lt && eq) && !(lt && gt) && !(eq && gt)
      && Says(lib, Gte, v, target) == !lt && Says(lib, Lte, v, target) == !gt && Says(lib, Neq, v, target) == !eq
    ensures Says(lib, Eq, v, target) <==> V.Same(V.Parts(lib.format(v)), V.Parts(target))
    ensures Says(lib, Lt, v, target) <==> V.Lower(V.Parts(lib.format(v)), V.Parts(target))
  {
    V.CompareIsZeroForSame(V.Parts(lib.format(v)), V.Parts(target));
  }

  ghost predicate Says(lib: Library, op: Operator, v: Value, target: string)
    requires op in {Eq, Neq, Gt, Gte, Lt, Lte}
  {
    VersionCondition(lib, op, v, target).value
  }

  /** A trailing ".0" in the rule's version changes no outcome of a comparison. */
  lemma TrailingZeroInRuleIsIgnored(lib: Library, op: Operator, v: Value, target: string)
    requires op in {Eq, Neq, Gt, Gte, Lt, Lte}
    ensures Says(lib, op, v, target + ".0") == Says(lib, op, v, target)
  {
    V.AppendingZeroChangesNothing(target, lib.format(v));
  }
}
