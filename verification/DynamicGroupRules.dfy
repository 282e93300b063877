/** The compiler from dynamic-group rule trees to SQL text, and the tokens that its text consists of. */
module DynamicGroupRules {
  import opened Common
  import opened SqlText
  import S = Strings

  datatype Value = One(text: string) | Many(texts: seq<string>)

  datatype Joiner = All | Any

  datatype Rule =
    | Condition(field: string, op: string, value: Value)
    | Group(joiner: Joiner, conditions: seq<Rule>)

  // ----- The compiler -----

  /** Column text of each known field. */
  function FieldText(field: string): Option<string> {
    match FieldColumn(field)
    case None => None
    case Some(column) => Some(ColumnText(column))
  }

  function ColumnText(column: Column): string {
    match column
    case Plain(name) => name
    case Json(document, key) => document + "->>'" + key + "'"
  }

  ghost predicate PlainNames(column: Column) {
    match column
    case Plain(name) => IsWord(name)
    case Json(document, key) => IsWord(document) && IsWord(key)
  }

  const FIELD_COLUMNS: map<string, Column> := map[
    "os_version" := Plain("os_version"),
    "model" := Plain("model"),
    "manufacturer" := Plain("manufacturer"),
    "platform" := Plain("platform"),
    "os_type" := Plain("platform"),
    "status" := Plain("status"),
    "enrollment_status" := Plain("status"),
    "compliance_status" := Plain("compliance_status"),
    "compliance_state" := Plain("compliance_status"),
    "agent_version" := Json("device_info", "agent_version"),
    "last_seen_at" := Plain("last_seen_at")]

  function FieldColumn(field: string): Option<Column> {
    if field in FIELD_COLUMNS then Some(FIELD_COLUMNS[field]) else None
  }

  lemma FieldColumnIsPlain(field: string)
    requires FieldColumn(field).Some?
    ensures PlainNames(FieldColumn(field).value)
  {
    FirstNamesAreWords();
    LastNamesAreWords();
  }

  lemma FirstNamesAreWords()
    ensures IsWord("os_version") && IsWord("model") && IsWord("manufacturer") && IsWord("platform") && IsWord("status")
  {
  }

  lemma LastNamesAreWords()
    ensures IsWord("compliance_status") && IsWord("device_info") && IsWord("agent_version") && IsWord("last_seen_at")
  {
  }

  /** "7d", "12h", "30m" as an interval; None for any other text. */
  function RelativeTime(s: string): Option<string> {
    if |s| < 2 || !S.IsDigits(s[..|s| - 1]) then None
    else
      var unit := s[|s| - 1];
      if unit == 'd' then Some(s[..|s| - 1] + " days")
      else if unit == 'h' then Some(s[..|s| - 1] + " hours")
      else if unit == 'm' then Some(s[..|s| - 1] + " minutes")
      else None
  }

  function RelativeInterval(field: string, value: Value): Option<string> {
    if field == "last_seen_at" && value.One? then RelativeTime(value.text) else None
  }

  /** The operand of every operator but `in`; an array value counts as empty text. */
  function Operand(value: Value): string {
    match value case One(s) => s case Many(_) => ""
  }

  function InOperands(value: Value): seq<string> {
    match value
    case Many(ss) => ss
    case One(s) => TrimAll(S.Split(s, ','))
  }

  function TrimAll(ss: seq<string>): seq<string> {
    if ss == [] then [] else [S.Trim(ss[0])] + TrimAll(ss[1..])
  }

  function QuoteAll(ss: seq<string>): seq<string> {
    if ss == [] then [] else [Quote(ss[0])] + QuoteAll(ss[1..])
  }

  datatype Operator = OpEq | OpNeq | OpGt | OpGte | OpLt | OpLte | OpContains | OpNotContains | OpStartsWith | OpIn | OpRegex

  function OperatorOf(op: string): Option<Operator> {
    if op == "eq" then Some(OpEq)
    else if op == "neq" then Some(OpNeq)
    else if op == "gt" then Some(OpGt)
    else if op == "gte" then Some(OpGte)
    else if op == "lt" then Some(OpLt)
    else if op == "lte" then Some(OpLte)
    else if op == "contains" then Some(OpContains)
    else if op == "not_contains" then Some(OpNotContains)
    else if op == "starts_with" then Some(OpStartsWith)
    else if op == "in" then Some(OpIn)
    else if op == "regex" then Some(OpRegex)
    else None
  }

  /** With a relative time, gte and lte ask for an old row and every other operator, known or not, for a new one. */
  predicate AsksForOld(op: Option<Operator>) {
    op == Some(OpGte) || op == Some(OpLte)
  }

  function IntervalSql(op: Option<Operator>, interval: string): string {
    if AsksForOld(op) then " <= NOW() - INTERVAL '" + interval + "'"
    else " > NOW() - INTERVAL '" + interval + "'"
  }

  function OperatorSql(op: Operator, v: Value): string {
    var value := Escape(Operand(v));
    match op
    case OpEq => " = '" + value + "'"
    case OpNeq => " != '" + value + "'"
    case OpGt => " > '" + value + "'"
    case OpGte => " >= '" + value + "'"
    case OpLt => " < '" + value + "'"
    case OpLte => " <= '" + value + "'"
    case OpContains => " ILIKE '%" + value + "%'"
    case OpNotContains => " NOT ILIKE '%" + value + "%'"
    case OpStartsWith => " ILIKE '" + value + "%'"
    case OpIn => " IN (" + S.Join(QuoteAll(InOperands(v)), ", ") + ")"
    case OpRegex => " ~ '" + value + "'"
  }

  /** The text after the column; None where the operator is unknown. */
  function PredicateSql(interval: Option<string>, op: Option<Operator>, v: Value): Option<string> {
    match interval
    case Some(i) => Some(IntervalSql(op, i))
    case None =>
      match op
      case None => None
      case Some(operator) => Some(OperatorSql(operator, v))
  }

  function BuildCondition(field: string, op: string, v: Value): Result<string> {
    match FieldText(field)
    case None => Err("Unknown field: " + field)
    case Some(column) =>
      match PredicateSql(RelativeInterval(field, v), OperatorOf(op), v)
      case None => Err("Unknown operator: " + op)
      case Some(text) => Ok(column + text)
  }

  function BuildRule(rule: Rule): Result<string> {
    match rule
    case Condition(field, op, value) => BuildCondition(field, op, value)
    case Group(joiner, conditions) =>
      match BuildRules(conditions)
      case Err(m) => Err(m)
      case Ok(parts) => Ok("(" + S.Join(parts, if joiner == All then " AND " else " OR ") + ")")
  }

  /** The texts of all rules in order, or the first error. */
  function BuildRules(rules: seq<Rule>): (r: Result<seq<string>>)
    ensures r.Ok? ==> |r.value| == |rules|
  {
    if rules == [] then Ok([])
    else
      match BuildRule(rules[0])
      case Err(m) => Err(m)
      case Ok(part) =>
        match BuildRules(rules[1..])
        case Err(m) => Err(m)
        case Ok(parts) => Ok([part] + parts)
  }

  // ----- What a rule tree means, without going through SQL -----

  function ConditionMeaning(d: Dialect, row: Row, field: string, op: string, v: Value): Truth {
    match FieldColumn(field)
    case None => Unknown
    case Some(c) =>
      match RelativeInterval(field, v)
      case Some(interval) =>
        (match row(c)
         case None => Unknown
         case Some(actual) => Known(d.newerThan(actual, interval) != AsksForOld(OperatorOf(op))))
      case None =>
        match OperatorOf(op)
        case None => Unknown
        case Some(operator) => OperatorMeaning(d, c, row(c), operator, v)
  }

  /** NULL makes every comparison unknown; a list without elements contains nothing, not even NULL. */
  function OperatorMeaning(d: Dialect, c: Column, actual: Option<string>, op: Operator, v: Value): Truth {
    var wanted := Operand(v);
    match actual
    case None => if op == OpIn && InOperands(v) == [] then False else Unknown
    case Some(a) =>
      match op
      case OpEq => Known(d.equal(c, a, wanted))
      case OpNeq => Known(!d.equal(c, a, wanted))
      case OpGt => Known(d.less(c, wanted, a))
      case OpGte => Known(!d.less(c, a, wanted))
      case OpLt => Known(d.less(c, a, wanted))
      case OpLte => Known(!d.less(c, wanted, a))
      case OpContains => Known(d.like(a, "%" + wanted + "%"))
      case OpNotContains => Known(!d.like(a, "%" + wanted + "%"))
      case OpStartsWith => Known(d.like(a, wanted + "%"))
      case OpIn => Known(exists i :: 0 <= i < |InOperands(v)| && d.equal(c, a, InOperands(v)[i]))
      case OpRegex => Known(d.regex(a, wanted))
  }

  function Meaning(d: Dialect, row: Row, rule: Rule): Truth {
    match rule
    case Condition(field, op, value) => ConditionMeaning(d, row, field, op, value)
    case Group(All, conditions) => AllMean(d, row, conditions)
    case Group(Any, conditions) => AnyMeans(d, row, conditions)
  }

  function AllMean(d: Dialect, row: Row, rules: seq<Rule>): Truth {
    if rules == [] then True else And3(Meaning(d, row, rules[0]), AllMean(d, row, rules[1..]))
  }

  function AnyMeans(d: Dialect, row: Row, rules: seq<Rule>): Truth {
    if rules == [] then False else Or3(Meaning(d, row, rules[0]), AnyMeans(d, row, rules[1..]))
  }

  /** No empty group and no empty `in` list. */
  predicate WellFormed(rule: Rule) {
    match rule
    case Condition(field, op, value) =>
      OperatorOf(op) == Some(OpIn) && RelativeInterval(field, value).None? ==> InOperands(value) != []
    case Group(_, conditions) => conditions != [] && AllWellFormed(conditions)
  }

  predicate AllWellFormed(rules: seq<Rule>) {
    rules == [] || (WellFormed(rules[0]) && AllWellFormed(rules[1..]))
  }

  /** What the database must accept for a condition: the operand of its operator, or each element of its list. */
  predicate AcceptsOperator(d: Dialect, c: Column, op: Operator, v: Value) {
    var value := Operand(v);
    match op
    case OpEq => d.accepts(c, Eq, value)
    case OpNeq => d.accepts(c, Neq, value)
    case OpGt => d.accepts(c, Gt, value)
    case OpGte => d.accepts(c, Ge, value)
    case OpLt => d.accepts(c, Lt, value)
    case OpLte => d.accepts(c, Le, value)
    case OpContains => d.accepts(c, Like, "%" + value + "%")
    case OpNotContains => d.accepts(c, NotLike, "%" + value + "%")
    case OpStartsWith => d.accepts(c, Like, value + "%")
    case OpIn => forall i :: 0 <= i < |InOperands(v)| ==> d.accepts(c, Eq, InOperands(v)[i])
    case OpRegex => d.accepts(c, Regex, value)
  }

  predicate AcceptsCondition(d: Dialect, field: string, op: string, v: Value) {
    match FieldColumn(field)
    case None => true
    case Some(c) =>
      match RelativeInterval(field, v)
      case Some(interval) => d.acceptsInterval(c, interval)
      case None => OperatorOf(op).Some? ==> AcceptsOperator(d, c, OperatorOf(op).value, v)
  }

  /** Every condition of the tree compares its column with something of the column's type. */
  predicate WellTyped(d: Dialect, rule: Rule) {
    match rule
    case Condition(field, op, value) => AcceptsCondition(d, field, op, value)
    case Group(_, conditions) => AllWellTyped(d, conditions)
  }

  predicate AllWellTyped(d: Dialect, rules: seq<Rule>) {
    rules == [] || (WellTyped(d, rules[0]) && AllWellTyped(d, rules[1..]))
  }

  /** The columns that are enumerations or times in the schema; the others hold text. */
  const TYPED_COLUMNS: set<string> := {"platform", "status", "compliance_status", "last_seen_at"}

  /** Patterns are not defined on enumerations and times. */
  ghost predicate FollowsSchema(d: Dialect) {
    forall name: string, op: Comparison, operand: string ::
      name in TYPED_COLUMNS && (op.Like? || op.NotLike? || op.Regex?) ==> !d.accepts(Plain(name), op, operand)
  }

  /** So a pattern on such a column is refused, although it is well formed and compiles. */
  lemma PatternOnTypedColumn(d: Dialect, field: string, op: string, v: Value)
    requires FollowsSchema(d) && FieldColumn(field).Some? && FieldColumn(field).value.Plain? && FieldColumn(field).value.name in TYPED_COLUMNS
    requires RelativeInterval(field, v).None?
    requires OperatorOf(op) in {Some(OpContains), Some(OpNotContains), Some(OpStartsWith), Some(OpRegex)}
    ensures BuildRule(Condition(field, op, v)).Ok? && WellFormed(Condition(field, op, v)) && !WellTyped(d, Condition(field, op, v))
  {
    BuildsIffKnown(Condition(field, op, v));
  }

  /** Every field is known, and every operator too unless the value is a relative time. */
  predicate KnownNames(rule: Rule) {
    match rule
    case Condition(field, op, value) =>
      FieldColumn(field).Some? && (OperatorOf(op).Some? || RelativeInterval(field, value).Some?)
    case Group(_, conditions) => AllKnownNames(conditions)
  }

  predicate AllKnownNames(rules: seq<Rule>) {
    rules == [] || (KnownNames(rules[0]) && AllKnownNames(rules[1..]))
  }

  /** The compiler throws exactly on unknown names. */
  lemma {:induction false} BuildsIffKnown(rule: Rule)
    ensures BuildRule(rule).Ok? <==> KnownNames(rule)
  {
    match rule
    case Condition(_, _, _) =>
    case Group(_, conditions) => BuildsAllIffKnown(conditions);
  }

  lemma {:induction false} BuildsAllIffKnown(rules: seq<Rule>)
    ensures BuildRules(rules).Ok? <==> AllKnownNames(rules)
  {
    if rules == [] {
    } else {
      BuildsIffKnown(rules[0]);
      BuildsAllIffKnown(rules[1..]);
    }
  }

  // ----- The pieces a compiled rule consists of -----

  function ColumnPieces(c: Column): seq<Piece> {
    match c
    case Plain(name) => [Tok(Word(name))]
    case Json(document, key) => [Tok(Word(document)), Tok(Symbol("->>")), Tok(Literal(key))]
  }

  function LiteralPieces(vs: seq<string>): seq<Piece> {
    if vs == [] then [Tok(RParen)]
    else if |vs| == 1 then [Tok(Literal(vs[0])), Tok(RParen)]
    else [Tok(Literal(vs[0])), Tok(Comma), Space] + LiteralPieces(vs[1..])
  }

  function OperandPieces(operator: Token, operand: string): seq<Piece> {
    [Space, Tok(operator), Space, Tok(Literal(operand))]
  }

  function IntervalPieces(operator: Token, interval: string): seq<Piece> {
    [Space, Tok(operator), Space, Tok(Word("NOW")), Tok(LParen), Tok(RParen), Space, Tok(Symbol("-")), Space,
     Tok(Word("INTERVAL")), Space, Tok(Literal(interval))]
  }

  function OperatorPieces(op: Operator, v: Value): seq<Piece> {
    var value := Operand(v);
    match op
    case OpEq => OperandPieces(Symbol("="), value)
    case OpNeq => OperandPieces(Symbol("!="), value)
    case OpGt => OperandPieces(Symbol(">"), value)
    case OpGte => OperandPieces(Symbol(">="), value)
    case OpLt => OperandPieces(Symbol("<"), value)
    case OpLte => OperandPieces(Symbol("<="), value)
    case OpContains => OperandPieces(Word("ILIKE"), "%" + value + "%")
    case OpNotContains => [Space, Tok(Word("NOT"))] + OperandPieces(Word("ILIKE"), "%" + value + "%")
    case OpStartsWith => OperandPieces(Word("ILIKE"), value + "%")
    case OpIn => [Space, Tok(Word("IN")), Space, Tok(LParen)] + LiteralPieces(InOperands(v))
    case OpRegex => OperandPieces(Symbol("~"), value)
  }

  function PredicatePieces(interval: Option<string>, op: Option<Operator>, v: Value): seq<Piece> {
    match interval
    case Some(i) => IntervalPieces(Symbol(if AsksForOld(op) then "<=" else ">"), i)
    case None =>
      match op
      case None => []
      case Some(operator) => OperatorPieces(operator, v)
  }

  function JoinerToken(j: Joiner): Token {
    Word(if j == All then "AND" else "OR")
  }

  function RulePieces(rule: Rule): seq<Piece>
    decreases rule
  {
    match rule
    case Condition(field, op, value) =>
      (match FieldColumn(field) case None => [] case Some(c) => ColumnPieces(c)) 
      + PredicatePieces(RelativeInterval(field, value), OperatorOf(op), value)
    case Group(j, conditions) =>
      [Tok(LParen)] + (if conditions == [] then [] else RulePieces(conditions[0]) + TailPieces(j, conditions[1..])) + [Tok(RParen)]
  }

  function TailPieces(j: Joiner, rules: seq<Rule>): seq<Piece>
    decreases rules
  {
    if rules == [] then []
    else [Space, Tok(JoinerToken(j)), Space] + RulePieces(rules[0]) + TailPieces(j, rules[1..])
  }

  // ----- The compiled text is the rendering of these pieces -----

  lemma {:induction false} EscapeConcat(a: string, b: string)
    ensures Escape(a + b) == Escape(a) + Escape(b)
  {
    if a == "" {
      assert a + b == b;
    } else {
      assert (a + b)[1..] == a[1..] + b;
      EscapeConcat(a[1..], b);
    }
  }

  lemma {:induction false} EscapePlain(w: string)
    requires forall i :: 0 <= i < |w| ==> w[i] != '\''
    ensures Escape(w) == w
  {
    if w != "" {
      EscapePlain(w[1..]);
      assert w == [w[0]] + w[1..];
    }
  }

  lemma RelativeTimeHasNoQuote(s: string)
    requires RelativeTime(s).Some?
    ensures Escape(RelativeTime(s).value) == RelativeTime(s).value
  {
    EscapePlain(RelativeTime(s).value);
  }

  lemma RenderColumn(c: Column)
    requires PlainNames(c)
    ensures ColumnText(c) == Render(ColumnPieces(c))
  {
    match c
    case Plain(name) => RenderOne(Tok(Word(name)));
    case Json(document, key) =>
      EscapePlain(key);
      Render3(Tok(Word(document)), Tok(Symbol("->>")), Tok(Literal(key)));
      ArrowText(document, key);
  }

  lemma ArrowText(document: string, key: string)
    ensures document + "->>" + ("'" + key + "'") == document + "->>'" + key + "'"
  {
    assert "->>" + "'" == "->>'";
  }

  lemma RenderOperand(operator: Token, operand: string)
    ensures Render(OperandPieces(operator, operand)) == " " + RenderPiece(Tok(operator)) + " '" + Escape(operand) + "'"
  {
    var o := Tok(operator);
    RenderConcat([Space, o, Space], [Tok(Literal(operand))]);
    Render3(Space, o, Space);
    RenderOne(Tok(Literal(operand)));
    assert OperandPieces(operator, operand) == [Space, o, Space] + [Tok(Literal(operand))];
  }

  function NowPieces(interval: string): seq<Piece> {
    [Tok(Word("NOW")), Tok(LParen), Tok(RParen), Space, Tok(Symbol("-")), Space, Tok(Word("INTERVAL")), Space, Tok(Literal(interval))]
  }

  lemma RenderNine(a: Piece, b: Piece, c: Piece, d: Piece, e: Piece, f: Piece, g: Piece, h: Piece, i: Piece)
    ensures Render([a, b, c, d, e, f, g, h, i])
         == RenderPiece(a) + RenderPiece(b) + RenderPiece(c) + (RenderPiece(d) + RenderPiece(e) + RenderPiece(f))
          + (RenderPiece(g) + RenderPiece(h) + RenderPiece(i))
  {
    Render3(a, b, c);
    Render3(d, e, f);
    Render3(g, h, i);
    RenderParts([a, b, c], [d, e, f], [g, h, i]);
    NineInThrees(a, b, c, d, e, f, g, h, i);
  }

  lemma RenderParts(a: seq<Piece>, b: seq<Piece>, c: seq<Piece>)
    ensures Render(a + b + c) == Render(a) + Render(b) + Render(c)
  {
    RenderConcat(a, b);
    RenderConcat(a + b, c);
  }

  lemma NineInThrees(a: Piece, b: Piece, c: Piece, d: Piece, e: Piece, f: Piece, g: Piece, h: Piece, i: Piece)
    ensures [a, b, c, d, e, f, g, h, i] == [a, b, c] + [d, e, f] + [g, h, i]
  {
  }

  lemma NowText(interval: string)
    ensures "NOW" + "(" + ")" + (" " + "-" + " ") + ("INTERVAL" + " " + ("'" + interval + "'"))
         == "NOW() - INTERVAL '" + interval + "'"
  {
    assert "NOW" + "(" + ")" + (" " + "-" + " ") + ("INTERVAL" + " " + "'") == "NOW() - INTERVAL '";
  }

  lemma RenderNow(interval: string)
    requires Escape(interval) == interval
    ensures Render(NowPieces(interval)) == "NOW() - INTERVAL '" + interval + "'"
  {
    RenderNine(Tok(Word("NOW")), Tok(LParen), Tok(RParen), Space, Tok(Symbol("-")), Space,
               Tok(Word("INTERVAL")), Space, Tok(Literal(interval)));
    NowText(interval);
  }

  lemma RenderInterval(operator: string, now: string, before: string, interval: string)
    requires Render(NowPieces(interval)) == now + interval + "'"
    requires before == " " + operator + " " + now
    ensures Render(IntervalPieces(Symbol(operator), interval)) == before + interval + "'"
  {
    var op := Tok(Symbol(operator));
    Render3(Space, op, Space);
    RenderConcat([Space, op, Space], NowPieces(interval));
    assert IntervalPieces(Symbol(operator), interval) == [Space, op, Space] + NowPieces(interval);
  }

  lemma {:induction false} RenderLiterals(vs: seq<string>)
    ensures Render(LiteralPieces(vs)) == S.Join(QuoteAll(vs), ", ") + ")"
  {
    if |vs| == 0 {
      RenderOne(Tok(RParen));
    } else if |vs| == 1 {
      RenderConcat([Tok(Literal(vs[0]))], [Tok(RParen)]);
      RenderOne(Tok(Literal(vs[0])));
      RenderOne(Tok(RParen));
      assert LiteralPieces(vs) == [Tok(Literal(vs[0]))] + [Tok(RParen)];
    } else {
      RenderLiterals(vs[1..]);
      var quoted := QuoteAll(vs);
      assert quoted[1..] == QuoteAll(vs[1..]) && |quoted[1..]| >= 1;
      Render3(Tok(Literal(vs[0])), Tok(Comma), Space);
      RenderConcat([Tok(Literal(vs[0])), Tok(Comma), Space], LiteralPieces(vs[1..]));
      assert Quote(vs[0]) + "," + " " == Quote(vs[0]) + ", ";
    }
  }

  lemma RenderIn(vs: seq<string>)
    ensures Render([Space, Tok(Word("IN")), Space, Tok(LParen)] + LiteralPieces(vs))
         == " IN (" + S.Join(QuoteAll(vs), ", ") + ")"
  {
    var a, b := [Space, Tok(Word("IN")), Space], [Tok(LParen)];
    RenderLiterals(vs);
    Render3(Space, Tok(Word("IN")), Space);
    RenderOne(Tok(LParen));
    RenderConcat(a, b);
    assert a + b == [Space, Tok(Word("IN")), Space, Tok(LParen)];
    RenderConcat(a + b, LiteralPieces(vs));
    assert " " + "IN" + " " + "(" == " IN (";
  }

  lemma RenderNotLike(v: string)
    ensures Render([Space, Tok(Word("NOT"))] + OperandPieces(Word("ILIKE"), v)) == " NOT ILIKE '" + Escape(v) + "'"
  {
    RenderAfterWord("NOT", OperandPieces(Word("ILIKE"), v));
    RenderOperandAs(Word("ILIKE"), "ILIKE", " ILIKE '", v);
    assert " " + "NOT" + " ILIKE '" == " NOT ILIKE '";
  }

  lemma RenderAfterWord(w: string, ps: seq<Piece>)
    ensures Render([Space, Tok(Word(w))] + ps) == " " + w + Render(ps)
  {
    RenderOne(Space);
    RenderOne(Tok(Word(w)));
    RenderConcat([Space], [Tok(Word(w))]);
    assert [Space, Tok(Word(w))] == [Space] + [Tok(Word(w))];
    RenderConcat([Space, Tok(Word(w))], ps);
  }

  lemma RenderOperandAs(operator: Token, w: string, before: string, operand: string)
    requires operator == Symbol(w) || operator == Word(w)
    requires before == " " + w + " '"
    ensures Render(OperandPieces(operator, operand)) == before + Escape(operand) + "'"
  {
    RenderOperand(operator, operand);
  }

  /** Percent signs around an operand commute with quote doubling. */
  lemma EscapePattern(v: string)
    ensures Escape("%" + v + "%") == "%" + Escape(v) + "%"
    ensures Escape(v + "%") == Escape(v) + "%"
  {
    EscapePlain("%");
    EscapeConcat(v, "%");
    EscapeConcat("%", v + "%");
    assert "%" + v + "%" == "%" + (v + "%");
  }

  /** What the compiler writes after the column. */
  lemma RenderOperator(op: Operator, v: Value)
    ensures Render(OperatorPieces(op, v)) == OperatorSql(op, v)
  {
    match op
    case OpContains => RenderContains(v);
    case OpNotContains => RenderNotContains(v);
    case OpStartsWith => RenderStartsWith(v);
    case OpIn => RenderIn(InOperands(v));
    case OpGt => RenderOrder(op, v);
    case OpGte => RenderOrder(op, v);
    case OpLt => RenderOrder(op, v);
    case OpLte => RenderOrder(op, v);
    case OpEq => RenderEquality(op, v);
    case OpNeq => RenderEquality(op, v);
    case OpRegex => RenderEquality(op, v);
  }

  lemma Enclose(a: string, opening: string, e: string, closing: string, quote: string)
    ensures a + (opening + e + closing) + quote == (a + opening) + e + closing + quote
  {
  }

  lemma RenderEnclosed(like: string, before: string, opening: string, value: string, operand: string)
    requires like == " ILIKE '" && before == like + opening
    requires Escape(operand) == opening + Escape(value) + "%"
    ensures Render(OperandPieces(Word("ILIKE"), operand)) == before + Escape(value) + "%" + "'"
  {
    RenderOperandAs(Word("ILIKE"), "ILIKE", like, operand);
    Enclose(like, opening, Escape(value), "%", "'");
  }

  lemma RenderContains(v: Value)
    ensures Render(OperatorPieces(OpContains, v)) == OperatorSql(OpContains, v)
  {
    EscapePattern(Operand(v));
    RenderEnclosed(" ILIKE '", " ILIKE '%", "%", Operand(v), "%" + Operand(v) + "%");
    ClosingText(" ILIKE '%" + Escape(Operand(v)));
  }

  lemma RenderStartsWith(v: Value)
    ensures Render(OperatorPieces(OpStartsWith, v)) == OperatorSql(OpStartsWith, v)
  {
    RenderPrefix(Operand(v));
  }

  lemma RenderPrefix(value: string)
    ensures Render(OperandPieces(Word("ILIKE"), value + "%")) == " ILIKE '" + Escape(value) + "%'"
  {
    EscapePattern(value);
    RenderOperandAs(Word("ILIKE"), "ILIKE", " ILIKE '", value + "%");
    ClosedPattern(" ILIKE '", Escape(value));
  }

  lemma ClosedPattern(before: string, e: string)
    ensures before + (e + "%") + "'" == before + e + "%'"
  {
  }

  lemma ClosingText(s: string)
    ensures s + "%" + "'" == s + "%'"
  {
  }

  lemma RenderNotContains(v: Value)
    ensures Render(OperatorPieces(OpNotContains, v)) == OperatorSql(OpNotContains, v)
  {
    EscapePattern(Operand(v));
    RenderNotLike("%" + Operand(v) + "%");
    NotLikeText(Escape(Operand(v)));
  }

  lemma NotLikeText(e: string)
    ensures " NOT ILIKE '" + ("%" + e + "%") + "'" == " NOT ILIKE '%" + e + "%'"
  {
    assert " NOT ILIKE '" + "%" == " NOT ILIKE '%";
  }

  lemma RenderOrder(op: Operator, v: Value)
    requires op == OpGt || op == OpGte || op == OpLt || op == OpLte
    ensures Render(OperatorPieces(op, v)) == OperatorSql(op, v)
  {
    match op
    case OpGt => RenderOperandAs(Symbol(">"), ">", " > '", Operand(v));
    case OpGte => RenderOperandAs(Symbol(">="), ">=", " >= '", Operand(v));
    case OpLt => RenderOperandAs(Symbol("<"), "<", " < '", Operand(v));
    case OpLte => RenderOperandAs(Symbol("<="), "<=", " <= '", Operand(v));
  }

  lemma RenderEquality(op: Operator, v: Value)
    requires op == OpEq || op == OpNeq || op == OpRegex
    ensures Render(OperatorPieces(op, v)) == OperatorSql(op, v)
  {
    match op
    case OpEq => RenderOperandAs(Symbol("="), "=", " = '", Operand(v));
    case OpNeq => RenderOperandAs(Symbol("!="), "!=", " != '", Operand(v));
    case OpRegex => RenderOperandAs(Symbol("~"), "~", " ~ '", Operand(v));
  }

  lemma RenderPredicate(interval: Option<string>, op: Option<Operator>, v: Value)
    requires PredicateSql(interval, op, v).Some?
    requires interval.Some? ==> Escape(interval.value) == interval.value
    ensures Render(PredicatePieces(interval, op, v)) == PredicateSql(interval, op, v).value
  {
    match interval
    case Some(i) => RenderSince(AsksForOld(op), i);
    case None => RenderOperator(op.value, v);
  }

  lemma RenderSince(past: bool, interval: string)
    requires Escape(interval) == interval
    ensures Render(IntervalPieces(Symbol(if past then "<=" else ">"), interval))
         == (if past then " <= NOW() - INTERVAL '" + interval + "'" else " > NOW() - INTERVAL '" + interval + "'")
  {
    if past {
      RenderNotNewer(interval);
    } else {
      RenderNewer(interval);
    }
  }

  lemma RenderNotNewer(interval: string)
    requires Escape(interval) == interval
    ensures Render(IntervalPieces(Symbol("<="), interval)) == " <= NOW() - INTERVAL '" + interval + "'"
  {
    RenderNow(interval);
    NotNewerText();
    RenderInterval("<=", "NOW() - INTERVAL '", " <= NOW() - INTERVAL '", interval);
  }

  lemma RenderNewer(interval: string)
    requires Escape(interval) == interval
    ensures Render(IntervalPieces(Symbol(">"), interval)) == " > NOW() - INTERVAL '" + interval + "'"
  {
    RenderNow(interval);
    NewerText();
    RenderInterval(">", "NOW() - INTERVAL '", " > NOW() - INTERVAL '", interval);
  }

  lemma NotNewerText()
    ensures " <= NOW() - INTERVAL '" == " " + "<=" + " " + "NOW() - INTERVAL '"
  {
  }

  lemma NewerText()
    ensures " > NOW() - INTERVAL '" == " " + ">" + " " + "NOW() - INTERVAL '"
  {
  }

  /** The compiler's text is the rendering of the rule's pieces. */
  lemma {:induction false} RuleText(rule: Rule)
    requires BuildRule(rule).Ok?
    ensures BuildRule(rule).value == Render(RulePieces(rule))
    decreases rule
  {
    match rule
    case Condition(field, op, v) =>
      var c := FieldColumn(field).value;
      FieldColumnIsPlain(field);
      RenderColumn(c);
      if RelativeInterval(field, v).Some? {
        RelativeTimeHasNoQuote(v.text);
      }
      RenderPredicate(RelativeInterval(field, v), OperatorOf(op), v);
      RenderConcat(ColumnPieces(c), PredicatePieces(RelativeInterval(field, v), OperatorOf(op), v));
    case Group(j, conditions) =>
      var parts := BuildRules(conditions).value;
      var sep := if j == All then " AND " else " OR ";
      var inner := if conditions == [] then [] else RulePieces(conditions[0]) + TailPieces(j, conditions[1..]);
      RenderOne(Tok(LParen));
      RenderOne(Tok(RParen));
      RenderConcat([Tok(LParen)], inner);
      RenderConcat([Tok(LParen)] + inner, [Tok(RParen)]);
      if conditions != [] {
        RuleText(conditions[0]);
        TailText(j, conditions[1..]);
        RenderConcat(RulePieces(conditions[0]), TailPieces(j, conditions[1..]));
        assert parts[1..] == BuildRules(conditions[1..]).value;
        JoinTail(parts, sep);
      }
      assert Render(inner) == S.Join(parts, sep);
  }

  /** Every part with the separator before it. */
  function SeparatedTail(parts: seq<string>, sep: string): string {
    if parts == [] then "" else sep + parts[0] + SeparatedTail(parts[1..], sep)
  }

  lemma {:induction false} JoinTail(parts: seq<string>, sep: string)
    requires parts != []
    ensures S.Join(parts, sep) == parts[0] + SeparatedTail(parts[1..], sep)
  {
    if |parts| > 1 {
      JoinTail(parts[1..], sep);
      assert parts[1..][1..] == parts[2..];
    }
  }

  lemma {:induction false} TailText(j: Joiner, rules: seq<Rule>)
    requires BuildRules(rules).Ok?
    ensures Render(TailPieces(j, rules))
         == SeparatedTail(BuildRules(rules).value, if j == All then " AND " else " OR ")
    decreases rules
  {
    if rules != [] {
      var parts := BuildRules(rules).value;
      RuleText(rules[0]);
      TailText(j, rules[1..]);
      assert parts[1..] == BuildRules(rules[1..]).value;
      RenderJoined(j, RulePieces(rules[0]), TailPieces(j, rules[1..]));
    }
  }

  lemma RenderJoined(j: Joiner, a: seq<Piece>, b: seq<Piece>)
    ensures Render([Space, Tok(JoinerToken(j)), Space] + a + b)
         == (if j == All then " AND " else " OR ") + Render(a) + Render(b)
  {
    var joiner := [Space, Tok(JoinerToken(j)), Space];
    Render3(Space, Tok(JoinerToken(j)), Space);
    RenderParts(joiner, a, b);
  }

  // ----- The lexer keeps the pieces of a rule apart -----

  ghost predicate Framed(ps: seq<Piece>) {
    && Separable(ps) && ps != []
    && ps[0].Tok? && !ps[0].token.Literal? && !ps[0].token.Symbol?
    && ps[|ps| - 1].Tok? && (ps[|ps| - 1].token.Literal? || ps[|ps| - 1].token == RParen)
  }

  lemma {:induction false} LiteralsSeparable(vs: seq<string>)
    ensures Separable(LiteralPieces(vs)) && LiteralPieces(vs) != []
    ensures LiteralPieces(vs)[|LiteralPieces(vs)| - 1] == Tok(RParen)
  {
    if |vs| > 1 {
      LiteralsSeparable(vs[1..]);
      SeparableConcat([Tok(Literal(vs[0])), Tok(Comma), Space], LiteralPieces(vs[1..]));
    }
  }

  /** A predicate starts with a space and ends with a literal or a closing parenthesis. */
  ghost predicate PredicateEnds(ps: seq<Piece>) {
    && Separable(ps) && |ps| > 1 && ps[0] == Space
    && ps[|ps| - 1].Tok? && (ps[|ps| - 1].token.Literal? || ps[|ps| - 1].token == RParen)
  }

  lemma OperandSeparable(operator: Token, operand: string)
    requires (operator.Word? && IsWord(operator.text)) || (operator.Symbol? && IsSymbol(operator.text))
    ensures PredicateEnds(OperandPieces(operator, operand))
  {
  }

  lemma OperatorSeparable(op: Operator, v: Value)
    ensures PredicateEnds(OperatorPieces(op, v))
  {
    match op
    case OpIn => InSeparable(InOperands(v));
    case OpContains => OperandSeparable(Word("ILIKE"), "%" + Operand(v) + "%");
    case OpStartsWith => OperandSeparable(Word("ILIKE"), Operand(v) + "%");
    case OpNotContains => NegatedSeparable("%" + Operand(v) + "%");
    case _ => ComparisonSeparable(op, v);
  }

  lemma InSeparable(vs: seq<string>)
    ensures PredicateEnds([Space, Tok(Word("IN")), Space, Tok(LParen)] + LiteralPieces(vs))
  {
    LiteralsSeparable(vs);
    SeparableConcat([Space, Tok(Word("IN")), Space, Tok(LParen)], LiteralPieces(vs));
  }

  lemma NegatedSeparable(operand: string)
    ensures PredicateEnds([Space, Tok(Word("NOT"))] + OperandPieces(Word("ILIKE"), operand))
  {
    OperandSeparable(Word("ILIKE"), operand);
    SeparableConcat([Space, Tok(Word("NOT"))], OperandPieces(Word("ILIKE"), operand));
  }

  lemma ComparisonSeparable(op: Operator, v: Value)
    requires op.OpEq? || op.OpNeq? || op.OpGt? || op.OpGte? || op.OpLt? || op.OpLte? || op.OpRegex?
    ensures PredicateEnds(OperatorPieces(op, v))
  {
    var symbol := OperatorPieces(op, v)[1].token;
    OperandSeparable(symbol, Operand(v));
  }

  lemma PredicateSeparable(interval: Option<string>, op: Option<Operator>, v: Value)
    requires op.Some? || interval.Some?
    ensures PredicateEnds(PredicatePieces(interval, op, v))
  {
    match interval
    case Some(i) => IntervalSeparable(if AsksForOld(op) then "<=" else ">", i);
    case None => OperatorSeparable(op.value, v);
  }

  lemma IntervalSeparable(operator: string, interval: string)
    requires IsSymbol(operator)
    ensures PredicateEnds(IntervalPieces(Symbol(operator), interval))
  {
  }

  lemma ConditionFramed(c: Column, test: seq<Piece>)
    requires PlainNames(c) && PredicateEnds(test)
    ensures Framed(ColumnPieces(c) + test)
  {
    SeparableConcat(ColumnPieces(c), test);
  }

  lemma GroupFramed(inner: seq<Piece>)
    requires inner == [] || Framed(inner)
    ensures Framed([Tok(LParen)] + inner + [Tok(RParen)])
  {
    SeparableConcat([Tok(LParen)], inner);
    SeparableConcat([Tok(LParen)] + inner, [Tok(RParen)]);
  }

  lemma {:induction false} RuleFramed(rule: Rule)
    requires KnownNames(rule)
    ensures Framed(RulePieces(rule))
    decreases rule
  {
    match rule
    case Condition(field, op, v) =>
      FieldColumnIsPlain(field);
      PredicateSeparable(RelativeInterval(field, v), OperatorOf(op), v);
      ConditionFramed(FieldColumn(field).value, PredicatePieces(RelativeInterval(field, v), OperatorOf(op), v));
    case Group(j, conditions) =>
      if conditions == [] {
        GroupFramed([]);
      } else {
        RuleFramed(conditions[0]);
        TailFramed(j, RulePieces(conditions[0]), conditions[1..]);
        GroupFramed(RulePieces(conditions[0]) + TailPieces(j, conditions[1..]));
      }
  }

  lemma {:induction false} TailFramed(j: Joiner, head: seq<Piece>, rules: seq<Rule>)
    requires Framed(head) && AllKnownNames(rules)
    ensures Framed(head + TailPieces(j, rules))
    decreases rules
  {
    if rules == [] {
      assert head + TailPieces(j, rules) == head;
    } else {
      RuleFramed(rules[0]);
      FramedJoin(head, JoinerToken(j), RulePieces(rules[0]));
      TailFramed(j, head + [Space, Tok(JoinerToken(j)), Space] + RulePieces(rules[0]), rules[1..]);
      Regroup(head, [Space, Tok(JoinerToken(j)), Space], RulePieces(rules[0]), TailPieces(j, rules[1..]));
    }
  }

  lemma Regroup(a: seq<Piece>, b: seq<Piece>, c: seq<Piece>, d: seq<Piece>)
    ensures a + (b + c + d) == a + b + c + d
  {
  }

  lemma FramedJoin(a: seq<Piece>, joiner: Token, b: seq<Piece>)
    requires Framed(a) && Framed(b) && joiner.Word? && IsWord(joiner.text)
    ensures Framed(a + [Space, Tok(joiner), Space] + b)
  {
    var between := [Space, Tok(joiner), Space];
    SeparableConcat(a, between);
    SeparableConcat(a + between, b);
  }

  /** The lexer recovers the rule's tokens from the compiled text. */
  lemma LexRule(rule: Rule)
    requires BuildRule(rule).Ok?
    ensures Lex(BuildRule(rule).value) == Some(TokensOf(RulePieces(rule)))
  {
    BuildsIffKnown(rule);
    RuleText(rule);
    RuleFramed(rule);
    LexRender(RulePieces(rule));
  }
}
