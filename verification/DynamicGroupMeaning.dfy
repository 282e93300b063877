/**
 Reading a compiled rule back: SQL's precedence and quoting recover the tree,
 and three-valued evaluation of what they recover is the meaning of the tree.
 */
module DynamicGroupMeaning {
  import opened Common
  import opened SqlText
  import opened DynamicGroupRules

  // ----- The expression each rule is parsed to -----

  function OperatorExpr(c: Column, op: Operator, v: Value): Expr {
    var value := Operand(v);
    match op
    case OpEq => Compare(c, Eq, value)
    case OpNeq => Compare(c, Neq, value)
    case OpGt => Compare(c, Gt, value)
    case OpGte => Compare(c, Ge, value)
    case OpLt => Compare(c, Lt, value)
    case OpLte => Compare(c, Le, value)
    case OpContains => Compare(c, Like, "%" + value + "%")
    case OpNotContains => Compare(c, NotLike, "%" + value + "%")
    case OpStartsWith => Compare(c, Like, value + "%")
    case OpIn => InList(c, InOperands(v))
    case OpRegex => Compare(c, Regex, value)
  }

  function PredicateExpr(c: Column, interval: Option<string>, op: Option<Operator>, v: Value): Expr
    requires op.Some? || interval.Some?
  {
    match interval
    case Some(i) => if AsksForOld(op) then NotNewerThan(c, i) else NewerThan(c, i)
    case None => OperatorExpr(c, op.value, v)
  }

  function RuleExpr(rule: Rule): Expr
    requires KnownNames(rule) && WellFormed(rule)
    decreases rule
  {
    match rule
    case Condition(field, op, v) => PredicateExpr(FieldColumn(field).value, RelativeInterval(field, v), OperatorOf(op), v)
    case Group(j, conditions) =>
      assert AllKnownNames(conditions) && AllWellFormed(conditions);
      TailExpr(j, RuleExpr(conditions[0]), conditions[1..])
  }

  function TailExpr(j: Joiner, e: Expr, rules: seq<Rule>): Expr
    requires AllKnownNames(rules) && AllWellFormed(rules)
    decreases rules
  {
    if rules == [] then e
    else
      var f := RuleExpr(rules[0]);
      TailExpr(j, if j == All then AndExpr(e, f) else OrExpr(e, f), rules[1..])
  }

  // ----- The parser on the tokens of one condition -----

  lemma TokensOfOperand(operator: Token, operand: string)
    ensures TokensOf(OperandPieces(operator, operand)) == [operator, Literal(operand)]
  {
    RenderConcat([Space, Tok(operator)], [Space, Tok(Literal(operand))]);
    assert OperandPieces(operator, operand) == [Space, Tok(operator)] + [Space, Tok(Literal(operand))];
    TokensOfSpaced(operator);
    TokensOfSpaced(Literal(operand));
  }

  lemma TokensOfSpaced(t: Token)
    ensures TokensOf([Space, Tok(t)]) == [t]
  {
    assert TokensOf([Tok(t)]) == [t] + TokensOf([]);
    assert [Space, Tok(t)][1..] == [Tok(t)];
  }

  lemma TokensOf3(a: Token, b: Token, c: Token)
    ensures TokensOf([Tok(a), Tok(b), Tok(c)]) == [a, b, c]
  {
    var ps := [Tok(a), Tok(b), Tok(c)];
    assert ps[1..] == [Tok(b), Tok(c)] && ps[1..][1..] == [Tok(c)];
    assert TokensOf([Tok(c)]) == [c] + TokensOf([]);
    assert TokensOf([Tok(b), Tok(c)]) == [b] + TokensOf([Tok(c)]);
  }

  lemma ParseColumnTokens(c: Column, rest: seq<Token>)
    requires rest == [] || rest[0] != Symbol("->>")
    requires |rest| >= 2 ==> rest[0] != Symbol("->>")
    ensures ParseColumn(TokensOf(ColumnPieces(c)) + rest) == Some((c, rest))
  {
    match c
    case Plain(name) =>
      assert TokensOf(ColumnPieces(c)) == [Word(name)];
      var ts := [Word(name)] + rest;
      assert ts[1..] == rest;
      assert |ts| >= 3 ==> ts[1] == rest[0];
    case Json(document, key) =>
      TokensOf3(Word(document), Symbol("->>"), Literal(key));
      var ts := [Word(document), Symbol("->>"), Literal(key)] + rest;
      assert ts[3..] == rest;
  }

  lemma ParseOperand(c: Column, operator: Token, op: Comparison, operand: string, rest: seq<Token>)
    requires operator == ComparisonToken(op) && op != NotLike
    ensures ParsePredicate(c, [operator, Literal(operand)] + rest) == Some((Compare(c, op, operand), rest))
  {
    var ts := [operator, Literal(operand)] + rest;
    assert ts[0] == operator && ts[1..] == [Literal(operand)] + rest;
    assert ComparisonOf(ts) == Some((op, ts[1..]));
    assert ts[1..][1..] == rest;
  }

  function ComparisonToken(op: Comparison): Token {
    match op
    case Eq => Symbol("=")
    case Neq => Symbol("!=")
    case Gt => Symbol(">")
    case Ge => Symbol(">=")
    case Lt => Symbol("<")
    case Le => Symbol("<=")
    case Regex => Symbol("~")
    case Like => Word("ILIKE")
    case NotLike => Word("NOT")
  }

  lemma ParseNotLike(c: Column, operand: string, rest: seq<Token>)
    ensures ParsePredicate(c, [Word("NOT"), Word("ILIKE"), Literal(operand)] + rest) == Some((Compare(c, NotLike, operand), rest))
  {
    var ts := [Word("NOT"), Word("ILIKE"), Literal(operand)] + rest;
    assert ts[0] == Word("NOT") && ts[1] == Word("ILIKE");
    assert ts[2..] == [Literal(operand)] + rest;
    assert ts[2..][1..] == rest;
  }

  /** The tokens of a list up to its closing parenthesis. */
  function ListTokens(vs: seq<string>): seq<Token> {
    if vs == [] then [RParen]
    else if |vs| == 1 then [Literal(vs[0]), RParen]
    else [Literal(vs[0]), Comma] + ListTokens(vs[1..])
  }

  lemma {:induction false} TokensOfList(vs: seq<string>)
    ensures TokensOf(LiteralPieces(vs)) == ListTokens(vs)
  {
    if vs == [] {
      assert TokensOf([Tok(RParen)]) == [RParen] + TokensOf([]);
    } else if |vs| == 1 {
      TokensOfPair(Literal(vs[0]), RParen);
    } else {
      TokensOfList(vs[1..]);
      RenderConcat([Tok(Literal(vs[0])), Tok(Comma), Space], LiteralPieces(vs[1..]));
      TokensOfElement(vs[0]);
    }
  }

  lemma TokensOfPair(a: Token, b: Token)
    ensures TokensOf([Tok(a), Tok(b)]) == [a, b]
  {
    var ps := [Tok(a), Tok(b)];
    assert ps[1..] == [Tok(b)];
    assert TokensOf([Tok(b)]) == [b] + TokensOf([]);
  }

  lemma TokensOfElement(v: string)
    ensures TokensOf([Tok(Literal(v)), Tok(Comma), Space]) == [Literal(v), Comma]
  {
    RenderConcat([Tok(Literal(v)), Tok(Comma)], [Space]);
    TokensOfPair(Literal(v), Comma);
    assert [Tok(Literal(v)), Tok(Comma), Space] == [Tok(Literal(v)), Tok(Comma)] + [Space];
    assert TokensOf([Space]) == [] + TokensOf([]);
  }

  lemma {:induction false} ParseListTokens(vs: seq<string>, rest: seq<Token>)
    ensures ParseLiterals(ListTokens(vs) + rest) == if vs == [] then None else Some((vs, rest))
  {
    var ts := ListTokens(vs) + rest;
    if vs == [] {
      assert ts[0] == RParen;
    } else if |vs| == 1 {
      assert ts[0] == Literal(vs[0]) && ts[1] == RParen && ts[2..] == rest;
      assert vs == [vs[0]];
    } else {
      ParseListTokens(vs[1..], rest);
      assert ts[0] == Literal(vs[0]) && ts[1] == Comma;
      assert ts[2..] == ListTokens(vs[1..]) + rest;
      assert vs == [vs[0]] + vs[1..];
    }
  }

  lemma ParseIn(c: Column, vs: seq<string>, rest: seq<Token>)
    ensures ParsePredicate(c, [Word("IN"), LParen] + ListTokens(vs) + rest) == if vs == [] then None else Some((InList(c, vs), rest))
  {
    ParseListTokens(vs, rest);
    var ts := [Word("IN"), LParen] + ListTokens(vs) + rest;
    assert ts[0] == Word("IN") && ts[1] == LParen && ts[2..] == ListTokens(vs) + rest;
  }

  lemma TokensOfIn(vs: seq<string>)
    ensures TokensOf([Space, Tok(Word("IN")), Space, Tok(LParen)] + LiteralPieces(vs)) == [Word("IN"), LParen] + ListTokens(vs)
  {
    var opening := [Space, Tok(Word("IN")), Space, Tok(LParen)];
    TokensOfOpening();
    RenderConcat(opening, LiteralPieces(vs));
    TokensOfList(vs);
  }

  lemma TokensOfOpening()
    ensures TokensOf([Space, Tok(Word("IN")), Space, Tok(LParen)]) == [Word("IN"), LParen]
  {
    var a, b := [Space, Tok(Word("IN"))], [Space, Tok(LParen)];
    assert [Space, Tok(Word("IN")), Space, Tok(LParen)] == a + b;
    RenderConcat(a, b);
    TokensOfSpaced(Word("IN"));
    TokensOfSpaced(LParen);
  }

  lemma ParseInterval(c: Column, past: bool, interval: string, rest: seq<Token>)
    ensures var ts := TokensOf(IntervalPieces(Symbol(if past then "<=" else ">"), interval));
      && ts != [] && ts[0] == Symbol(if past then "<=" else ">")
      && ParsePredicate(c, ts + rest) == Some((if past then NotNewerThan(c, interval) else NewerThan(c, interval), rest))
  {
    var s := Symbol(if past then "<=" else ">");
    TokensOfInterval(s, interval);
    var more := NowMinusInterval() + [Literal(interval)] + rest;
    var ts := TokensOf(IntervalPieces(s, interval)) + rest;
    assert ts == [s] + more;
    assert ts[0] == s && ts[1..] == more;
    assert more[..5] == NowMinusInterval() && more[5] == Literal(interval) && more[6..] == rest;
    assert ComparisonOf(ts) == Some((if past then Le else Gt, more));
  }

  lemma TokensOfInterval(s: Token, interval: string)
    ensures TokensOf(IntervalPieces(s, interval)) == [s] + NowMinusInterval() + [Literal(interval)]
  {
    var a, b, c, d, e := [Space, Tok(s)], [Space, Tok(Word("NOW"))], [Tok(LParen), Tok(RParen)],
      [Space, Tok(Symbol("-"))], [Space, Tok(Word("INTERVAL"))];
    var f := [Space, Tok(Literal(interval))];
    assert IntervalPieces(s, interval) == a + b + c + d + e + f;
    RenderConcat(a, b);
    RenderConcat(a + b, c);
    RenderConcat(a + b + c, d);
    RenderConcat(a + b + c + d, e);
    RenderConcat(a + b + c + d + e, f);
    TokensOfSpaced(s);
    TokensOfSpaced(Word("NOW"));
    TokensOfSpaced(Symbol("-"));
    TokensOfSpaced(Word("INTERVAL"));
    TokensOfSpaced(Literal(interval));
    TokensOfParens();
  }

  /** The parser on an operator and its operand; it fails exactly on an empty list. */
  lemma ParseOperator(c: Column, op: Operator, v: Value, rest: seq<Token>)
    ensures var ts := TokensOf(OperatorPieces(op, v));
      && ts != [] && ts[0] != Symbol("->>")
      && ParsePredicate(c, ts + rest)
         == if op == OpIn && InOperands(v) == [] then None else Some((OperatorExpr(c, op, v), rest))
  {
    match op
    case OpIn =>
      TokensOfIn(InOperands(v));
      ParseIn(c, InOperands(v), rest);
    case OpNotContains =>
      var operand := "%" + Operand(v) + "%";
      RenderConcat([Space, Tok(Word("NOT"))], OperandPieces(Word("ILIKE"), operand));
      TokensOfSpaced(Word("NOT"));
      TokensOfOperand(Word("ILIKE"), operand);
      assert [Word("NOT")] + [Word("ILIKE"), Literal(operand)] == [Word("NOT"), Word("ILIKE"), Literal(operand)];
      ParseNotLike(c, operand, rest);
    case _ => ParseComparison(c, op, v, rest);
  }

  lemma ParseComparison(c: Column, op: Operator, v: Value, rest: seq<Token>)
    requires op != OpIn && op != OpNotContains
    ensures var ts := TokensOf(OperatorPieces(op, v));
      && ts != [] && ts[0] != Symbol("->>")
      && ParsePredicate(c, ts + rest) == Some((OperatorExpr(c, op, v), rest))
  {
    var e := OperatorExpr(c, op, v);
    TokensOfOperand(ComparisonToken(e.comparison), e.operand);
    ParseOperand(c, ComparisonToken(e.comparison), e.comparison, e.operand, rest);
  }

  lemma ParsePredicateTokens(c: Column, interval: Option<string>, op: Option<Operator>, v: Value, rest: seq<Token>)
    requires op.Some? || interval.Some?
    ensures var ts := TokensOf(PredicatePieces(interval, op, v));
      && ts != [] && ts[0] != Symbol("->>")
      && ParsePredicate(c, ts + rest)
         == if op == Some(OpIn) && interval.None? && InOperands(v) == [] then None
            else Some((PredicateExpr(c, interval, op, v), rest))
  {
    match interval
    case Some(i) => ParseInterval(c, AsksForOld(op), i, rest);
    case None => ParseOperator(c, op.value, v, rest);
  }

  lemma ParseCondition(c: Column, test: seq<Token>, rest: seq<Token>)
    requires test != [] && test[0] != Symbol("->>")
    ensures ParsePrimary(TokensOf(ColumnPieces(c)) + test + rest) == ParsePredicate(c, test + rest)
  {
    ParseColumnTokens(c, test + rest);
    var ts := TokensOf(ColumnPieces(c)) + test + rest;
    assert ts == TokensOf(ColumnPieces(c)) + (test + rest);
    assert ParseColumn(ts) == Some((c, test + rest));
    assert ts[0] != LParen;
  }

  // ----- The parser on a whole rule -----

  /** Neither AND nor OR can continue what ends here. */
  predicate Stops(ts: seq<Token>) {
    ts != [] && ts[0] == RParen
  }

  /** A compiled rule is one primary of the grammar: parsing reads it and nothing more, or fails on an ill-formed one. */
  lemma {:induction false} ParseRule(rule: Rule, rest: seq<Token>)
    requires KnownNames(rule)
    ensures ParsePrimary(TokensOf(RulePieces(rule)) + rest)
         == if WellFormed(rule) then Some((RuleExpr(rule), rest)) else None
    decreases rule
  {
    match rule
    case Condition(field, op, v) =>
      var c, i, o := FieldColumn(field).value, RelativeInterval(field, v), OperatorOf(op);
      ParsePredicateTokens(c, i, o, v, rest);
      RenderConcat(ColumnPieces(c), PredicatePieces(i, o, v));
      ParseCondition(c, TokensOf(PredicatePieces(i, o, v)), rest);
    case Group(j, conditions) => ParseGroup(j, conditions, rest);
  }

  lemma ParseParenthesized(body: seq<Token>, rest: seq<Token>)
    ensures ParsePrimary([LParen] + body + [RParen] + rest)
         == match ParseOr(body + ([RParen] + rest))
            case None => None
            case Some((e, after)) => if after != [] && after[0] == RParen then Some((e, after[1..])) else None
  {
    var ts := [LParen] + body + [RParen] + rest;
    assert ts[0] == LParen && ts[1..] == body + ([RParen] + rest);
  }

  lemma {:induction false} ParseGroup(j: Joiner, conditions: seq<Rule>, rest: seq<Token>)
    requires AllKnownNames(conditions)
    ensures ParsePrimary(TokensOf(RulePieces(Group(j, conditions))) + rest)
         == if WellFormed(Group(j, conditions)) then Some((RuleExpr(Group(j, conditions)), rest)) else None
    decreases conditions, 1
  {
    var inner := if conditions == [] then [] else RulePieces(conditions[0]) + TailPieces(j, conditions[1..]);
    var close := [RParen] + rest;
    TokensOfGroup(inner);
    ParseParenthesized(TokensOf(inner), rest);
    assert close[0] == RParen && close[1..] == rest;
    if conditions == [] {
      NothingToParse(close);
      assert TokensOf(inner) + close == close;
    } else {
      ParseInner(j, conditions, close);
    }
  }

  lemma NothingToParse(close: seq<Token>)
    requires Stops(close)
    ensures ParseOr(close) == None
  {
    assert ParsePrimary(close) == None;
  }

  lemma {:induction false} ParseInner(j: Joiner, conditions: seq<Rule>, close: seq<Token>)
    requires conditions != [] && AllKnownNames(conditions) && Stops(close)
    ensures ParseOr(TokensOf(RulePieces(conditions[0]) + TailPieces(j, conditions[1..])) + close)
         == if AllWellFormed(conditions) then Some((RuleExpr(Group(j, conditions)), close)) else None
    decreases conditions, 0
  {
    var tail := TokensOf(TailPieces(j, conditions[1..])) + close;
    FirstThenTail(RulePieces(conditions[0]), TailPieces(j, conditions[1..]), close);
    ParseRule(conditions[0], tail);
    if WellFormed(conditions[0]) {
      ParseTail(j, RuleExpr(conditions[0]), conditions[1..], close);
    }
  }

  lemma FirstThenTail(a: seq<Piece>, b: seq<Piece>, close: seq<Token>)
    ensures TokensOf(a + b) + close == TokensOf(a) + (TokensOf(b) + close)
  {
    RenderConcat(a, b);
  }

  lemma TokensOfGroup(inner: seq<Piece>)
    ensures TokensOf([Tok(LParen)] + inner + [Tok(RParen)]) == [LParen] + TokensOf(inner) + [RParen]
  {
    RenderConcat([Tok(LParen)], inner);
    RenderConcat([Tok(LParen)] + inner, [Tok(RParen)]);
    assert TokensOf([Tok(LParen)]) == [LParen] + TokensOf([]);
    assert TokensOf([Tok(RParen)]) == [RParen] + TokensOf([]);
  }

  /** After the first condition of a group, the parser reads the others up to the closing parenthesis. */
  lemma {:induction false} ParseTail(j: Joiner, e: Expr, rules: seq<Rule>, close: seq<Token>)
    requires AllKnownNames(rules) && Stops(close)
    ensures var ts := TokensOf(TailPieces(j, rules)) + close;
      var expected := if AllWellFormed(rules) then Some((TailExpr(j, e, rules), close)) else None;
      && (j == All ==> ParseAndTail(e, ts) == expected)
      && (j == Any ==> ParseAndTail(e, ts) == Some((e, ts)) && ParseOrTail(e, ts) == expected)
      && ParseOrTail(e, close) == Some((e, close))
      && (expected.Some? ==> ParseOrTail(expected.value.0, close) == Some(expected.value))
    decreases rules
  {
    if rules == [] {
      assert TokensOf(TailPieces(j, rules)) + close == close;
    } else {
      var tail := TokensOf(TailPieces(j, rules[1..])) + close;
      TailSplits(j, rules, close);
      ParseRule(rules[0], tail);
      if WellFormed(rules[0]) {
        var f := RuleExpr(rules[0]);
        ParseTail(j, if j == All then AndExpr(e, f) else OrExpr(e, f), rules[1..], close);
        if j == Any {
          TailStopsAnd(rules[1..], f, close);
        }
      }
    }
  }

  lemma TailSplits(j: Joiner, rules: seq<Rule>, close: seq<Token>)
    requires rules != []
    ensures var ts := TokensOf(TailPieces(j, rules)) + close;
      && ts != [] && ts[0] == JoinerToken(j)
      && ts[1..] == TokensOf(RulePieces(rules[0])) + (TokensOf(TailPieces(j, rules[1..])) + close)
  {
    TokensOfTail(j, rules);
    Split3(JoinerToken(j), TokensOf(RulePieces(rules[0])), TokensOf(TailPieces(j, rules[1..])), close);
  }

  lemma Split3(t: Token, a: seq<Token>, b: seq<Token>, c: seq<Token>)
    ensures var ts := [t] + a + b + c; ts[0] == t && ts[1..] == a + (b + c)
  {
  }

  lemma TokensOfTail(j: Joiner, rules: seq<Rule>)
    requires rules != []
    ensures TokensOf(TailPieces(j, rules))
         == [JoinerToken(j)] + TokensOf(RulePieces(rules[0])) + TokensOf(TailPieces(j, rules[1..]))
  {
    var joiner := [Space, Tok(JoinerToken(j)), Space];
    RenderConcat(joiner, RulePieces(rules[0]));
    RenderConcat(joiner + RulePieces(rules[0]), TailPieces(j, rules[1..]));
    TokensOfSpaced(JoinerToken(j));
    RenderConcat([Space, Tok(JoinerToken(j))], [Space]);
    assert joiner == [Space, Tok(JoinerToken(j))] + [Space];
    assert TokensOf([Space]) == [] + TokensOf([]);
  }

  /** In an OR group, AND never continues a condition. */
  lemma TailStopsAnd(rules: seq<Rule>, f: Expr, close: seq<Token>)
    requires Stops(close)
    ensures var ts := TokensOf(TailPieces(Any, rules)) + close; ParseAndTail(f, ts) == Some((f, ts))
  {
    var ts := TokensOf(TailPieces(Any, rules)) + close;
    if rules == [] {
      assert ts == close;
    } else {
      TokensOfTail(Any, rules);
      assert ts[0] == Word("OR");
    }
  }

  lemma TokensOfParens()
    ensures TokensOf([Tok(LParen), Tok(RParen)]) == [LParen, RParen]
  {
    var ps := [Tok(LParen), Tok(RParen)];
    assert ps[1..] == [Tok(RParen)];
    assert TokensOf([Tok(RParen)]) == [RParen] + TokensOf([]);
  }

  // ----- The WHERE clauses the service runs -----

  /** "column = 'id' AND rules": the filter before the rules is an organization or a device id. */
  function WhereText(column: string, id: string, rules: string): string {
    column + " = '" + id + "' AND " + rules
  }

  predicate NoQuote(id: string) {
    forall i :: 0 <= i < |id| ==> id[i] != '\''
  }

  lemma LexWhere(column: string, id: string, rule: Rule)
    requires IsWord(column) && NoQuote(id) && BuildRule(rule).Ok?
    ensures Lex(WhereText(column, id, BuildRule(rule).value))
         == Some([Word(column), Symbol("="), Literal(id), Word("AND")] + TokensOf(RulePieces(rule)))
  {
    BuildsIffKnown(rule);
    RuleText(rule);
    RuleFramed(rule);
    var start := [Tok(Word(column))] + OperandPieces(Symbol("="), id);
    var joiner := [Space, Tok(Word("AND")), Space];
    var ps := start + joiner + RulePieces(rule);
    OperandSeparable(Symbol("="), id);
    SeparableConcat([Tok(Word(column))], OperandPieces(Symbol("="), id));
    SeparableConcat(start, joiner);
    SeparableConcat(start + joiner, RulePieces(rule));
    LexRender(ps);
    WherePieces(column, id, rule);
  }

  lemma RenderFour(a: seq<Piece>, b: seq<Piece>, c: seq<Piece>, d: seq<Piece>)
    ensures Render(a + b + c + d) == Render(a) + Render(b) + Render(c) + Render(d)
    ensures TokensOf(a + b + c + d) == TokensOf(a) + TokensOf(b) + TokensOf(c) + TokensOf(d)
  {
    RenderConcat(a, b);
    RenderConcat(a + b, c);
    RenderConcat(a + b + c, d);
  }

  lemma WherePieces(column: string, id: string, rule: Rule)
    requires NoQuote(id)
    ensures var ps := [Tok(Word(column))] + OperandPieces(Symbol("="), id) + [Space, Tok(Word("AND")), Space] + RulePieces(rule);
      && Render(ps) == WhereText(column, id, Render(RulePieces(rule)))
      && TokensOf(ps) == [Word(column), Symbol("="), Literal(id), Word("AND")] + TokensOf(RulePieces(rule))
  {
    WhereRender(column, id, RulePieces(rule));
    WhereTokensOf(column, id, RulePieces(rule));
  }

  lemma WhereRender(column: string, id: string, ps: seq<Piece>)
    requires NoQuote(id)
    ensures Render([Tok(Word(column))] + OperandPieces(Symbol("="), id) + [Space, Tok(Word("AND")), Space] + ps)
         == WhereText(column, id, Render(ps))
  {
    RenderFour([Tok(Word(column))], OperandPieces(Symbol("="), id), [Space, Tok(Word("AND")), Space], ps);
    WhereStart(column, id);
    AndText(column + " = '" + id, Render(ps));
  }

  lemma WhereTokensOf(column: string, id: string, ps: seq<Piece>)
    ensures TokensOf([Tok(Word(column))] + OperandPieces(Symbol("="), id) + [Space, Tok(Word("AND")), Space] + ps)
         == [Word(column), Symbol("="), Literal(id), Word("AND")] + TokensOf(ps)
  {
    WhereHead(column, id);
    RenderConcat([Tok(Word(column))] + OperandPieces(Symbol("="), id) + [Space, Tok(Word("AND")), Space], ps);
  }

  lemma WhereHead(column: string, id: string)
    ensures TokensOf([Tok(Word(column))] + OperandPieces(Symbol("="), id) + [Space, Tok(Word("AND")), Space])
         == [Word(column), Symbol("="), Literal(id), Word("AND")]
  {
    var a, b, c := [Tok(Word(column))], OperandPieces(Symbol("="), id), [Space, Tok(Word("AND")), Space];
    WhereTokens(column, id);
    RenderConcat(a, b);
    RenderConcat(a + b, c);
  }

  lemma WhereStart(column: string, id: string)
    requires NoQuote(id)
    ensures Render([Tok(Word(column))]) + Render(OperandPieces(Symbol("="), id)) == column + " = '" + id + "'"
    ensures Render([Space, Tok(Word("AND")), Space]) == " " + "AND" + " "
  {
    RenderOne(Tok(Word(column)));
    RenderOperandAs(Symbol("="), "=", " = '", id);
    EscapePlain(id);
    Render3(Space, Tok(Word("AND")), Space);
  }

  lemma WhereTokens(column: string, id: string)
    ensures TokensOf([Tok(Word(column))]) == [Word(column)]
    ensures TokensOf(OperandPieces(Symbol("="), id)) == [Symbol("="), Literal(id)]
    ensures TokensOf([Space, Tok(Word("AND")), Space]) == [Word("AND")]
  {
    assert TokensOf([Tok(Word(column))]) == [Word(column)] + TokensOf([]);
    TokensOfOperand(Symbol("="), id);
    TokensOfSpaced(Word("AND"));
    RenderConcat([Space, Tok(Word("AND"))], [Space]);
    assert [Space, Tok(Word("AND")), Space] == [Space, Tok(Word("AND"))] + [Space];
    assert TokensOf([Space]) == [] + TokensOf([]);
  }

  lemma AndText(a: string, b: string)
    ensures a + "'" + (" " + "AND" + " ") + b == a + "' AND " + b
  {
    assert "'" + (" " + "AND" + " ") == "' AND ";
  }

  /**
   The clause parses exactly when no group and no `in` list is empty, and then it parses
   to the id filter AND the rule, whatever the values contain.
   */
  lemma ParseWhereRule(column: string, id: string, rule: Rule)
    requires IsWord(column) && NoQuote(id) && BuildRule(rule).Ok?
    ensures ParseWhere(WhereText(column, id, BuildRule(rule).value))
         == if KnownNames(rule) && WellFormed(rule) then Some(AndExpr(Compare(Plain(column), Eq, id), RuleExpr(rule))) else None
  {
    BuildsIffKnown(rule);
    LexWhere(column, id, rule);
    var body := TokensOf(RulePieces(rule));
    ParseFilter(column, id, body);
    ParseRule(rule, []);
    assert body + [] == body;
    ParseFiltered(Compare(Plain(column), Eq, id), [Word(column), Symbol("="), Literal(id), Word("AND")] + body, body);
  }

  /** The id filter is the first primary of the clause. */
  lemma ParseFilter(column: string, id: string, body: seq<Token>)
    ensures ParsePrimary([Word(column), Symbol("="), Literal(id), Word("AND")] + body)
         == Some((Compare(Plain(column), Eq, id), [Word("AND")] + body))
  {
    var test := [Symbol("="), Literal(id)];
    var rest := [Word("AND")] + body;
    ParseCondition(Plain(column), test, rest);
    ParseOperand(Plain(column), Symbol("="), Eq, id, rest);
    assert TokensOf(ColumnPieces(Plain(column))) == [Word(column)] + TokensOf([]);
    assert [Word(column), Symbol("="), Literal(id), Word("AND")] + body == [Word(column)] + test + rest;
  }

  /** After the id filter, the clause stands or falls with the rule. */
  lemma ParseFiltered(first: Expr, ts: seq<Token>, body: seq<Token>)
    requires ParsePrimary(ts) == Some((first, [Word("AND")] + body))
    requires ParsePrimary(body).Some? ==> ParsePrimary(body).value.1 == []
    ensures ParseOr(ts) == match ParsePrimary(body)
                           case None => None
                           case Some((e, _)) => Some((AndExpr(first, e), []))
  {
    var more := [Word("AND")] + body;
    assert more[0] == Word("AND") && more[1..] == body;
    match ParsePrimary(body)
    case None =>
      assert ParseAndTail(first, more) == None;
    case Some((e, _)) =>
      assert ParseAndTail(AndExpr(first, e), []) == Some((AndExpr(first, e), []));
      assert ParseAndTail(first, more) == Some((AndExpr(first, e), []));
      assert ParseOrTail(AndExpr(first, e), []) == Some((AndExpr(first, e), []));
  }

  // ----- Meaning -----

  lemma {:induction false} EvalInMeaning(d: Dialect, row: Row, c: Column, vs: seq<string>)
    requires vs != []
    ensures EvalIn(d, row, c, vs)
         == match row(c)
            case None => Unknown
            case Some(a) => Known(exists i :: 0 <= i < |vs| && d.equal(c, a, vs[i]))
  {
    match row(c)
    case None =>
      if |vs| > 1 {
        EvalInMeaning(d, row, c, vs[1..]);
      }
    case Some(a) =>
      if |vs| == 1 {
        assert vs[1..] == [];
      } else {
        EvalInMeaning(d, row, c, vs[1..]);
        var tail := vs[1..];
        if exists i :: 0 <= i < |tail| && d.equal(c, a, tail[i]) {
          var i :| 0 <= i < |tail| && d.equal(c, a, tail[i]);
          assert vs[i + 1] == tail[i];
        }
        if i :| 1 <= i < |vs| && d.equal(c, a, vs[i]) {
          assert tail[i - 1] == vs[i];
        }
      }
  }

  lemma EvalPredicate(d: Dialect, row: Row, c: Column, interval: Option<string>, op: Option<Operator>, v: Value)
    requires op.Some? || interval.Some?
    requires op == Some(OpIn) && interval.None? ==> InOperands(v) != []
    ensures Eval(d, row, PredicateExpr(c, interval, op, v))
         == match interval
            case Some(i) =>
              (match row(c) case None => Unknown case Some(a) => Known(d.newerThan(a, i) != AsksForOld(op)))
            case None => OperatorMeaning(d, c, row(c), op.value, v)
  {
    if interval.None? && op == Some(OpIn) {
      EvalInMeaning(d, row, c, InOperands(v));
    }
  }

  lemma {:induction false} EvalRule(d: Dialect, row: Row, rule: Rule)
    requires KnownNames(rule) && WellFormed(rule)
    ensures Eval(d, row, RuleExpr(rule)) == Meaning(d, row, rule)
    decreases rule
  {
    match rule
    case Condition(field, op, v) =>
      EvalPredicate(d, row, FieldColumn(field).value, RelativeInterval(field, v), OperatorOf(op), v);
    case Group(j, conditions) =>
      assert AllKnownNames(conditions) && AllWellFormed(conditions);
      EvalRule(d, row, conditions[0]);
      EvalTail(d, row, j, RuleExpr(conditions[0]), conditions[1..]);
  }

  lemma {:induction false} EvalTail(d: Dialect, row: Row, j: Joiner, e: Expr, rules: seq<Rule>)
    requires AllKnownNames(rules) && AllWellFormed(rules)
    ensures Eval(d, row, TailExpr(j, e, rules))
         == if j == All then And3(Eval(d, row, e), AllMean(d, row, rules)) else Or3(Eval(d, row, e), AnyMeans(d, row, rules))
    decreases rules
  {
    if rules != [] {
      var f := RuleExpr(rules[0]);
      EvalRule(d, row, rules[0]);
      EvalTail(d, row, j, if j == All then AndExpr(e, f) else OrExpr(e, f), rules[1..]);
    }
  }

  /** The database accepts what the rule parses to exactly if every condition is well typed. */
  lemma {:induction false} AcceptedRule(d: Dialect, rule: Rule)
    requires KnownNames(rule) && WellFormed(rule)
    ensures Accepted(d, RuleExpr(rule)) <==> WellTyped(d, rule)
    decreases rule
  {
    if rule.Group? {
      var conditions := rule.conditions;
      assert AllKnownNames(conditions) && AllWellFormed(conditions);
      AcceptedRule(d, conditions[0]);
      AcceptedTail(d, rule.joiner, RuleExpr(conditions[0]), conditions[1..]);
    }
  }

  lemma {:induction false} AcceptedTail(d: Dialect, j: Joiner, e: Expr, rules: seq<Rule>)
    requires AllKnownNames(rules) && AllWellFormed(rules)
    ensures Accepted(d, TailExpr(j, e, rules)) <==> Accepted(d, e) && AllWellTyped(d, rules)
    decreases rules
  {
    if rules != [] {
      var f := RuleExpr(rules[0]);
      AcceptedRule(d, rules[0]);
      AcceptedTail(d, j, if j == All then AndExpr(e, f) else OrExpr(e, f), rules[1..]);
    }
  }

  /** Compilation preserves meaning, on every row, for every rule whose clause parses; the database accepts the well-typed ones. */
  lemma CompilationPreservesMeaning(d: Dialect, row: Row, column: string, id: string, rule: Rule)
    requires IsWord(column) && NoQuote(id) && BuildRule(rule).Ok?
    ensures var clause := ParseWhere(WhereText(column, id, BuildRule(rule).value));
      && (clause.Some? <==> WellFormed(rule))
      && (clause.Some? ==> Eval(d, row, clause.value) == And3(EvalCompare(d, row, Plain(column), Eq, id), Meaning(d, row, rule)))
      && (clause.Some? ==> (Accepted(d, clause.value) <==> d.accepts(Plain(column), Eq, id) && WellTyped(d, rule)))
  {
    BuildsIffKnown(rule);
    ParseWhereRule(column, id, rule);
    if WellFormed(rule) {
      EvalRule(d, row, rule);
      AcceptedRule(d, rule);
    }
  }

  /** An empty group compiles, and the database rejects the result. */
  lemma EmptyGroupIsRejected()
    ensures BuildRule(Group(All, [])) == Ok("()")
    ensures ParseWhere(WhereText("org_id", "o1", "()")) == None
  {
    assert BuildRules([]) == Ok([]);
    assert "(" + "" + ")" == "()";
    assert IsWord("org_id");
    ParseWhereRule("org_id", "o1", Group(All, []));
  }
}
