/**
 The fragment of SQL that the dynamic-group compiler emits: characters to tokens,
 tokens to boolean expressions, expressions to three-valued truth.
 */
module SqlText {
  import opened Common

  // ----- Lexer -----

  datatype Token = Word(text: string) | Symbol(text: string) | Literal(text: string) | LParen | RParen | Comma

  predicate IsWordChar(c: char) {
    'a' <= c <= 'z' || 'A' <= c <= 'Z' || '0' <= c <= '9' || c == '_'
  }

  predicate IsSymbolChar(c: char) {
    c == '=' || c == '!' || c == '<' || c == '>' || c == '~' || c == '-'
  }

  predicate IsWord(s: string) {
    s != "" && forall i :: 0 <= i < |s| ==> IsWordChar(s[i])
  }

  predicate IsSymbol(s: string) {
    s != "" && forall i :: 0 <= i < |s| ==> IsSymbolChar(s[i])
  }

  /** Length of the longest prefix of word characters. */
  function WordLength(s: string): (n: nat)
    ensures n <= |s|
  {
    if s == "" || !IsWordChar(s[0]) then 0 else 1 + WordLength(s[1..])
  }

  function SymbolLength(s: string): (n: nat)
    ensures n <= |s|
  {
    if s == "" || !IsSymbolChar(s[0]) then 0 else 1 + SymbolLength(s[1..])
  }

  /** Reads a quoted literal whose opening quote is already consumed. A doubled quote stands for one quote. */
  function ReadLiteral(s: string): (r: Option<(string, string)>)
    ensures r.Some? ==> |r.value.1| < |s|
  {
    if s == "" then None
    else if s[0] != '\'' then
      match ReadLiteral(s[1..])
      case None => None
      case Some((text, rest)) => Some(([s[0]] + text, rest))
    else if |s| > 1 && s[1] == '\'' then
      match ReadLiteral(s[2..])
      case None => None
      case Some((text, rest)) => Some((['\''] + text, rest))
    else Some(("", s[1..]))
  }

  function Prepend(ts: seq<Token>, more: Option<seq<Token>>): Option<seq<Token>> {
    match more
    case None => None
    case Some(us) => Some(ts + us)
  }

  /** Tokens of a text, or None where the text has an unterminated literal or a character outside the fragment. */
  function Lex(s: string): Option<seq<Token>>
    decreases |s|
  {
    if s == "" then Some([])
    else if s[0] == ' ' then Lex(s[1..])
    else if s[0] == '(' then Prepend([LParen], Lex(s[1..]))
    else if s[0] == ')' then Prepend([RParen], Lex(s[1..]))
    else if s[0] == ',' then Prepend([Comma], Lex(s[1..]))
    else if s[0] == '\'' then
      match ReadLiteral(s[1..])
      case None => None
      case Some((text, rest)) => Prepend([Literal(text)], Lex(rest))
    else if IsWordChar(s[0]) then
      var n := WordLength(s);
      Prepend([Word(s[..n])], Lex(s[n..]))
    else if IsSymbolChar(s[0]) then
      var n := SymbolLength(s);
      Prepend([Symbol(s[..n])], Lex(s[n..]))
    else None
  }

  /** Doubles every quote (section 5.3 of ISO/IEC 9075-2). */
  function Escape(v: string): string {
    if v == "" then ""
    else (if v[0] == '\'' then "''" else [v[0]]) + Escape(v[1..])
  }

  function Quote(v: string): string {
    "'" + Escape(v) + "'"
  }

  lemma {:induction false} ReadLiteralEscape(v: string, rest: string)
    requires rest == "" || rest[0] != '\''
    ensures ReadLiteral(Escape(v) + "'" + rest) == Some((v, rest))
  {
    var s := Escape(v) + "'" + rest;
    if v == "" {
      assert s == "'" + rest;
      assert s[1..] == rest;
    } else {
      ReadLiteralEscape(v[1..], rest);
      var tail := Escape(v[1..]) + "'" + rest;
      if v[0] == '\'' {
        assert s == "''" + tail;
        assert s[2..] == tail;
      } else {
        assert s == [v[0]] + tail;
        assert s[1..] == tail;
      }
      assert v == [v[0]] + v[1..];
    }
  }

  lemma LexLiteral(v: string, rest: string)
    requires rest == "" || rest[0] != '\''
    ensures Lex(Quote(v) + rest) == Prepend([Literal(v)], Lex(rest))
  {
    ReadLiteralEscape(v, rest);
    QuoteOpens(v, rest);
    LexQuoted(Escape(v) + "'" + rest);
  }

  lemma QuoteOpens(v: string, rest: string)
    ensures Quote(v) + rest == ['\''] + (Escape(v) + "'" + rest)
  {
  }

  lemma LexQuoted(s: string)
    requires ReadLiteral(s).Some?
    ensures Lex(['\''] + s) == Prepend([Literal(ReadLiteral(s).value.0)], Lex(ReadLiteral(s).value.1))
  {
    assert (['\''] + s)[1..] == s;
  }

  lemma {:induction false} WordLengthOf(w: string, rest: string)
    requires forall i :: 0 <= i < |w| ==> IsWordChar(w[i])
    requires rest == "" || !IsWordChar(rest[0])
    ensures WordLength(w + rest) == |w|
  {
    if w == "" {
      assert w + rest == rest;
    } else {
      assert (w + rest)[1..] == w[1..] + rest;
      WordLengthOf(w[1..], rest);
    }
  }

  lemma {:induction false} SymbolLengthOf(w: string, rest: string)
    requires forall i :: 0 <= i < |w| ==> IsSymbolChar(w[i])
    requires rest == "" || !IsSymbolChar(rest[0])
    ensures SymbolLength(w + rest) == |w|
  {
    if w == "" {
      assert w + rest == rest;
    } else {
      assert (w + rest)[1..] == w[1..] + rest;
      SymbolLengthOf(w[1..], rest);
    }
  }

  lemma LexWord(w: string, rest: string)
    requires IsWord(w)
    requires rest == "" || !IsWordChar(rest[0])
    ensures Lex(w + rest) == Prepend([Word(w)], Lex(rest))
  {
    WordLengthOf(w, rest);
    assert (w + rest)[..|w|] == w && (w + rest)[|w|..] == rest;
    assert IsWordChar((w + rest)[0]);
  }

  lemma LexSymbol(w: string, rest: string)
    requires IsSymbol(w)
    requires rest == "" || !IsSymbolChar(rest[0])
    ensures Lex(w + rest) == Prepend([Symbol(w)], Lex(rest))
  {
    SymbolLengthOf(w, rest);
    assert (w + rest)[..|w|] == w && (w + rest)[|w|..] == rest;
    assert IsSymbolChar((w + rest)[0]);
  }

  lemma LexSpace(rest: string)
    ensures Lex(" " + rest) == Lex(rest)
  {
    assert (" " + rest)[1..] == rest;
  }

  lemma LexPunctuation(c: char, t: Token, rest: string)
    requires (c == '(' && t == LParen) || (c == ')' && t == RParen) || (c == ',' && t == Comma)
    ensures Lex([c] + rest) == Prepend([t], Lex(rest))
  {
    assert ([c] + rest)[1..] == rest;
  }

  // ----- Text as a sequence of pieces -----

  datatype Piece = Space | Tok(token: Token)

  function RenderPiece(p: Piece): string {
    match p
    case Space => " "
    case Tok(Word(w)) => w
    case Tok(Symbol(w)) => w
    case Tok(Literal(v)) => Quote(v)
    case Tok(LParen) => "("
    case Tok(RParen) => ")"
    case Tok(Comma) => ","
  }

  function Render(ps: seq<Piece>): string {
    if ps == [] then "" else RenderPiece(ps[0]) + Render(ps[1..])
  }

  function TokensOf(ps: seq<Piece>): seq<Token> {
    if ps == [] then []
    else (if ps[0].Tok? then [ps[0].token] else []) + TokensOf(ps[1..])
  }

  predicate ValidPiece(p: Piece) {
    match p
    case Tok(Word(w)) => IsWord(w)
    case Tok(Symbol(w)) => IsSymbol(w)
    case _ => true
  }

  /** Two neighbours that the lexer keeps apart. */
  predicate KeptApart(p: Piece, q: Piece) {
    && !(p.Tok? && q.Tok? && p.token.Word? && q.token.Word?)
    && !(p.Tok? && q.Tok? && p.token.Symbol? && q.token.Symbol?)
    && !(p.Tok? && q.Tok? && p.token.Literal? && q.token.Literal?)
  }

  ghost predicate Separable(ps: seq<Piece>) {
    && (forall i :: 0 <= i < |ps| ==> ValidPiece(ps[i]))
    && (forall i :: 0 < i < |ps| ==> KeptApart(ps[i - 1], ps[i]))
  }

  lemma LexPiece(p: Piece, rest: string)
    requires ValidPiece(p)
    requires p.Tok? && p.token.Word? && rest != "" ==> !IsWordChar(rest[0])
    requires p.Tok? && p.token.Symbol? && rest != "" ==> !IsSymbolChar(rest[0])
    requires p.Tok? && p.token.Literal? && rest != "" ==> rest[0] != '\''
    ensures Lex(RenderPiece(p) + rest) == if p.Tok? then Prepend([p.token], Lex(rest)) else Lex(rest)
  {
    match p
    case Space => LexSpace(rest);
    case Tok(Word(w)) => LexWord(w, rest);
    case Tok(Symbol(w)) => LexSymbol(w, rest);
    case Tok(Literal(v)) => LexLiteral(v, rest);
    case Tok(LParen) => LexPunctuation('(', LParen, rest);
    case Tok(RParen) => LexPunctuation(')', RParen, rest);
    case Tok(Comma) => LexPunctuation(',', Comma, rest);
  }

  /** The first character of a rendering tells the kind of its first piece. */
  lemma FirstChar(p: Piece, rest: string)
    requires ValidPiece(p)
    ensures RenderPiece(p) + rest != ""
    ensures IsWordChar((RenderPiece(p) + rest)[0]) <==> p.Tok? && p.token.Word?
    ensures IsSymbolChar((RenderPiece(p) + rest)[0]) <==> p.Tok? && p.token.Symbol?
    ensures (RenderPiece(p) + rest)[0] == '\'' <==> p.Tok? && p.token.Literal?
  {
  }

  /** Lexing undoes rendering. */
  lemma {:induction false} LexRender(ps: seq<Piece>)
    requires Separable(ps)
    ensures Lex(Render(ps)) == Some(TokensOf(ps))
  {
    if ps != [] {
      LexRender(ps[1..]);
      if |ps| > 1 {
        assert KeptApart(ps[0], ps[1]) && ValidPiece(ps[1]);
        FirstChar(ps[1], Render(ps[2..]));
        assert ps[1..][1..] == ps[2..];
      }
      LexPiece(ps[0], Render(ps[1..]));
      assert ps[0].Space? ==> TokensOf(ps) == TokensOf(ps[1..]);
    }
  }

  lemma RenderConcat(a: seq<Piece>, b: seq<Piece>)
    ensures Render(a + b) == Render(a) + Render(b)
    ensures TokensOf(a + b) == TokensOf(a) + TokensOf(b)
  {
    TextConcat(a, b);
    TokensConcat(a, b);
  }

  lemma {:induction false} TextConcat(a: seq<Piece>, b: seq<Piece>)
    ensures Render(a + b) == Render(a) + Render(b)
  {
    if a == [] {
      assert a + b == b;
    } else {
      assert (a + b)[1..] == a[1..] + b;
      TextConcat(a[1..], b);
    }
  }

  lemma {:induction false} TokensConcat(a: seq<Piece>, b: seq<Piece>)
    ensures TokensOf(a + b) == TokensOf(a) + TokensOf(b)
  {
    if a == [] {
      assert a + b == b;
    } else {
      assert (a + b)[1..] == a[1..] + b;
      TokensConcat(a[1..], b);
    }
  }

  lemma SeparableConcat(a: seq<Piece>, b: seq<Piece>)
    requires Separable(a) && Separable(b)
    requires a != [] && b != [] ==> KeptApart(a[|a| - 1], b[0])
    ensures Separable(a + b)
  {
    var ps := a + b;
    forall i | 0 < i < |ps|
      ensures KeptApart(ps[i - 1], ps[i])
    {
      if i < |a| {
      } else if i == |a| {
      } else {
        assert KeptApart(b[i - 1 - |a|], b[i - |a|]);
      }
    }
  }

  lemma RenderOne(p: Piece)
    ensures Render([p]) == RenderPiece(p)
  {
    assert Render([p]) == RenderPiece(p) + Render([]);
  }

  lemma Render3(p: Piece, q: Piece, r: Piece)
    ensures Render([p, q, r]) == RenderPiece(p) + RenderPiece(q) + RenderPiece(r)
  {
    RenderOne(p);
    RenderOne(q);
    RenderOne(r);
    RenderConcat([p], [q]);
    RenderConcat([p] + [q], [r]);
    assert [p, q, r] == [p] + [q] + [r];
  }

  // ----- Expressions and their three-valued meaning -----

  datatype Truth = True | False | Unknown

  function Not3(a: Truth): Truth {
    match a case True => False case False => True case Unknown => Unknown
  }

  function And3(a: Truth, b: Truth): Truth {
    if a == False || b == False then False
    else if a == True && b == True then True
    else Unknown
  }

  function Or3(a: Truth, b: Truth): Truth {
    if a == True || b == True then True
    else if a == False && b == False then False
    else Unknown
  }

  function Known(b: bool): Truth {
    if b then True else False
  }

  datatype Column = Plain(name: string) | Json(document: string, key: string)

  datatype Comparison = Eq | Neq | Gt | Ge | Lt | Le | Like | NotLike | Regex

  datatype Expr =
    | Compare(column: Column, comparison: Comparison, operand: string)
    | InList(column: Column, operands: seq<string>)
    | NewerThan(column: Column, interval: string)
    | NotNewerThan(column: Column, interval: string)
    | AndExpr(left: Expr, right: Expr)
    | OrExpr(left: Expr, right: Expr)

  /** A table row: the value of each column, None for NULL. */
  type Row = Column -> Option<string>

  /**
   The comparisons the database decides by collation, pattern matching and its clock, and the operands it
   accepts for the type of a column. They are parameters of the model.
   */
  datatype Dialect = Dialect(
    equal: (Column, string, string) -> bool,
    less: (Column, string, string) -> bool,
    like: (string, string) -> bool,
    regex: (string, string) -> bool,
    newerThan: (string, string) -> bool,
    accepts: (Column, Comparison, string) -> bool,
    acceptsInterval: (Column, string) -> bool)

  function CompareValues(d: Dialect, c: Column, v: string, op: Comparison, operand: string): bool {
    match op
    case Eq => d.equal(c, v, operand)
    case Neq => !d.equal(c, v, operand)
    case Gt => d.less(c, operand, v)
    case Ge => !d.less(c, v, operand)
    case Lt => d.less(c, v, operand)
    case Le => !d.less(c, operand, v)
    case Like => d.like(v, operand)
    case NotLike => !d.like(v, operand)
    case Regex => d.regex(v, operand)
  }

  /** `c IN (a, b, ...)` is `c = a OR c = b OR ...`. */
  function EvalIn(d: Dialect, row: Row, c: Column, operands: seq<string>): Truth {
    if operands == [] then False
    else Or3(EvalCompare(d, row, c, Eq, operands[0]), EvalIn(d, row, c, operands[1..]))
  }

  function EvalCompare(d: Dialect, row: Row, c: Column, op: Comparison, operand: string): Truth {
    match row(c)
    case None => Unknown
    case Some(v) => Known(CompareValues(d, c, v, op, operand))
  }

  function EvalNewer(d: Dialect, row: Row, c: Column, interval: string): Truth {
    match row(c)
    case None => Unknown
    case Some(v) => Known(d.newerThan(v, interval))
  }

  function Eval(d: Dialect, row: Row, e: Expr): Truth {
    match e
    case Compare(c, op, operand) => EvalCompare(d, row, c, op, operand)
    case InList(c, operands) => EvalIn(d, row, c, operands)
    case NewerThan(c, interval) => EvalNewer(d, row, c, interval)
    case NotNewerThan(c, interval) => Not3(EvalNewer(d, row, c, interval))
    case AndExpr(a, b) => And3(Eval(d, row, a), Eval(d, row, b))
    case OrExpr(a, b) => Or3(Eval(d, row, a), Eval(d, row, b))
  }

  /** Every comparison of the expression is one that the database accepts; otherwise it refuses the statement. */
  predicate Accepted(d: Dialect, e: Expr) {
    match e
    case Compare(c, op, operand) => d.accepts(c, op, operand)
    case InList(c, operands) => forall i :: 0 <= i < |operands| ==> d.accepts(c, Eq, operands[i])
    case NewerThan(c, interval) => d.acceptsInterval(c, interval)
    case NotNewerThan(c, interval) => d.acceptsInterval(c, interval)
    case AndExpr(a, b) => Accepted(d, a) && Accepted(d, b)
    case OrExpr(a, b) => Accepted(d, a) && Accepted(d, b)
  }

  // ----- Parser: AND binds tighter than OR, both associate to the left -----

  type Parsed<T> = Option<(T, seq<Token>)>

  function ParseOr(ts: seq<Token>): (r: Parsed<Expr>)
    ensures r.Some? ==> |r.value.1| < |ts|
    decreases |ts|, 3
  {
    match ParseAnd(ts)
    case None => None
    case Some((e, rest)) => ParseOrTail(e, rest)
  }

  function ParseOrTail(e: Expr, ts: seq<Token>): (r: Parsed<Expr>)
    ensures r.Some? ==> |r.value.1| <= |ts|
    decreases |ts|, 0
  {
    if ts == [] || ts[0] != Word("OR") then Some((e, ts))
    else
      match ParseAnd(ts[1..])
      case None => None
      case Some((f, rest)) => ParseOrTail(OrExpr(e, f), rest)
  }

  function ParseAnd(ts: seq<Token>): (r: Parsed<Expr>)
    ensures r.Some? ==> |r.value.1| < |ts|
    decreases |ts|, 2
  {
    match ParsePrimary(ts)
    case None => None
    case Some((e, rest)) => ParseAndTail(e, rest)
  }

  function ParseAndTail(e: Expr, ts: seq<Token>): (r: Parsed<Expr>)
    ensures r.Some? ==> |r.value.1| <= |ts|
    decreases |ts|, 0
  {
    if ts == [] || ts[0] != Word("AND") then Some((e, ts))
    else
      match ParsePrimary(ts[1..])
      case None => None
      case Some((f, rest)) => ParseAndTail(AndExpr(e, f), rest)
  }

  function ParsePrimary(ts: seq<Token>): (r: Parsed<Expr>)
    ensures r.Some? ==> |r.value.1| < |ts|
    decreases |ts|, 1
  {
    if ts != [] && ts[0] == LParen then
      match ParseOr(ts[1..])
      case None => None
      case Some((e, rest)) =>
        if rest != [] && rest[0] == RParen then Some((e, rest[1..])) else None
    else
      match ParseColumn(ts)
      case None => None
      case Some((c, rest)) => ParsePredicate(c, rest)
  }

  function ParseColumn(ts: seq<Token>): (r: Parsed<Column>)
    ensures r.Some? ==> |r.value.1| < |ts|
  {
    if |ts| >= 3 && ts[0].Word? && ts[1] == Symbol("->>") && ts[2].Literal? then
      Some((Json(ts[0].text, ts[2].text), ts[3..]))
    else if |ts| >= 1 && ts[0].Word? then Some((Plain(ts[0].text), ts[1..]))
    else None
  }

  function ComparisonOf(ts: seq<Token>): (r: Parsed<Comparison>)
    ensures r.Some? ==> |r.value.1| < |ts|
  {
    if ts == [] then None
    else if ts[0] == Symbol("=") then Some((Eq, ts[1..]))
    else if ts[0] == Symbol("!=") then Some((Neq, ts[1..]))
    else if ts[0] == Symbol(">") then Some((Gt, ts[1..]))
    else if ts[0] == Symbol(">=") then Some((Ge, ts[1..]))
    else if ts[0] == Symbol("<") then Some((Lt, ts[1..]))
    else if ts[0] == Symbol("<=") then Some((Le, ts[1..]))
    else if ts[0] == Symbol("~") then Some((Regex, ts[1..]))
    else if ts[0] == Word("ILIKE") then Some((Like, ts[1..]))
    else if |ts| >= 2 && ts[0] == Word("NOT") && ts[1] == Word("ILIKE") then Some((NotLike, ts[2..]))
    else None
  }

  /** What follows a column: a comparison with a literal or with NOW() - INTERVAL, or an IN list. */
  function ParsePredicate(c: Column, ts: seq<Token>): (r: Parsed<Expr>)
    ensures r.Some? ==> |r.value.1| < |ts|
  {
    if |ts| >= 2 && ts[0] == Word("IN") && ts[1] == LParen then
      match ParseLiterals(ts[2..])
      case None => None
      case Some((vs, rest)) => Some((InList(c, vs), rest))
    else
      match ComparisonOf(ts)
      case None => None
      case Some((op, rest)) =>
        if rest != [] && rest[0].Literal? then Some((Compare(c, op, rest[0].text), rest[1..]))
        else if |rest| >= 6 && rest[..5] == NowMinusInterval() && rest[5].Literal? then
          match op
          case Gt => Some((NewerThan(c, rest[5].text), rest[6..]))
          case Le => Some((NotNewerThan(c, rest[5].text), rest[6..]))
          case _ => None
        else None
  }

  function NowMinusInterval(): seq<Token> {
    [Word("NOW"), LParen, RParen, Symbol("-"), Word("INTERVAL")]
  }

  /** A non-empty comma-separated list of literals up to and including the closing parenthesis. */
  function ParseLiterals(ts: seq<Token>): (r: Parsed<seq<string>>)
    ensures r.Some? ==> |r.value.1| < |ts|
    decreases |ts|
  {
    if |ts| >= 2 && ts[0].Literal? && ts[1] == RParen then Some(([ts[0].text], ts[2..]))
    else if |ts| >= 2 && ts[0].Literal? && ts[1] == Comma then
      match ParseLiterals(ts[2..])
      case None => None
      case Some((vs, rest)) => Some(([ts[0].text] + vs, rest))
    else None
  }

  /** A whole WHERE clause: one expression and nothing after it. */
  function ParseWhere(text: string): Option<Expr> {
    match Lex(text)
    case None => None
    case Some(ts) =>
      match ParseOr(ts)
      case None => None
      case Some((e, rest)) => if rest == [] then Some(e) else None
  }
}
