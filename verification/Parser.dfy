/**
 The expression parser: precedence climbing with prefix, infix and postfix forms. The Parse functions say what is
 read off the remaining tokens; class ExprParser moves a cursor over the token list and computes them.
 */
module Parser {
  import opened Results
  import opened Types
  import opened Ast

  /** Keywords and symbols that expressions do not use are KW_OTHER and SYMBOL. */
  datatype TokenKind =
    | LIT_INTEGER | LIT_FLOAT | LIT_STRING | LIT_TRUE | LIT_FALSE | LIT_NULL
    | IDENT
    | KW_AND | KW_OR | KW_NOT | KW_IN | KW_LIKE | KW_ILIKE | KW_BETWEEN | KW_IS
    | KW_CASE | KW_WHEN | KW_THEN | KW_ELSE | KW_END
    | KW_DISTINCT | KW_SELECT
    | KW_OTHER(word: string)
    | OP_PLUS | OP_MINUS | OP_STAR | OP_SLASH | OP_PERCENT | OP_CARET
    | OP_EQ | OP_NEQ | OP_LT | OP_LTE | OP_GT | OP_GTE
    | OP_CONCAT
    | LPAREN | RPAREN | COMMA | DOT
    | SYMBOL(text: string)
    | DOLLAR_NUM
    | END_OF_FILE
    | ERROR

  /** `value` is what the typed accessor of a literal token returns; an accessor that throws is Err. */
  datatype Token = Token(kind: TokenKind, lexeme: string, value: Result<Value>)

  /** The tokens still to be read, up to the END_OF_FILE token. */
  datatype Tokens = End | More(head: Token, tail: Tokens)

  function Size(ts: Tokens): nat {
    if ts.End? then 0 else 1 + Size(ts.tail)
  }

  // ---- The token cursor ----

  function Kind(ts: Tokens): TokenKind {
    if ts.End? then END_OF_FILE else ts.head.kind
  }

  /** The kind after the current one; END_OF_FILE is sticky. */
  function Peek(ts: Tokens): TokenKind {
    if ts.End? then END_OF_FILE else Kind(ts.tail)
  }

  function Rest(ts: Tokens): (r: Tokens)
    requires Kind(ts) != END_OF_FILE
    ensures Size(r) == Size(ts) - 1
  {
    ts.tail
  }

  function Expect(ts: Tokens, k: TokenKind): (r: Result<Tokens>)
    requires k != END_OF_FILE
    ensures r.Ok? ==> Size(r.value) == Size(ts) - 1
  {
    if Kind(ts) == k then Ok(Rest(ts)) else Err
  }

  // ---- Tables ----

  function Precedence(k: TokenKind): int {
    match k
    case KW_OR => 1
    case KW_AND => 2
    case OP_EQ | OP_NEQ | OP_LT | OP_LTE | OP_GT | OP_GTE | KW_LIKE | KW_ILIKE => 4
    case OP_CONCAT => 5
    case OP_PLUS | OP_MINUS => 6
    case OP_STAR | OP_SLASH | OP_PERCENT => 7
    case OP_CARET => 8
    case _ => -1
  }

  function ToBinaryOp(k: TokenKind): BinaryOp {
    match k
    case KW_OR => OR
    case KW_AND => AND
    case OP_EQ => EQ
    case OP_NEQ => NEQ
    case OP_LT => LT
    case OP_LTE => LTE
    case OP_GT => GT
    case OP_GTE => GTE
    case KW_LIKE => LIKE
    case KW_ILIKE => ILIKE
    case OP_CONCAT => CONCAT
    case OP_MINUS => SUB
    case OP_STAR => MUL
    case OP_SLASH => DIV
    case OP_PERCENT => MOD
    case OP_CARET => POW
    case _ => ADD
  }

  /** The level the right operand is read at: `^` is right-associative. */
  function RightLevel(k: TokenKind): int {
    if k == OP_CARET then Precedence(k) else Precedence(k) + 1
  }

  // ---- What is parsed ----

  type Parsed = Result<(Expr, Tokens)>

  function ParseExpr(min: nat, ts: Tokens): (r: Parsed)
    ensures r.Ok? ==> Size(r.value.1) < Size(ts)
    decreases Size(ts), 5
  {
    var u :- ParseUnary(ts);
    var p :- ParsePostfix(u.0, u.1);
    ParseLoop(min, p.0, p.1)
  }

  /** The infix loop with `left` already read. */
  function ParseLoop(min: nat, left: Expr, ts: Tokens): (r: Parsed)
    ensures r.Ok? ==> Size(r.value.1) <= Size(ts)
    decreases Size(ts), 4
  {
    var k := Kind(ts);
    if Precedence(k) < min then Ok((left, ts))
    else
      var right :- ParseExpr(RightLevel(k), Rest(ts));
      var p :- ParsePostfix(Binary(ToBinaryOp(k), left, right.0), right.1);
      ParseLoop(min, p.0, p.1)
  }

  function ParseUnary(ts: Tokens): (r: Parsed)
    ensures r.Ok? ==> Size(r.value.1) < Size(ts)
    decreases Size(ts), 3
  {
    match Kind(ts)
    case KW_NOT =>
      var x :- ParseExpr(3, Rest(ts));
      Ok((Unary(NOT, x.0), x.1))
    case OP_MINUS =>
      var x :- ParseUnary(Rest(ts));
      Ok((Unary(NEGATE, x.0), x.1))
    case OP_PLUS =>
      var x :- ParseUnary(Rest(ts));
      Ok((Unary(PLUS, x.0), x.1))
    case _ => ParsePrimary(ts)
  }

  predicate NegatesPostfix(k: TokenKind) {
    k == KW_BETWEEN || k == KW_IN || k == KW_LIKE || k == KW_ILIKE
  }

  function ParsePostfix(left: Expr, ts: Tokens): (r: Parsed)
    ensures r.Ok? ==> Size(r.value.1) <= Size(ts)
    decreases Size(ts), 3
  {
    if Kind(ts) == KW_IS then ParseIs(left, Rest(ts))
    else if Kind(ts) == KW_NOT && NegatesPostfix(Peek(ts)) then ParseNegatable(left, true, Rest(ts))
    else ParseNegatable(left, false, ts)
  }

  /** BETWEEN, IN and, after NOT only, LIKE. */
  function ParseNegatable(left: Expr, negated: bool, ts: Tokens): (r: Parsed)
    requires negated ==> NegatesPostfix(Kind(ts))
    ensures r.Ok? ==> Size(r.value.1) <= Size(ts)
    decreases Size(ts), 2
  {
    if Kind(ts) == KW_BETWEEN then ParseBetween(left, negated, Rest(ts))
    else if Kind(ts) == KW_IN then ParseIn(left, negated, Rest(ts))
    else if negated then ParseNotLike(left, ToBinaryOp(Kind(ts)), Rest(ts))
    else Ok((left, ts))
  }

  function ParseIs(left: Expr, ts: Tokens): (r: Parsed)
    ensures r.Ok? ==> Size(r.value.1) <= Size(ts)
    decreases Size(ts), 6
  {
    var negated := Kind(ts) == KW_NOT;
    var end :- Expect(if negated then Rest(ts) else ts, LIT_NULL);
    ParsePostfix(IsNull(left, negated), end)
  }

  function ParseBetween(left: Expr, negated: bool, ts: Tokens): (r: Parsed)
    ensures r.Ok? ==> Size(r.value.1) <= Size(ts)
    decreases Size(ts), 6
  {
    var low :- ParseExpr(5, ts);
    var at :- Expect(low.1, KW_AND);
    var high :- ParseExpr(5, at);
    ParsePostfix(Between(left, low.0, high.0, negated), high.1)
  }

  /** A subquery in the list is refused. */
  function ParseIn(left: Expr, negated: bool, ts: Tokens): (r: Parsed)
    ensures r.Ok? ==> Size(r.value.1) <= Size(ts)
    decreases Size(ts), 6
  {
    var open :- Expect(ts, LPAREN);
    if Kind(open) == KW_SELECT then Err
    else
      var list :- if Kind(open) == RPAREN then Ok(([], open)) else ParseList(open);
      var end :- Expect(list.1, RPAREN);
      ParsePostfix(In(left, list.0, negated), end)
  }

  function ParseNotLike(left: Expr, op: BinaryOp, ts: Tokens): (r: Parsed)
    ensures r.Ok? ==> Size(r.value.1) <= Size(ts)
    decreases Size(ts), 6
  {
    var right :- ParseExpr(5, ts);
    ParsePostfix(Unary(NOT, Binary(op, left, right.0)), right.1)
  }

  function ParseList(ts: Tokens): (r: Result<(seq<Expr>, Tokens)>)
    ensures r.Ok? ==> Size(r.value.1) < Size(ts)
    decreases Size(ts), 6
  {
    var first :- ParseExpr(0, ts);
    if Kind(first.1) == COMMA then
      var more :- ParseList(Rest(first.1));
      Ok(([first.0] + more.0, more.1))
    else Ok(([first.0], first.1))
  }

  predicate IsLiteral(k: TokenKind) {
    k == LIT_INTEGER || k == LIT_FLOAT || k == LIT_STRING || k == LIT_TRUE || k == LIT_FALSE || k == LIT_NULL
  }

  function LiteralValue(t: Token): Result<Value> {
    match t.kind
    case LIT_TRUE => Ok(Bool(true))
    case LIT_FALSE => Ok(Bool(false))
    case LIT_NULL => Ok(Null)
    case _ => t.value
  }

  function ParsePrimary(ts: Tokens): (r: Parsed)
    ensures r.Ok? ==> Size(r.value.1) < Size(ts)
    decreases Size(ts), 2
  {
    if IsLiteral(Kind(ts)) then
      var v :- LiteralValue(ts.head);
      Ok((Literal(v), Rest(ts)))
    else match Kind(ts)
    case KW_CASE => ParseCase(Rest(ts))
    case LPAREN => ParseParens(Rest(ts))
    case OP_STAR => Ok((Column("*"), Rest(ts)))
    case IDENT => ParseName(ts.head.lexeme, Rest(ts))
    case _ => Err
  }

  /** A function call or a column, after the name. */
  function ParseName(name: string, ts: Tokens): (r: Parsed)
    ensures r.Ok? ==> Size(r.value.1) <= Size(ts)
    decreases Size(ts), 8
  {
    if Kind(ts) == LPAREN then ParseFunctionCall(Upper(name), Rest(ts)) else ParseColumn(name, ts)
  }

  /** A scalar subquery is refused. */
  function ParseParens(ts: Tokens): (r: Parsed)
    ensures r.Ok? ==> Size(r.value.1) <= Size(ts)
    decreases Size(ts), 6
  {
    if Kind(ts) == KW_SELECT then Err
    else
      var inner :- ParseExpr(0, ts);
      var end :- Expect(inner.1, RPAREN);
      Ok((inner.0, end))
  }

  function ParseColumn(name: string, ts: Tokens): (r: Parsed)
    ensures r.Ok? ==> Size(r.value.1) <= Size(ts)
  {
    if Kind(ts) != DOT then Ok((Column(name), ts))
    else
      var after := Rest(ts);
      if Kind(after) == OP_STAR then Ok((ColumnRef(None, Some(name), "*"), Rest(after)))
      else
        var at :- Expect(after, IDENT);
        if Kind(at) != DOT then Ok((ColumnRef(None, Some(name), after.head.lexeme), at))
        else
          var last := Rest(at);
          var end :- Expect(last, IDENT);
          Ok((ColumnRef(Some(name), Some(after.head.lexeme), last.head.lexeme), end))
  }

  function ParseFunctionCall(name: string, ts: Tokens): (r: Parsed)
    ensures r.Ok? ==> Size(r.value.1) <= Size(ts)
    decreases Size(ts), 7
  {
    var distinct := Kind(ts) == KW_DISTINCT;
    var at := if distinct then Rest(ts) else ts;
    var star := Kind(at) == OP_STAR;
    var args :-
      if star then Ok(([], Rest(at)))
      else if Kind(at) == RPAREN then Ok(([], at))
      else ParseList(at);
    var end :- Expect(args.1, RPAREN);
    Ok((FunctionCall(name, args.0, distinct, star), end))
  }

  function ParseCase(ts: Tokens): (r: Parsed)
    ensures r.Ok? ==> Size(r.value.1) <= Size(ts)
    decreases Size(ts), 7
  {
    var subject :- ParseSubject(ts);
    var whens :- ParseWhens(subject.1);
    if whens.0 == [] then Err
    else
      var els :- ParseElse(whens.1);
      var end :- Expect(els.1, KW_END);
      Ok((Case(subject.0, whens.0, els.0), end))
  }

  function ParseSubject(ts: Tokens): (r: Result<(Option<Expr>, Tokens)>)
    ensures r.Ok? ==> Size(r.value.1) <= Size(ts)
    decreases Size(ts), 6
  {
    if Kind(ts) == KW_WHEN then Ok((None, ts))
    else
      var e :- ParseExpr(0, ts);
      Ok((Some(e.0), e.1))
  }

  function ParseElse(ts: Tokens): (r: Result<(Option<Expr>, Tokens)>)
    ensures r.Ok? ==> Size(r.value.1) <= Size(ts)
    decreases Size(ts), 6
  {
    if Kind(ts) != KW_ELSE then Ok((None, ts))
    else
      var e :- ParseExpr(0, Rest(ts));
      Ok((Some(e.0), e.1))
  }

  function ParseWhens(ts: Tokens): (r: Result<(seq<CaseWhen>, Tokens)>)
    ensures r.Ok? ==> Size(r.value.1) <= Size(ts)
    decreases Size(ts), 6
  {
    if Kind(ts) != KW_WHEN then Ok(([], ts))
    else
      var w :- ParseWhen(Rest(ts));
      var more :- ParseWhens(w.1);
      Ok(([w.0] + more.0, more.1))
  }

  function ParseWhen(ts: Tokens): (r: Result<(CaseWhen, Tokens)>)
    ensures r.Ok? ==> Size(r.value.1) <= Size(ts)
    decreases Size(ts), 6
  {
    var condition :- ParseExpr(0, ts);
    var at :- Expect(condition.1, KW_THEN);
    var result :- ParseExpr(0, at);
    Ok((CaseWhen(condition.0, result.0), result.1))
  }

  /** parseExpression. */
  function ParseExpression(ts: Tokens): Parsed {
    ParseExpr(0, ts)
  }
}
