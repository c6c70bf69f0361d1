/**
 A printer that puts in parentheses what would otherwise be read differently, and the proof that the parser reads every
 printed expression back. Printing goes in front of the tokens that follow.
 */
module Printer {
  import opened Results
  import opened Seqs
  import opened Types
  import opened Ast
  import opened Parser

  // ---- Tokens ----

  /** A keyword or symbol in front. */
  function Put(k: TokenKind, rest: Tokens): Tokens {
    More(Token(k, "", Err), rest)
  }

  function PutName(name: string, rest: Tokens): Tokens {
    More(Token(IDENT, name, Err), rest)
  }

  function LiteralToken(v: Value): Token {
    match v
    case Null => Token(LIT_NULL, "", Err)
    case Bool(b) => Token(if b then LIT_TRUE else LIT_FALSE, "", Err)
    case Int(_, _) => Token(LIT_INTEGER, "", Ok(v))
    case Dbl(_) => Token(LIT_FLOAT, "", Ok(v))
    case Str(_) => Token(LIT_STRING, "", Ok(v))
  }

  function KindOfOp(op: BinaryOp): TokenKind {
    match op
    case ADD => OP_PLUS
    case SUB => OP_MINUS
    case MUL => OP_STAR
    case DIV => OP_SLASH
    case MOD => OP_PERCENT
    case POW => OP_CARET
    case EQ => OP_EQ
    case NEQ => OP_NEQ
    case LT => OP_LT
    case LTE => OP_LTE
    case GT => OP_GT
    case GTE => OP_GTE
    case AND => KW_AND
    case OR => KW_OR
    case CONCAT => OP_CONCAT
    case LIKE => KW_LIKE
    case ILIKE => KW_ILIKE
    case _ => ERROR
  }

  predicate Infix(op: BinaryOp) {
    op != JSON_ARROW && op != JSON_ARROW2
  }

  /** The precedence of an operator. */
  function Level(op: BinaryOp): int {
    Precedence(KindOfOp(op))
  }

  lemma OpRoundTrip(op: BinaryOp)
    requires Infix(op)
    ensures ToBinaryOp(KindOfOp(op)) == op && 1 <= Level(op) <= 8 && (KindOfOp(op) == OP_CARET <==> op == POW)
  {
  }

  // ---- Which expressions the grammar can produce ----

  predicate PrintableLiteral(v: Value) {
    match v
    case Int(w, i) => w == W64 && 0 <= i < 0x8000_0000_0000_0000
    case Dbl(r) => r >= 0.0
    case _ => true
  }

  predicate Printable(e: Expr)
    decreases e, 1
  {
    match e
    case Literal(v) => PrintableLiteral(v)
    case ColumnRef(s, t, c) => s.Some? ==> t.Some? && c != "*"
    case Unary(_, x) => Printable(x)
    case Binary(op, l, r) => Infix(op) && Printable(l) && Printable(r)
    case FunctionCall(name, args, _, star) => Upper(name) == name && (star ==> args == []) && AllPrintable(args)
    case Case(subject, whens, els) =>
      (subject.Some? ==> Printable(subject.value)) && whens != [] && WhensPrintable(whens) && (els.Some? ==> Printable(els.value))
    case In(x, values, _) => Printable(x) && AllPrintable(values)
    case Between(x, lo, hi, _) => Printable(x) && Printable(lo) && Printable(hi)
    case IsNull(x, _) => Printable(x)
  }

  predicate AllPrintable(es: seq<Expr>)
    decreases es, 0
  {
    es == [] || (Printable(es[0]) && AllPrintable(es[1..]))
  }

  predicate WhensPrintable(ws: seq<CaseWhen>)
    decreases ws, 0
  {
    ws == [] || (WhenPrintable(ws[0]) && WhensPrintable(ws[1..]))
  }

  predicate WhenPrintable(w: CaseWhen)
    decreases w, 0
  {
    Printable(w.condition) && Printable(w.result)
  }

  // ---- Printing ----

  // Levels above the binary operators: the subject of a postfix form, and the operand of a prefix sign.
  const POSTFIX: int := 9
  const SIGN: int := 10

  /**
   Does e need parentheses where operators below level k would not be taken in, and a token of power f follows?
   A NOT or a BETWEEN would take in a following operator of its operand's level.
   */
  predicate NeedsParens(e: Expr, k: int, f: int) {
    match e
    case Binary(op, _, _) => Level(op) < k
    case Unary(op, _) => op == NOT && f >= 3
    case Between(_, _, _, _) => k > POSTFIX || f >= 5
    case In(_, _, _) => k > POSTFIX
    case IsNull(_, _) => k > POSTFIX
    case _ => false
  }

  /** What an expression can start with. */
  predicate Starts(k: TokenKind) {
    IsLiteral(k) || k == IDENT || k == LPAREN || k == OP_STAR || k == KW_NOT || k == OP_MINUS || k == OP_PLUS || k == KW_CASE
  }

  function PrintTo(e: Expr, k: int, f: int, rest: Tokens): (r: Tokens)
    ensures Starts(Kind(r))
    decreases e, 1
  {
    if NeedsParens(e, k, f) then Put(LPAREN, Body(e, -1, Put(RPAREN, rest))) else Body(e, f, rest)
  }

  function LeftLevel(op: BinaryOp): int {
    if op == POW then POSTFIX else Level(op)
  }

  function Body(e: Expr, f: int, rest: Tokens): (r: Tokens)
    ensures Starts(Kind(r))
    decreases e, 0
  {
    match e
    case Literal(v) => More(LiteralToken(v), rest)
    case ColumnRef(s, t, c) => PrintColumn(s, t, c, rest)
    case Unary(op, x) =>
      if op == NOT then Put(KW_NOT, PrintTo(x, 3, f, rest))
      else Put(if op == NEGATE then OP_MINUS else OP_PLUS, PrintTo(x, SIGN, f, rest))
    case Binary(op, l, r) =>
      PrintTo(l, LeftLevel(op), Level(op), Put(KindOfOp(op), PrintTo(r, RightLevel(KindOfOp(op)), f, rest)))
    case FunctionCall(name, args, distinct, star) =>
      var inner := if star then Put(OP_STAR, Put(RPAREN, rest)) else PrintArgs(args, Put(RPAREN, rest));
      PutName(name, Put(LPAREN, if distinct then Put(KW_DISTINCT, inner) else inner))
    case Case(subject, whens, els) =>
      var afterWhens := if els.Some? then Put(KW_ELSE, PrintTo(els.value, 0, -1, Put(KW_END, rest))) else Put(KW_END, rest);
      var afterSubject := PrintWhens(whens, afterWhens);
      Put(KW_CASE, if subject.Some? then PrintTo(subject.value, 0, -1, afterSubject) else afterSubject)
    case In(x, values, negated) =>
      PrintTo(x, POSTFIX, POSTFIX, PutNot(negated, Put(KW_IN, Put(LPAREN, PrintList(values, Put(RPAREN, rest))))))
    case Between(x, lo, hi, negated) =>
      PrintTo(x, POSTFIX, POSTFIX, PutNot(negated, Put(KW_BETWEEN, PrintTo(lo, 5, 2, Put(KW_AND, PrintTo(hi, 5, f, rest))))))
    case IsNull(x, negated) =>
      PrintTo(x, POSTFIX, POSTFIX, Put(KW_IS, PutNot(negated, Put(LIT_NULL, rest))))
  }

  function PutNot(negated: bool, rest: Tokens): Tokens {
    if negated then Put(KW_NOT, rest) else rest
  }

  function PrintColumn(s: Option<string>, t: Option<string>, c: string, rest: Tokens): (r: Tokens)
    ensures Kind(r) == IDENT || Kind(r) == OP_STAR
  {
    if t.None? then if c == "*" then Put(OP_STAR, rest) else PutName(c, rest)
    else
      var column := if c == "*" && s.None? then Put(OP_STAR, rest) else PutName(c, rest);
      var qualified := PutName(t.value, Put(DOT, column));
      if s.None? then qualified else PutName(s.value, Put(DOT, qualified))
  }

  function PrintArgs(args: seq<Expr>, rest: Tokens): (r: Tokens)
    ensures if args == [] then r == rest else Starts(Kind(r)) && Kind(r) != OP_STAR
    decreases args, 2
  {
    if args == [] then rest
    else PrintFirstArg(args[0], if |args| == 1 then rest else Put(COMMA, PrintList(args[1..], rest)))
  }

  /** A leading star would be taken for the star of COUNT(*). */
  function PrintFirstArg(e: Expr, after: Tokens): (r: Tokens)
    ensures Starts(Kind(r)) && Kind(r) != OP_STAR
    decreases e, 2
  {
    var plain := PrintTo(e, 0, -1, after);
    if Kind(plain) == OP_STAR then Put(LPAREN, PrintTo(e, 0, -1, Put(RPAREN, after))) else plain
  }

  function PrintList(es: seq<Expr>, rest: Tokens): (r: Tokens)
    ensures if es == [] then r == rest else Starts(Kind(r))
    decreases es, 0
  {
    if es == [] then rest
    else PrintTo(es[0], 0, -1, if |es| == 1 then rest else Put(COMMA, PrintList(es[1..], rest)))
  }

  function PrintWhens(ws: seq<CaseWhen>, rest: Tokens): (r: Tokens)
    ensures if ws == [] then r == rest else Kind(r) == KW_WHEN
    decreases ws, 0
  {
    if ws == [] then rest else Put(KW_WHEN, PrintWhen(ws[0], PrintWhens(ws[1..], rest)))
  }

  function PrintWhen(w: CaseWhen, rest: Tokens): (r: Tokens)
    ensures Starts(Kind(r))
    decreases w, 0
  {
    PrintTo(w.condition, 0, -1, Put(KW_THEN, PrintTo(w.result, 0, -1, rest)))
  }

  function Print(e: Expr): Tokens {
    PrintTo(e, 0, -1, End)
  }

  // ---- What stops the parser ----

  /** The binding power of the tokens ahead: of a binary operator, of a postfix form, or none. */
  function Power(ts: Tokens): int {
    var k := Kind(ts);
    if k == KW_IS || k == KW_BETWEEN || k == KW_IN || (k == KW_NOT && NegatesPostfix(Peek(ts))) then POSTFIX else Precedence(k)
  }

  predicate Follows(rest: Tokens, f: int) {
    Power(rest) == f && Kind(rest) != LPAREN && Kind(rest) != DOT
  }

  /** Going on after `e` has been read: postfix forms, then the infix loop. */
  function GoOn(min: nat, e: Expr, ts: Tokens): Parsed {
    var p :- ParsePostfix(e, ts);
    ParseLoop(min, p.0, p.1)
  }

  lemma Stops(min: nat, e: Expr, ts: Tokens)
    requires Power(ts) < min <= POSTFIX
    ensures ParsePostfix(e, ts) == Ok((e, ts)) && GoOn(min, e, ts) == Ok((e, ts))
  {
  }

  lemma NoPostfix(e: Expr, ts: Tokens)
    requires Power(ts) != POSTFIX
    ensures ParsePostfix(e, ts) == Ok((e, ts))
  {
  }

  /** One turn of the loop. */
  lemma TakesIn(min: nat, l: Expr, op: BinaryOp, r: Expr, ts: Tokens, rest: Tokens)
    requires Infix(op) && Level(op) >= min && Kind(ts) == KindOfOp(op)
    requires ParseExpr(RightLevel(Kind(ts)), Rest(ts)) == Ok((r, rest))
    ensures GoOn(min, l, ts) == GoOn(min, Binary(op, l, r), rest)
  {
    OpRoundTrip(op);
    NoPostfix(l, ts);
  }

  /** An expression that starts with a complete prefix form. */
  lemma UnaryThenOn(min: nat, ts: Tokens, e: Expr, rest: Tokens)
    requires ParseUnary(ts) == Ok((e, rest))
    ensures ParseExpr(min, ts) == GoOn(min, e, rest)
  {
  }

  lemma PrefixRead(ts: Tokens, op: UnaryOp, x: Expr, rest: Tokens)
    requires Kind(ts) == match op case NOT => KW_NOT case NEGATE => OP_MINUS case PLUS => OP_PLUS
    requires (if op == NOT then ParseExpr(3, Rest(ts)) else ParseUnary(Rest(ts))) == Ok((x, rest))
    ensures ParseUnary(ts) == Ok((Unary(op, x), rest))
  {
  }

  lemma InnerRead(inner: Tokens, e: Expr, rest: Tokens)
    requires Kind(inner) != KW_SELECT && ParseExpr(0, inner) == Ok((e, Put(RPAREN, rest)))
    ensures ParseParens(inner) == Ok((e, rest))
  {
  }

  lemma ParensIsPrimary(inner: Tokens)
    ensures ParseUnary(Put(LPAREN, inner)) == ParseParens(inner)
  {
    assert ParseUnary(Put(LPAREN, inner)) == ParsePrimary(Put(LPAREN, inner));
  }

  lemma ParensClose(inner: Tokens, e: Expr, rest: Tokens)
    requires Starts(Kind(inner)) && ParseExpr(0, inner) == GoOn(0, e, Put(RPAREN, rest))
    ensures ParseUnary(Put(LPAREN, inner)) == Ok((e, rest))
  {
    Stops(0, e, Put(RPAREN, rest));
    InnerRead(inner, e, rest);
    ParensIsPrimary(inner);
  }

  /** A postfix form read after x is a postfix form read. */
  lemma PostfixThenOn(min: nat, x: Expr, ts: Tokens, e: Expr, rest: Tokens)
    requires ParsePostfix(x, ts) == ParsePostfix(e, rest)
    ensures GoOn(min, x, ts) == GoOn(min, e, rest)
  {
  }

  lemma ListEnds(ts: Tokens, e: Expr, rest: Tokens)
    requires ParseExpr(0, ts) == Ok((e, rest)) && Kind(rest) != COMMA
    ensures ParseList(ts) == Ok(([e], rest))
  {
  }

  lemma ListContinues(ts: Tokens, e: Expr, more: Tokens, es: seq<Expr>, rest: Tokens)
    requires ParseExpr(0, ts) == Ok((e, Put(COMMA, more))) && ParseList(more) == Ok((es, rest))
    ensures ParseList(ts) == Ok(([e] + es, rest))
  {
  }

  // ---- Reading back what was printed ----

  /** A token of power f lets an operand of level k end; at the level of `^`, whose right operand takes in more, it must be lower. */
  predicate Ends(k: int, f: int) {
    f < k || (f == k && f != 8)
  }

  predicate PrefixForm(e: Expr) {
    e.Literal? || e.ColumnRef? || e.FunctionCall? || e.Case? || e.Unary?
  }

  lemma {:induction false} ReadsBack(e: Expr, k: int, f: int, min: nat, rest: Tokens)
    requires Printable(e) && min <= k <= POSTFIX && Ends(k, f) && Follows(rest, f)
    ensures ParseExpr(min, PrintTo(e, k, f, rest)) == GoOn(min, e, rest)
    decreases e, 4
  {
    if NeedsParens(e, k, f) {
      ReadsParens(e, rest);
      UnaryThenOn(min, PrintTo(e, k, f, rest), e, rest);
    } else {
      BodyReadsBack(e, k, f, min, rest);
    }
  }

  /** An operand that ends where a token of lower power follows. */
  lemma {:induction false} OperandReadsBack(e: Expr, k: nat, f: int, rest: Tokens)
    requires Printable(e) && k <= POSTFIX && f < k && Follows(rest, f)
    ensures ParseExpr(k, PrintTo(e, k, f, rest)) == Ok((e, rest))
    decreases e, 5
  {
    ReadsBack(e, k, f, k, rest);
    Stops(k, e, rest);
  }

  lemma {:induction false} ReadsParens(e: Expr, rest: Tokens)
    requires Printable(e)
    ensures ParseUnary(Put(LPAREN, Body(e, -1, Put(RPAREN, rest)))) == Ok((e, rest))
    decreases e, 3
  {
    BodyReadsBack(e, 0, -1, 0, Put(RPAREN, rest));
    ParensClose(Body(e, -1, Put(RPAREN, rest)), e, rest);
  }

  lemma {:induction false} BodyReadsBack(e: Expr, k: int, f: int, min: nat, rest: Tokens)
    requires Printable(e) && min <= k <= POSTFIX && Ends(k, f) && Follows(rest, f) && !NeedsParens(e, k, f)
    ensures ParseExpr(min, Body(e, f, rest)) == GoOn(min, e, rest)
    decreases e, 2
  {
    if PrefixForm(e) {
      PrefixReadsBack(e, f, rest);
      UnaryThenOn(min, Body(e, f, rest), e, rest);
    } else if e.Binary? {
      BinaryReadsBack(e, k, f, min, rest);
    } else if e.IsNull? {
      IsNullReadsBack(e, f, min, rest);
    } else if e.Between? {
      BetweenReadsBack(e, f, min, rest);
    } else {
      InReadsBack(e, f, min, rest);
    }
  }

  lemma {:induction false} BinaryReadsBack(e: Expr, k: int, f: int, min: nat, rest: Tokens)
    requires e.Binary? && Printable(e) && min <= k <= Level(e.op) && Ends(k, f) && Follows(rest, f)
    ensures ParseExpr(min, Body(e, f, rest)) == GoOn(min, e, rest)
    decreases e, 0
  {
    OpRoundTrip(e.op);
    var right := PrintTo(e.right, RightLevel(KindOfOp(e.op)), f, rest);
    var mid := Put(KindOfOp(e.op), right);
    ReadsBack(e.left, LeftLevel(e.op), Level(e.op), min, mid);
    OperandReadsBack(e.right, RightLevel(KindOfOp(e.op)), f, rest);
    TakesIn(min, e.left, e.op, e.right, mid, rest);
  }

  lemma {:induction false} IsNullReadsBack(e: Expr, f: int, min: nat, rest: Tokens)
    requires e.IsNull? && Printable(e) && min <= POSTFIX && Follows(rest, f)
    ensures ParseExpr(min, Body(e, f, rest)) == GoOn(min, e, rest)
    decreases e, 0
  {
    var mid := Put(KW_IS, PutNot(e.negated, Put(LIT_NULL, rest)));
    ReadsBack(e.expr, POSTFIX, POSTFIX, min, mid);
    IsTaken(e.expr, e.negated, rest);
    PostfixThenOn(min, e.expr, mid, IsNull(e.expr, e.negated), rest);
  }

  lemma IsForm(x: Expr, ts: Tokens)
    ensures ParsePostfix(x, Put(KW_IS, ts)) == ParseIs(x, ts)
  {
  }

  lemma IsRead(x: Expr, negated: bool, rest: Tokens)
    ensures ParseIs(x, PutNot(negated, Put(LIT_NULL, rest))) == ParsePostfix(IsNull(x, negated), rest)
  {
  }

  lemma IsTaken(x: Expr, negated: bool, rest: Tokens)
    ensures ParsePostfix(x, Put(KW_IS, PutNot(negated, Put(LIT_NULL, rest)))) == ParsePostfix(IsNull(x, negated), rest)
  {
    var inner := PutNot(negated, Put(LIT_NULL, rest));
    IsForm(x, inner);
    IsRead(x, negated, rest);
  }

  lemma {:induction false} BetweenReadsBack(e: Expr, f: int, min: nat, rest: Tokens)
    requires e.Between? && Printable(e) && min <= POSTFIX && f < 5 && Follows(rest, f)
    ensures ParseExpr(min, Body(e, f, rest)) == GoOn(min, e, rest)
    decreases e, 0
  {
    var high := PrintTo(e.high, 5, f, rest);
    var low := PrintTo(e.low, 5, 2, Put(KW_AND, high));
    var mid := PutNot(e.negated, Put(KW_BETWEEN, low));
    BetweenFollows(e.negated, low);
    ReadsBack(e.expr, POSTFIX, POSTFIX, min, mid);
    OperandReadsBack(e.low, 5, 2, Put(KW_AND, high));
    OperandReadsBack(e.high, 5, f, rest);
    BetweenTaken(e.expr, e.low, e.high, e.negated, low, high, rest);
    PostfixThenOn(min, e.expr, mid, Between(e.expr, e.low, e.high, e.negated), rest);
  }

  lemma BetweenFollows(negated: bool, low: Tokens)
    ensures Follows(PutNot(negated, Put(KW_BETWEEN, low)), POSTFIX)
    ensures forall high :: Follows(Put(KW_AND, high), 2)
  {
  }

  lemma NegatableTaken(x: Expr, negated: bool, ts: Tokens)
    requires Kind(ts) == KW_BETWEEN || Kind(ts) == KW_IN
    ensures ParsePostfix(x, PutNot(negated, ts)) == ParseNegatable(x, negated, ts)
  {
  }

  lemma BetweenTaken(x: Expr, lo: Expr, hi: Expr, negated: bool, low: Tokens, high: Tokens, rest: Tokens)
    requires ParseExpr(5, low) == Ok((lo, Put(KW_AND, high))) && ParseExpr(5, high) == Ok((hi, rest))
    ensures ParsePostfix(x, PutNot(negated, Put(KW_BETWEEN, low))) == ParsePostfix(Between(x, lo, hi, negated), rest)
  {
    NegatableTaken(x, negated, Put(KW_BETWEEN, low));
    assert ParseNegatable(x, negated, Put(KW_BETWEEN, low)) == ParseBetween(x, negated, low);
  }

  lemma {:induction false} InReadsBack(e: Expr, f: int, min: nat, rest: Tokens)
    requires e.In? && Printable(e) && min <= POSTFIX && Follows(rest, f)
    ensures ParseExpr(min, Body(e, f, rest)) == GoOn(min, e, rest)
    decreases e, 0
  {
    var list := PrintList(e.values, Put(RPAREN, rest));
    var mid := PutNot(e.negated, Put(KW_IN, Put(LPAREN, list)));
    ReadsBack(e.expr, POSTFIX, POSTFIX, min, mid);
    InListReadsBack(e.values, rest);
    InTaken(e.expr, e.values, e.negated, list, rest);
    PostfixThenOn(min, e.expr, mid, In(e.expr, e.values, e.negated), rest);
  }

  /** `list` is what stands between the parentheses of IN, and the closing one. */
  predicate InList(values: seq<Expr>, list: Tokens, rest: Tokens) {
    Kind(list) != KW_SELECT
    && if values == [] then list == Put(RPAREN, rest) else Kind(list) != RPAREN && ParseList(list) == Ok((values, Put(RPAREN, rest)))
  }

  lemma {:induction false} InListReadsBack(values: seq<Expr>, rest: Tokens)
    requires AllPrintable(values)
    ensures InList(values, PrintList(values, Put(RPAREN, rest)), rest)
    decreases values, 1
  {
    if values != [] {
      ListReadsBack(values, Put(RPAREN, rest));
    }
  }

  lemma InTaken(x: Expr, values: seq<Expr>, negated: bool, list: Tokens, rest: Tokens)
    requires InList(values, list, rest)
    ensures ParsePostfix(x, PutNot(negated, Put(KW_IN, Put(LPAREN, list)))) == ParsePostfix(In(x, values, negated), rest)
  {
    var open := Put(LPAREN, list);
    NegatableTaken(x, negated, Put(KW_IN, open));
    assert ParseNegatable(x, negated, Put(KW_IN, open)) == ParseIn(x, negated, open);
  }

  lemma {:induction false} ListReadsBack(es: seq<Expr>, rest: Tokens)
    requires es != [] && AllPrintable(es) && Follows(rest, -1) && Kind(rest) != COMMA
    ensures ParseList(PrintList(es, rest)) == Ok((es, rest))
    decreases es, 0
  {
    SplitFirst(es);
    if |es| == 1 {
      OneReadsBack(es[0], rest);
      ListEnds(PrintList(es, rest), es[0], rest);
    } else {
      var more := PrintList(es[1..], rest);
      OneReadsBack(es[0], Put(COMMA, more));
      ListReadsBack(es[1..], rest);
      ListContinues(PrintList(es, rest), es[0], more, es[1..], rest);
    }
  }

  /** A whole expression before a closing token. */
  lemma {:induction false} OneReadsBack(e: Expr, rest: Tokens)
    requires Printable(e) && Follows(rest, -1)
    ensures ParseExpr(0, PrintTo(e, 0, -1, rest)) == Ok((e, rest))
    decreases e, 6
  {
    OperandReadsBack(e, 0, -1, rest);
  }

  lemma {:induction false} PrefixReadsBack(e: Expr, f: int, rest: Tokens)
    requires PrefixForm(e) && Printable(e) && (e.Unary? && e.uop == NOT ==> f < 3) && f <= POSTFIX && Follows(rest, f)
    ensures ParseUnary(Body(e, f, rest)) == Ok((e, rest))
    decreases e, 1
  {
    match e
    case Literal(v) => LiteralReadsBack(v, rest);
    case ColumnRef(s, t, c) => ColumnReadsBack(s, t, c, rest);
    case FunctionCall(_, _, _, _) => FunctionReadsBack(e, f, rest);
    case Case(_, _, _) => CaseReadsBack(e, f, rest);
    case Unary(op, x) =>
      if op == NOT {
        OperandReadsBack(x, 3, f, rest);
      } else {
        SignedReadsBack(x, f, rest);
      }
      PrefixRead(Body(e, f, rest), op, x, rest);
  }

  /** The operand of a prefix sign: everything but a prefix form is in parentheses. */
  lemma {:induction false} SignedReadsBack(x: Expr, f: int, rest: Tokens)
    requires Printable(x) && f <= POSTFIX && Follows(rest, f)
    ensures ParseUnary(PrintTo(x, SIGN, f, rest)) == Ok((x, rest))
    decreases x, 4
  {
    if NeedsParens(x, SIGN, f) {
      ReadsParens(x, rest);
    } else {
      if x.Binary? { OpRoundTrip(x.op); }
      PrefixReadsBack(x, f, rest);
    }
  }

  lemma LiteralReadsBack(v: Value, rest: Tokens)
    ensures ParseUnary(More(LiteralToken(v), rest)) == Ok((Literal(v), rest))
  {
    var ts := More(LiteralToken(v), rest);
    assert ParseUnary(ts) == ParsePrimary(ts);
  }

  lemma ColumnReadsBack(s: Option<string>, t: Option<string>, c: string, rest: Tokens)
    requires (s.Some? ==> t.Some? && c != "*") && Kind(rest) != LPAREN && Kind(rest) != DOT
    ensures ParseUnary(PrintColumn(s, t, c, rest)) == Ok((ColumnRef(s, t, c), rest))
  {
    var ts := PrintColumn(s, t, c, rest);
    assert ParseUnary(ts) == ParsePrimary(ts);
    if Kind(ts) == IDENT {
      assert ParsePrimary(ts) == ParseColumn(ts.head.lexeme, Rest(ts));
    }
  }

  lemma {:induction false} FunctionReadsBack(e: Expr, f: int, rest: Tokens)
    requires e.FunctionCall? && Printable(e)
    ensures ParseUnary(Body(e, f, rest)) == Ok((e, rest))
    decreases e, 0
  {
    var close := Put(RPAREN, rest);
    var inner := if e.star then Put(OP_STAR, close) else PrintArgs(e.args, close);
    if !e.star && e.args != [] {
      ArgsReadBack(e.args, close);
    }
    CallRead(e.name, e.args, e.distinct, e.star, inner, rest);
    CallIsPrimary(e.name, if e.distinct then Put(KW_DISTINCT, inner) else inner);
  }

  lemma CallIsPrimary(name: string, open: Tokens)
    requires Upper(name) == name
    ensures ParseUnary(PutName(name, Put(LPAREN, open))) == ParseFunctionCall(name, open)
  {
    var ts := PutName(name, Put(LPAREN, open));
    assert ParseUnary(ts) == ParsePrimary(ts) == ParseName(name, Put(LPAREN, open));
  }

  lemma CallRead(name: string, args: seq<Expr>, distinct: bool, star: bool, inner: Tokens, rest: Tokens)
    requires Kind(inner) != KW_DISTINCT && (star ==> args == [])
    requires star ==> inner == Put(OP_STAR, Put(RPAREN, rest))
    requires !star && args == [] ==> inner == Put(RPAREN, rest)
    requires !star && args != [] ==> Kind(inner) != OP_STAR && Kind(inner) != RPAREN && ParseList(inner) == Ok((args, Put(RPAREN, rest)))
    ensures ParseFunctionCall(name, if distinct then Put(KW_DISTINCT, inner) else inner) == Ok((FunctionCall(name, args, distinct, star), rest))
  {
  }

  lemma {:induction false} ArgsReadBack(args: seq<Expr>, rest: Tokens)
    requires args != [] && AllPrintable(args) && Follows(rest, -1) && Kind(rest) != COMMA
    ensures ParseList(PrintArgs(args, rest)) == Ok((args, rest))
    decreases args, 1
  {
    SplitFirst(args);
    if |args| == 1 {
      FirstArgReadsBack(args[0], rest);
      ListEnds(PrintArgs(args, rest), args[0], rest);
    } else {
      var more := PrintList(args[1..], rest);
      FirstArgReadsBack(args[0], Put(COMMA, more));
      ListReadsBack(args[1..], rest);
      ListContinues(PrintArgs(args, rest), args[0], more, args[1..], rest);
    }
  }

  lemma {:induction false} FirstArgReadsBack(e: Expr, after: Tokens)
    requires Printable(e) && Follows(after, -1)
    ensures ParseExpr(0, PrintFirstArg(e, after)) == Ok((e, after))
    decreases e, 8
  {
    if Kind(PrintTo(e, 0, -1, after)) == OP_STAR {
      StarredReadsBack(e, after);
    } else {
      OneReadsBack(e, after);
    }
  }

  lemma NoParensNeeded(e: Expr, rest: Tokens)
    requires Printable(e)
    ensures PrintTo(e, 0, -1, rest) == Body(e, -1, rest)
  {
    if e.Binary? { OpRoundTrip(e.op); }
  }

  lemma {:induction false} StarredReadsBack(e: Expr, rest: Tokens)
    requires Printable(e) && Follows(rest, -1)
    ensures ParseExpr(0, Put(LPAREN, PrintTo(e, 0, -1, Put(RPAREN, rest)))) == Ok((e, rest))
    decreases e, 7
  {
    ReadsParens(e, rest);
    NoParensNeeded(e, Put(RPAREN, rest));
    UnaryThenOn(0, Put(LPAREN, Body(e, -1, Put(RPAREN, rest))), e, rest);
    Stops(0, e, rest);
  }

  lemma {:induction false} CaseReadsBack(e: Expr, f: int, rest: Tokens)
    requires e.Case? && Printable(e)
    ensures ParseUnary(Body(e, f, rest)) == Ok((e, rest))
    decreases e, 0
  {
    var afterWhens := if e.els.Some? then Put(KW_ELSE, PrintTo(e.els.value, 0, -1, Put(KW_END, rest))) else Put(KW_END, rest);
    var afterSubject := PrintWhens(e.whens, afterWhens);
    var ts := if e.subject.Some? then PrintTo(e.subject.value, 0, -1, afterSubject) else afterSubject;
    SubjectReadsBack(e.subject, afterSubject);
    ElseReadsBack(e.els, rest);
    WhensReadBack(e.whens, afterWhens);
    CaseRead(e, ts, afterSubject, afterWhens, rest);
    CaseIsPrimary(ts);
  }

  lemma CaseIsPrimary(ts: Tokens)
    ensures ParseUnary(Put(KW_CASE, ts)) == ParseCase(ts)
  {
    assert ParseUnary(Put(KW_CASE, ts)) == ParsePrimary(Put(KW_CASE, ts));
  }

  lemma {:induction false} SubjectReadsBack(subject: Option<Expr>, rest: Tokens)
    requires (subject.Some? ==> Printable(subject.value)) && Kind(rest) == KW_WHEN
    ensures ParseSubject(if subject.Some? then PrintTo(subject.value, 0, -1, rest) else rest) == Ok((subject, rest))
    decreases subject, 0
  {
    if subject.Some? { OneReadsBack(subject.value, rest); }
  }

  lemma {:induction false} ElseReadsBack(els: Option<Expr>, rest: Tokens)
    requires els.Some? ==> Printable(els.value)
    ensures ParseElse(if els.Some? then Put(KW_ELSE, PrintTo(els.value, 0, -1, Put(KW_END, rest))) else Put(KW_END, rest)) == Ok((els, Put(KW_END, rest)))
    decreases els, 0
  {
    if els.Some? { OneReadsBack(els.value, Put(KW_END, rest)); }
  }

  lemma CaseRead(e: Expr, ts: Tokens, afterSubject: Tokens, afterWhens: Tokens, rest: Tokens)
    requires e.Case? && e.whens != []
    requires ParseSubject(ts) == Ok((e.subject, afterSubject))
    requires ParseWhens(afterSubject) == Ok((e.whens, afterWhens))
    requires ParseElse(afterWhens) == Ok((e.els, Put(KW_END, rest)))
    ensures ParseCase(ts) == Ok((e, rest))
  {
  }

  lemma {:induction false} WhensReadBack(ws: seq<CaseWhen>, rest: Tokens)
    requires WhensPrintable(ws) && (Kind(rest) == KW_ELSE || Kind(rest) == KW_END)
    ensures ParseWhens(PrintWhens(ws, rest)) == Ok((ws, rest))
    decreases ws, 0
  {
    if ws == [] {
      WhensEnd(rest);
    } else {
      var more := PrintWhens(ws[1..], rest);
      WhensReadBack(ws[1..], rest);
      WhenReadsBack(ws[0], more);
      SplitFirst(ws);
      WhensContinue(PrintWhen(ws[0], more), ws[0], more, ws[1..], rest);
    }
  }

  lemma WhensEnd(rest: Tokens)
    requires Kind(rest) != KW_WHEN
    ensures ParseWhens(rest) == Ok(([], rest))
  {
  }

  lemma WhensContinue(ts: Tokens, w: CaseWhen, more: Tokens, ws: seq<CaseWhen>, rest: Tokens)
    requires ParseWhen(ts) == Ok((w, more)) && ParseWhens(more) == Ok((ws, rest))
    ensures ParseWhens(Put(KW_WHEN, ts)) == Ok(([w] + ws, rest))
  {
  }

  lemma WhenRead(ts: Tokens, w: CaseWhen, result: Tokens, rest: Tokens)
    requires ParseExpr(0, ts) == Ok((w.condition, Put(KW_THEN, result))) && ParseExpr(0, result) == Ok((w.result, rest))
    ensures ParseWhen(ts) == Ok((w, rest))
  {
  }

  lemma {:induction false} WhenReadsBack(w: CaseWhen, rest: Tokens)
    requires WhenPrintable(w) && Follows(rest, -1)
    ensures ParseWhen(PrintWhen(w, rest)) == Ok((w, rest))
    decreases w, 0
  {
    var result := PrintTo(w.result, 0, -1, rest);
    OneReadsBack(w.condition, Put(KW_THEN, result));
    OneReadsBack(w.result, rest);
    WhenRead(PrintTo(w.condition, 0, -1, Put(KW_THEN, result)), w, result, rest);
  }

  /** Printing any expression and parsing it gives back the same tree. */
  lemma RoundTrip(e: Expr)
    requires Printable(e)
    ensures ParseExpression(Print(e)) == Ok((e, End))
  {
    hide ParseExpr, PrintTo, Printable;
    OneReadsBack(e, End);
  }
}
