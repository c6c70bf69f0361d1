/** The recursive-descent parser itself: a cursor over the token list. */
module ExpressionParser {
  import opened Results
  import opened Seqs
  import opened Types
  import opened Ast
  import opened Parser

  predicate Terminated(tokens: seq<Token>) {
    tokens != [] && tokens[|tokens| - 1].kind == END_OF_FILE
  }

  /** The tokens from position i to the next END_OF_FILE. */
  ghost function TokensFrom(tokens: seq<Token>, i: nat): Tokens
    requires Terminated(tokens) && i < |tokens|
    decreases |tokens| - i
  {
    if tokens[i].kind == END_OF_FILE then End else More(tokens[i], TokensFrom(tokens, i + 1))
  }

  class ExprParser {
    const tokens: seq<Token>
    var pos: nat

    /** The tokens from the cursor on. */
    ghost var rest: Tokens

    constructor (ts: seq<Token>)
      requires Terminated(ts)
      ensures tokens == ts && Valid() && rest == TokensFrom(ts, 0)
    {
      tokens, pos, rest := ts, 0, TokensFrom(ts, 0);
    }

    /** The cursor never passes an END_OF_FILE token. */
    ghost predicate Valid()
      reads this
    {
      Terminated(tokens) && pos < |tokens| && rest == TokensFrom(tokens, pos)
    }

    /** A method's result is what the specification reads off the tokens, and the cursor stands where it stops. */
    ghost predicate Answers<T>(r: Result<T>, spec: Result<(T, Tokens)>)
      reads this
    {
      match spec
      case Err => r.Err?
      case Ok(p) => r == Ok(p.0) && rest == p.1
    }

    // ---- The token cursor ----

    function Current(): (t: Token)
      reads this
      requires Valid()
      ensures t.kind == Kind(rest) && (rest.More? ==> t == rest.head)
    {
      tokens[pos]
    }

    function PeekKind(): (k: TokenKind)
      reads this
      requires Valid()
      ensures Current().kind != END_OF_FILE ==> k == Peek(rest)
    {
      assert pos + 1 < |tokens| ==> TokensFrom(tokens, pos + 1) == if tokens[pos + 1].kind == END_OF_FILE then End else More(tokens[pos + 1], TokensFrom(tokens, pos + 2));
      if pos + 1 < |tokens| then tokens[pos + 1].kind else tokens[|tokens| - 1].kind
    }

    method Advance() returns (t: Token)
      requires Valid()
      modifies this
      ensures Valid() && t == old(Current())
      ensures rest == if t.kind == END_OF_FILE then old(rest) else Parser.Rest(old(rest))
    {
      t := Current();
      if t.kind != END_OF_FILE {
        pos, rest := pos + 1, rest.tail;
      }
    }

    method Match(k: TokenKind) returns (ok: bool)
      requires Valid() && k != END_OF_FILE
      modifies this
      ensures Valid() && (ok <==> Kind(old(rest)) == k)
      ensures rest == if ok then Parser.Rest(old(rest)) else old(rest)
    {
      ok := Current().kind == k;
      if ok {
        var _ := Advance();
      }
    }

    // ---- Expressions ----

    method ParseExpression() returns (r: Result<Expr>)
      requires Valid()
      modifies this
      ensures Valid() && Answers(r, Parser.ParseExpression(old(rest)))
      decreases Size(rest), 6
    {
      r := Expression(0);
    }

    method Expression(min: nat) returns (r: Result<Expr>)
      requires Valid()
      modifies this
      ensures Valid() && Answers(r, ParseExpr(min, old(rest)))
      decreases Size(rest), 5
    {
      ghost var spec := ParseExpr(min, rest);
      var left := UnaryForm();
      if left.Err? { return Err; }
      left := PostfixForms(left.value);
      if left.Err? { return Err; }
      while Precedence(Current().kind) >= min
        invariant Valid() && left.Ok? && Size(rest) < Size(old(rest))
        invariant spec == ParseLoop(min, left.value, rest)
        decreases Size(rest)
      {
        LoopStep(min, left.value, rest);
        var k := Current().kind;
        var _ := Advance();
        var right := Expression(RightLevel(k));
        if right.Err? { return Err; }
        left := PostfixForms(Binary(ToBinaryOp(k), left.value, right.value));
        if left.Err? { return Err; }
      }
      LoopEnds(min, left.value, rest);
      r := left;
    }

    method UnaryForm() returns (r: Result<Expr>)
      requires Valid()
      modifies this
      ensures Valid() && Answers(r, ParseUnary(old(rest)))
      decreases Size(rest), 4
    {
      hide ParseExpr, ParsePrimary;
      var ok := Match(KW_NOT);
      if ok {
        var x := Expression(3);
        if x.Err? { return Err; }
        return Ok(Unary(NOT, x.value));
      }
      ok := Match(OP_MINUS);
      if ok {
        var x := UnaryForm();
        if x.Err? { return Err; }
        return Ok(Unary(NEGATE, x.value));
      }
      ok := Match(OP_PLUS);
      if ok {
        var x := UnaryForm();
        if x.Err? { return Err; }
        return Ok(Unary(PLUS, x.value));
      }
      r := Primary();
    }

    method PostfixForms(left: Expr) returns (r: Result<Expr>)
      requires Valid()
      modifies this
      ensures Valid() && Answers(r, ParsePostfix(left, old(rest)))
      decreases Size(rest), 4
    {
      var ok := Match(KW_IS);
      if ok {
        r := IsForm(left);
        return;
      }
      var negated := false;
      if Current().kind == KW_NOT && NegatesPostfix(PeekKind()) {
        var _ := Advance();
        negated := true;
      }
      r := NegatableForm(left, negated);
    }

    method NegatableForm(left: Expr, negated: bool) returns (r: Result<Expr>)
      requires Valid() && (negated ==> NegatesPostfix(Current().kind))
      modifies this
      ensures Valid() && Answers(r, ParseNegatable(left, negated, old(rest)))
      decreases Size(rest), 3
    {
      var ok := Match(KW_BETWEEN);
      if ok {
        r := BetweenForm(left, negated);
        return;
      }
      ok := Match(KW_IN);
      if ok {
        r := InForm(left, negated);
        return;
      }
      if negated {
        var k := Current().kind;
        var _ := Advance();
        r := NotLikeForm(left, ToBinaryOp(k));
        return;
      }
      r := Ok(left);
    }

    method IsForm(left: Expr) returns (r: Result<Expr>)
      requires Valid()
      modifies this
      ensures Valid() && Answers(r, ParseIs(left, old(rest)))
      decreases Size(rest), 6
    {
      var negated := Match(KW_NOT);
      var ok := Match(LIT_NULL);
      if !ok { return Err; }
      r := PostfixForms(IsNull(left, negated));
    }

    method NotLikeForm(left: Expr, op: BinaryOp) returns (r: Result<Expr>)
      requires Valid()
      modifies this
      ensures Valid() && Answers(r, ParseNotLike(left, op, old(rest)))
      decreases Size(rest), 6
    {
      var right := Expression(5);
      if right.Err? { return Err; }
      r := PostfixForms(Unary(NOT, Binary(op, left, right.value)));
    }

    method BetweenForm(left: Expr, negated: bool) returns (r: Result<Expr>)
      requires Valid()
      modifies this
      ensures Valid() && Answers(r, ParseBetween(left, negated, old(rest)))
      decreases Size(rest), 6
    {
      var low := Expression(5);
      if low.Err? { return Err; }
      var ok := Match(KW_AND);
      if !ok { return Err; }
      var high := Expression(5);
      if high.Err? { return Err; }
      r := PostfixForms(Between(left, low.value, high.value, negated));
    }

    method InForm(left: Expr, negated: bool) returns (r: Result<Expr>)
      requires Valid()
      modifies this
      ensures Valid() && Answers(r, ParseIn(left, negated, old(rest)))
      decreases Size(rest), 6
    {
      var ok := Match(LPAREN);
      if !ok || Current().kind == KW_SELECT { return Err; }
      var list: Result<seq<Expr>> := Ok([]);
      if Current().kind != RPAREN {
        list := ExpressionList();
      }
      if list.Err? { return Err; }
      ok := Match(RPAREN);
      if !ok { return Err; }
      r := PostfixForms(In(left, list.value, negated));
    }

    /** Expressions separated by commas, at least one. */
    method ExpressionList() returns (r: Result<seq<Expr>>)
      requires Valid()
      modifies this
      ensures Valid() && Answers(r, ParseList(old(rest)))
      decreases Size(rest), 6
    {
      var list: seq<Expr> := [];
      PrependNothing(ParseList(rest));
      while true
        invariant Valid() && Size(rest) <= Size(old(rest))
        invariant ParseList(old(rest)) == Prepend(list, ParseList(rest))
        decreases Size(rest)
      {
        ghost var here := rest;
        var e := Expression(0);
        if e.Err? { return Err; }
        ghost var before := list;
        list := list + [e.value];
        var more := Match(COMMA);
        if !more {
          return Ok(list);
        }
        PrependOneMore(before, e.value, ParseList(rest));
      }
    }

    method Primary() returns (r: Result<Expr>)
      requires Valid()
      modifies this
      ensures Valid() && Answers(r, ParsePrimary(old(rest)))
      decreases Size(rest), 3
    {
      var t := Current();
      if IsLiteral(t.kind) {
        r := LiteralForm();
        return;
      }
      match t.kind {
        case KW_CASE =>
          var _ := Advance();
          r := CaseForm();
        case LPAREN =>
          var _ := Advance();
          r := ParenthesizedForm();
        case OP_STAR =>
          var _ := Advance();
          r := Ok(Column("*"));
        case IDENT =>
          var _ := Advance();
          r := NameForm(t.lexeme);
        case _ => r := Err;
      }
    }

    method LiteralForm() returns (r: Result<Expr>)
      requires Valid() && IsLiteral(Kind(rest))
      modifies this
      ensures Valid() && Answers(r, ParsePrimary(old(rest)))
    {
      var v := LiteralValue(Current());
      if v.Err? { return Err; }
      var _ := Advance();
      r := Ok(Literal(v.value));
    }

    /** A function call or a column, after the name. */
    method NameForm(name: string) returns (r: Result<Expr>)
      requires Valid()
      modifies this
      ensures Valid() && Answers(r, ParseName(name, old(rest)))
      decreases Size(rest), 8
    {
      var open := Match(LPAREN);
      if open {
        r := FunctionForm(Upper(name));
      } else {
        r := ColumnForm(name);
      }
    }

    method ParenthesizedForm() returns (r: Result<Expr>)
      requires Valid()
      modifies this
      ensures Valid() && Answers(r, ParseParens(old(rest)))
      decreases Size(rest), 6
    {
      if Current().kind == KW_SELECT { return Err; }
      var inner := Expression(0);
      if inner.Err? { return Err; }
      var ok := Match(RPAREN);
      r := if ok then inner else Err;
    }

    method ColumnForm(name: string) returns (r: Result<Expr>)
      requires Valid()
      modifies this
      ensures Valid() && Answers(r, ParseColumn(name, old(rest)))
    {
      var dot := Match(DOT);
      if !dot { return Ok(Column(name)); }
      var star := Match(OP_STAR);
      if star { return Ok(ColumnRef(None, Some(name), "*")); }
      var second := Current().lexeme;
      var ok := Match(IDENT);
      if !ok { return Err; }
      dot := Match(DOT);
      if !dot { return Ok(ColumnRef(None, Some(name), second)); }
      var third := Current().lexeme;
      ok := Match(IDENT);
      if !ok { return Err; }
      r := Ok(ColumnRef(Some(name), Some(second), third));
    }

    method FunctionForm(name: string) returns (r: Result<Expr>)
      requires Valid()
      modifies this
      ensures Valid() && Answers(r, ParseFunctionCall(name, old(rest)))
      decreases Size(rest), 7
    {
      var distinct := Match(KW_DISTINCT);
      var star := Match(OP_STAR);
      var args: Result<seq<Expr>> := Ok([]);
      if !star && Current().kind != RPAREN {
        args := ExpressionList();
      }
      if args.Err? { return Err; }
      var ok := Match(RPAREN);
      if !ok { return Err; }
      r := Ok(FunctionCall(name, args.value, distinct, star));
    }

    method CaseForm() returns (r: Result<Expr>)
      requires Valid()
      modifies this
      ensures Valid() && Answers(r, ParseCase(old(rest)))
      decreases Size(rest), 7
    {
      var subject := Subject();
      if subject.Err? { return Err; }
      var whens := WhenClauses();
      if whens.Err? || whens.value == [] { return Err; }
      var els := ElseBranch();
      if els.Err? { return Err; }
      var ok := Match(KW_END);
      if !ok { return Err; }
      r := Ok(Case(subject.value, whens.value, els.value));
    }

    method Subject() returns (r: Result<Option<Expr>>)
      requires Valid()
      modifies this
      ensures Valid() && Answers(r, ParseSubject(old(rest)))
      decreases Size(rest), 6
    {
      if Current().kind == KW_WHEN { return Ok(None); }
      var e := Expression(0);
      r := if e.Ok? then Ok(Some(e.value)) else Err;
    }

    method ElseBranch() returns (r: Result<Option<Expr>>)
      requires Valid()
      modifies this
      ensures Valid() && Answers(r, ParseElse(old(rest)))
      decreases Size(rest), 6
    {
      var ok := Match(KW_ELSE);
      if !ok { return Ok(None); }
      var e := Expression(0);
      r := if e.Ok? then Ok(Some(e.value)) else Err;
    }

    method WhenClauses() returns (r: Result<seq<CaseWhen>>)
      requires Valid()
      modifies this
      ensures Valid() && Answers(r, ParseWhens(old(rest)))
      decreases Size(rest), 6
    {
      var whens: seq<CaseWhen> := [];
      PrependNothing(ParseWhens(rest));
      while true
        invariant Valid() && Size(rest) <= Size(old(rest))
        invariant ParseWhens(old(rest)) == Prepend(whens, ParseWhens(rest))
        decreases Size(rest)
      {
        var more := Match(KW_WHEN);
        if !more {
          PrependEnd(whens, rest);
          return Ok(whens);
        }
        var w := WhenForm();
        if w.Err? { return Err; }
        PrependOneMore(whens, w.value, ParseWhens(rest));
        whens := whens + [w.value];
      }
    }

    method WhenForm() returns (r: Result<CaseWhen>)
      requires Valid()
      modifies this
      ensures Valid() && Answers(r, ParseWhen(old(rest)))
      decreases Size(rest), 6
    {
      var condition := Expression(0);
      if condition.Err? { return Err; }
      var ok := Match(KW_THEN);
      if !ok { return Err; }
      var result := Expression(0);
      if result.Err? { return Err; }
      r := Ok(CaseWhen(condition.value, result.value));
    }
  }

  lemma PrependEnd<T>(list: seq<T>, ts: Tokens)
    ensures Prepend(list, Ok(([], ts))) == Ok((list, ts))
  {
    AddNothing(list);
  }

  /** One turn of the infix loop. */
  lemma LoopStep(min: nat, left: Expr, ts: Tokens)
    requires Precedence(Kind(ts)) >= min
    ensures ParseLoop(min, left, ts) ==
            match ParseExpr(RightLevel(Kind(ts)), Parser.Rest(ts))
            case Err => Err
            case Ok(right) =>
              match ParsePostfix(Binary(ToBinaryOp(Kind(ts)), left, right.0), right.1)
              case Err => Err
              case Ok(p) => ParseLoop(min, p.0, p.1)
  {
  }

  lemma LoopEnds(min: nat, left: Expr, ts: Tokens)
    requires Precedence(Kind(ts)) < min
    ensures ParseLoop(min, left, ts) == Ok((left, ts))
  {
  }

  /** A list with more elements in front. */
  ghost function Prepend<T>(list: seq<T>, r: Result<(seq<T>, Tokens)>): Result<(seq<T>, Tokens)> {
    match r
    case Err => Err
    case Ok(p) => Ok((list + p.0, p.1))
  }

  lemma PrependOneMore<T>(list: seq<T>, x: T, r: Result<(seq<T>, Tokens)>)
    ensures Prepend(list, Prepend([x], r)) == Prepend(list + [x], r)
  {
    if r.Ok? {
      Regroup(list, [x], r.value.0);
    }
  }

  lemma PrependNothing<T>(r: Result<(seq<T>, Tokens)>)
    ensures Prepend([], r) == r
  {
    if r.Ok? {
      AddNothing(r.value.0);
    }
  }
}
