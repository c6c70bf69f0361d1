/** What the parser can produce, and where an expression ends. */
module Grammar {
  import opened Results
  import opened Types
  import opened Ast
  import opened Parser
  import opened Printer

  // ---- Token lists as the tokenizer makes them ----

  /** Literals carry a value of their kind; no name is a star. */
  predicate GenuineToken(t: Token) {
    match t.kind
    case LIT_INTEGER => t.value.Ok? ==> t.value.value.Int? && PrintableLiteral(t.value.value)
    case LIT_FLOAT => t.value.Ok? ==> t.value.value.Dbl? && PrintableLiteral(t.value.value)
    case LIT_STRING => t.value.Ok? ==> t.value.value.Str?
    case IDENT => t.lexeme != "*"
    case _ => true
  }

  predicate Genuine(ts: Tokens) {
    ts.End? || (GenuineToken(ts.head) && Genuine(ts.tail))
  }

  // ---- Everything parsed can be printed ----

  predicate Read(r: Parsed) {
    r.Ok? ==> Printable(r.value.0) && Genuine(r.value.1)
  }

  predicate AllRead(r: Result<(seq<Expr>, Tokens)>) {
    r.Ok? ==> AllPrintable(r.value.0) && Genuine(r.value.1)
  }

  predicate OptionRead(r: Result<(Option<Expr>, Tokens)>) {
    r.Ok? ==> (r.value.0.Some? ==> Printable(r.value.0.value)) && Genuine(r.value.1)
  }

  predicate WhensRead(r: Result<(seq<CaseWhen>, Tokens)>) {
    r.Ok? ==> WhensPrintable(r.value.0) && Genuine(r.value.1)
  }

  predicate WhenRead(r: Result<(CaseWhen, Tokens)>) {
    r.Ok? ==> WhenPrintable(r.value.0) && Genuine(r.value.1)
  }

  lemma {:induction false} ExprRead(min: nat, ts: Tokens)
    requires Genuine(ts)
    ensures Read(ParseExpr(min, ts))
    decreases Size(ts), 5
  {
    UnaryRead(ts);
    var u := ParseUnary(ts);
    if u.Ok? {
      PostfixRead(u.value.0, u.value.1);
      var p := ParsePostfix(u.value.0, u.value.1);
      if p.Ok? {
        LoopRead(min, p.value.0, p.value.1);
      }
    }
  }

  lemma OperatorIsInfix(k: TokenKind)
    ensures Infix(ToBinaryOp(k))
  {
  }

  lemma {:induction false} LoopRead(min: nat, left: Expr, ts: Tokens)
    requires Printable(left) && Genuine(ts)
    ensures Read(ParseLoop(min, left, ts))
    decreases Size(ts), 4
  {
    var k := Kind(ts);
    if Precedence(k) >= min {
      ExprRead(RightLevel(k), Rest(ts));
      var right := ParseExpr(RightLevel(k), Rest(ts));
      if right.Ok? {
        OperatorIsInfix(k);
        var e := Binary(ToBinaryOp(k), left, right.value.0);
        assert Printable(e);
        PostfixRead(e, right.value.1);
        var p := ParsePostfix(e, right.value.1);
        if p.Ok? {
          LoopRead(min, p.value.0, p.value.1);
        }
      }
    }
  }

  lemma {:induction false} UnaryRead(ts: Tokens)
    requires Genuine(ts)
    ensures Read(ParseUnary(ts))
    decreases Size(ts), 3
  {
    match Kind(ts)
    case KW_NOT => ExprRead(3, Rest(ts));
    case OP_MINUS => UnaryRead(Rest(ts));
    case OP_PLUS => UnaryRead(Rest(ts));
    case _ => PrimaryRead(ts);
  }

  lemma {:induction false} PostfixRead(left: Expr, ts: Tokens)
    requires Printable(left) && Genuine(ts)
    ensures Read(ParsePostfix(left, ts))
    decreases Size(ts), 3
  {
    if Kind(ts) == KW_IS {
      IsRead(left, Rest(ts));
    } else if Kind(ts) == KW_NOT && NegatesPostfix(Peek(ts)) {
      NegatableRead(left, true, Rest(ts));
    } else {
      NegatableRead(left, false, ts);
    }
  }

  lemma {:induction false} NegatableRead(left: Expr, negated: bool, ts: Tokens)
    requires Printable(left) && Genuine(ts) && (negated ==> NegatesPostfix(Kind(ts)))
    ensures Read(ParseNegatable(left, negated, ts))
    decreases Size(ts), 2
  {
    if Kind(ts) == KW_BETWEEN {
      BetweenRead(left, negated, Rest(ts));
    } else if Kind(ts) == KW_IN {
      InRead(left, negated, Rest(ts));
    } else if negated {
      OperatorIsInfix(Kind(ts));
      NotLikeRead(left, ToBinaryOp(Kind(ts)), Rest(ts));
    }
  }

  lemma {:induction false} IsRead(left: Expr, ts: Tokens)
    requires Printable(left) && Genuine(ts)
    ensures Read(ParseIs(left, ts))
    decreases Size(ts), 6
  {
    var negated := Kind(ts) == KW_NOT;
    var end := Expect(if negated then Rest(ts) else ts, LIT_NULL);
    if end.Ok? {
      assert Printable(IsNull(left, negated));
      PostfixRead(IsNull(left, negated), end.value);
    }
  }

  lemma {:induction false} BetweenRead(left: Expr, negated: bool, ts: Tokens)
    requires Printable(left) && Genuine(ts)
    ensures Read(ParseBetween(left, negated, ts))
    decreases Size(ts), 6
  {
    ExprRead(5, ts);
    var low := ParseExpr(5, ts);
    if low.Ok? && Kind(low.value.1) == KW_AND {
      var at := Rest(low.value.1);
      ExprRead(5, at);
      var high := ParseExpr(5, at);
      if high.Ok? {
        var e := Between(left, low.value.0, high.value.0, negated);
        assert Printable(e);
        PostfixRead(e, high.value.1);
      }
    }
  }

  lemma {:induction false} InRead(left: Expr, negated: bool, ts: Tokens)
    requires Printable(left) && Genuine(ts)
    ensures Read(ParseIn(left, negated, ts))
    decreases Size(ts), 6
  {
    if Kind(ts) == LPAREN && Kind(Rest(ts)) != KW_SELECT {
      var open := Rest(ts);
      if Kind(open) == RPAREN {
        assert Printable(In(left, [], negated));
        PostfixRead(In(left, [], negated), Rest(open));
      } else {
        ListRead(open);
        var list := ParseList(open);
        if list.Ok? && Kind(list.value.1) == RPAREN {
          assert Printable(In(left, list.value.0, negated));
          PostfixRead(In(left, list.value.0, negated), Rest(list.value.1));
        }
      }
    }
  }

  lemma {:induction false} NotLikeRead(left: Expr, op: BinaryOp, ts: Tokens)
    requires Printable(left) && Infix(op) && Genuine(ts)
    ensures Read(ParseNotLike(left, op, ts))
    decreases Size(ts), 6
  {
    hide ParsePostfix, ParseExpr, GenuineToken;
    ExprRead(5, ts);
    var right := ParseExpr(5, ts);
    if right.Ok? {
      var e := Binary(op, left, right.value.0);
      assert Printable(e);
      assert Printable(Unary(NOT, e));
      PostfixRead(Unary(NOT, e), right.value.1);
    }
  }

  lemma OnePrintable(e: Expr)
    requires Printable(e)
    ensures AllPrintable([e])
  {
    assert [e][1..] == [];
  }

  lemma {:induction false} ListRead(ts: Tokens)
    requires Genuine(ts)
    ensures AllRead(ParseList(ts))
    decreases Size(ts), 6
  {
    ExprRead(0, ts);
    var first := ParseExpr(0, ts);
    if first.Ok? {
      OnePrintable(first.value.0);
      if Kind(first.value.1) == COMMA {
        ListRead(Rest(first.value.1));
        var more := ParseList(Rest(first.value.1));
        if more.Ok? {
          assert ([first.value.0] + more.value.0)[1..] == more.value.0;
        }
      }
    }
  }

  lemma {:induction false} PrimaryRead(ts: Tokens)
    requires Genuine(ts)
    ensures Read(ParsePrimary(ts))
    decreases Size(ts), 2
  {
    hide ParseCase, ParseParens, ParseName, PrintableLiteral, LiteralValue;
    if IsLiteral(Kind(ts)) {
      LiteralRead(ts.head);
    } else if Kind(ts) == KW_CASE {
      CaseParsed(Rest(ts));
    } else if Kind(ts) == LPAREN {
      ParensRead(Rest(ts));
    } else if Kind(ts) == IDENT {
      NameRead(ts.head.lexeme, Rest(ts));
    }
  }

  lemma LiteralRead(t: Token)
    requires GenuineToken(t) && IsLiteral(t.kind)
    ensures LiteralValue(t).Ok? ==> PrintableLiteral(LiteralValue(t).value)
  {
  }

  lemma {:induction false} NameRead(name: string, ts: Tokens)
    requires Genuine(ts) && name != "*"
    ensures Read(ParseName(name, ts))
    decreases Size(ts), 8
  {
    if Kind(ts) == LPAREN {
      UpperTwice(name);
      CallRead(Upper(name), Rest(ts));
    } else {
      ColumnRead(name, ts);
    }
  }

  lemma {:induction false} UpperTwice(s: string)
    ensures Upper(Upper(s)) == Upper(s)
  {
  }

  lemma {:induction false} ParensRead(ts: Tokens)
    requires Genuine(ts)
    ensures Read(ParseParens(ts))
    decreases Size(ts), 6
  {
    ExprRead(0, ts);
  }

  lemma ColumnRead(name: string, ts: Tokens)
    requires Genuine(ts) && name != "*"
    ensures Read(ParseColumn(name, ts))
  {
    if Kind(ts) == DOT && Kind(Rest(ts)) == IDENT && Kind(Rest(Rest(ts))) == DOT {
      ThreePartsRead(name, ts);
    }
  }

  lemma ThreePartsRead(name: string, ts: Tokens)
    requires Genuine(ts) && Kind(ts) == DOT && Kind(Rest(ts)) == IDENT && Kind(Rest(Rest(ts))) == DOT
    ensures Read(ParseColumn(name, ts))
  {
    var last := Rest(Rest(Rest(ts)));
    assert Genuine(Rest(ts));
    assert Genuine(Rest(Rest(ts)));
    assert Genuine(last);
    if Kind(last) == IDENT {
      var e := ColumnRef(Some(name), Some(Rest(ts).head.lexeme), last.head.lexeme);
      assert ParseColumn(name, ts) == Ok((e, Rest(last)));
      assert Printable(e);
    }
  }

  lemma {:induction false} CallRead(name: string, ts: Tokens)
    requires Genuine(ts) && Upper(name) == name
    ensures Read(ParseFunctionCall(name, ts))
    decreases Size(ts), 7
  {
    assert AllPrintable([]);
    var at := if Kind(ts) == KW_DISTINCT then Rest(ts) else ts;
    assert Genuine(at);
    if Kind(at) == OP_STAR {
      assert Genuine(Rest(at));
    } else if Kind(at) != RPAREN {
      ListRead(at);
    }
  }

  lemma {:induction false} CaseParsed(ts: Tokens)
    requires Genuine(ts)
    ensures Read(ParseCase(ts))
    decreases Size(ts), 7
  {
    SubjectRead(ts);
    var subject := ParseSubject(ts);
    if subject.Ok? {
      CaseWhensRead(subject.value.1);
      var whens := ParseWhens(subject.value.1);
      if whens.Ok? {
        ElseRead(whens.value.1);
      }
    }
  }

  lemma {:induction false} SubjectRead(ts: Tokens)
    requires Genuine(ts)
    ensures OptionRead(ParseSubject(ts))
    decreases Size(ts), 6
  {
    if Kind(ts) != KW_WHEN { ExprRead(0, ts); }
  }

  lemma {:induction false} ElseRead(ts: Tokens)
    requires Genuine(ts)
    ensures OptionRead(ParseElse(ts))
    decreases Size(ts), 6
  {
    if Kind(ts) == KW_ELSE { ExprRead(0, Rest(ts)); }
  }

  lemma {:induction false} CaseWhensRead(ts: Tokens)
    requires Genuine(ts)
    ensures WhensRead(ParseWhens(ts))
    decreases Size(ts), 6
  {
    if Kind(ts) == KW_WHEN {
      CaseWhenRead(Rest(ts));
      var w := ParseWhen(Rest(ts));
      if w.Ok? {
        CaseWhensRead(w.value.1);
        var more := ParseWhens(w.value.1);
        if more.Ok? {
          assert ([w.value.0] + more.value.0)[1..] == more.value.0;
        }
      }
    }
  }

  lemma {:induction false} CaseWhenRead(ts: Tokens)
    requires Genuine(ts)
    ensures WhenRead(ParseWhen(ts))
    decreases Size(ts), 6
  {
    ExprRead(0, ts);
    var condition := ParseExpr(0, ts);
    if condition.Ok? && Kind(condition.value.1) == KW_THEN {
      ExprRead(0, Rest(condition.value.1));
    }
  }

  /** Printing what was parsed and parsing that gives the same tree: parentheses and spelling leave no trace. */
  lemma ParsePrintParse(ts: Tokens)
    requires Genuine(ts) && ParseExpression(ts).Ok?
    ensures Printable(ParseExpression(ts).value.0)
    ensures ParseExpression(Print(ParseExpression(ts).value.0)) == Ok((ParseExpression(ts).value.0, End))
  {
    ExprRead(0, ts);
    RoundTrip(ParseExpression(ts).value.0);
  }

  // ---- Where an expression ends ----

  /** No postfix form goes on here. */
  predicate PostfixOver(ts: Tokens) {
    Power(ts) != POSTFIX
  }

  predicate NothingMore(r: Parsed) {
    r.Ok? ==> PostfixOver(r.value.1)
  }

  lemma {:induction false} PostfixReadsAll(left: Expr, ts: Tokens)
    ensures NothingMore(ParsePostfix(left, ts))
    decreases Size(ts), 1
  {
    if Kind(ts) == KW_IS {
      var after := Rest(ts);
      var negated := Kind(after) == KW_NOT;
      var end := Expect(if negated then Rest(after) else after, LIT_NULL);
      if end.Ok? { PostfixReadsAll(IsNull(left, negated), end.value); }
    } else {
      var negated := Kind(ts) == KW_NOT && NegatesPostfix(Peek(ts));
      NegatableReadsAll(left, negated, ts, if negated then Rest(ts) else ts);
    }
  }

  lemma {:induction false} NegatableReadsAll(left: Expr, negated: bool, ts: Tokens, at: Tokens)
    requires Kind(ts) != KW_IS && negated == (Kind(ts) == KW_NOT && NegatesPostfix(Peek(ts))) && at == if negated then Rest(ts) else ts
    ensures NothingMore(ParseNegatable(left, negated, at))
    decreases Size(ts), 0
  {
    if Kind(at) == KW_BETWEEN {
      BetweenReadsAll(left, negated, Rest(at));
    } else if Kind(at) == KW_IN {
      InReadsAll(left, negated, Rest(at));
    } else if negated {
      NotLikeReadsAll(left, ToBinaryOp(Kind(at)), Rest(at));
    }
  }

  lemma {:induction false} BetweenReadsAll(left: Expr, negated: bool, ts: Tokens)
    ensures NothingMore(ParseBetween(left, negated, ts))
    decreases Size(ts), 2
  {
    var low := ParseExpr(5, ts);
    if low.Ok? && Kind(low.value.1) == KW_AND {
      var high := ParseExpr(5, Rest(low.value.1));
      if high.Ok? { PostfixReadsAll(Between(left, low.value.0, high.value.0, negated), high.value.1); }
    }
  }

  lemma {:induction false} InReadsAll(left: Expr, negated: bool, ts: Tokens)
    ensures NothingMore(ParseIn(left, negated, ts))
    decreases Size(ts), 2
  {
    if Kind(ts) == LPAREN && Kind(Rest(ts)) != KW_SELECT {
      var open := Rest(ts);
      var list := if Kind(open) == RPAREN then Ok(([], open)) else ParseList(open);
      if list.Ok? && Kind(list.value.1) == RPAREN { PostfixReadsAll(In(left, list.value.0, negated), Rest(list.value.1)); }
    }
  }

  lemma {:induction false} NotLikeReadsAll(left: Expr, op: BinaryOp, ts: Tokens)
    ensures NothingMore(ParseNotLike(left, op, ts))
    decreases Size(ts), 2
  {
    var right := ParseExpr(5, ts);
    if right.Ok? { PostfixReadsAll(Unary(NOT, Binary(op, left, right.value.0)), right.value.1); }
  }

  lemma {:induction false} LoopReadsAll(min: nat, left: Expr, ts: Tokens)
    requires PostfixOver(ts)
    ensures var r := ParseLoop(min, left, ts); r.Ok? ==> PostfixOver(r.value.1) && Precedence(Kind(r.value.1)) < min
    decreases Size(ts)
  {
    var k := Kind(ts);
    if Precedence(k) >= min {
      var right := ParseExpr(RightLevel(k), Rest(ts));
      if right.Ok? {
        var e := Binary(ToBinaryOp(k), left, right.value.0);
        PostfixReadsAll(e, right.value.1);
        var p := ParsePostfix(e, right.value.1);
        if p.Ok? { LoopReadsAll(min, p.value.0, p.value.1); }
      }
    }
  }

  /** An expression ends before a token that is no operator of its level and starts no postfix form. */
  lemma ExprReadsAll(min: nat, ts: Tokens)
    ensures var r := ParseExpr(min, ts); r.Ok? ==> PostfixOver(r.value.1) && Precedence(Kind(r.value.1)) < min
  {
    var u := ParseUnary(ts);
    if u.Ok? {
      PostfixReadsAll(u.value.0, u.value.1);
      var p := ParsePostfix(u.value.0, u.value.1);
      if p.Ok? { LoopReadsAll(min, p.value.0, p.value.1); }
    }
  }

  /** So the look for a postfix form after each infix operator never finds one. */
  lemma RecheckFindsNothing(min: nat, ts: Tokens, e: Expr)
    requires ParseExpr(min, ts).Ok?
    ensures ParsePostfix(e, ParseExpr(min, ts).value.1) == Ok((e, ParseExpr(min, ts).value.1))
  {
    ExprReadsAll(min, ts);
  }

  lemma NamePrinted(name: string, k: int, f: int, rest: Tokens)
    requires name != "*"
    ensures PrintTo(Column(name), k, f, rest) == PutName(name, rest)
  {
  }

  lemma NullTestPrinted(name: string, k: int)
    requires name != "*" && k <= POSTFIX
    ensures PrintTo(IsNull(Column(name), false), k, -1, End) == PutName(name, Put(KW_IS, Put(LIT_NULL, End)))
  {
    NamePrinted(name, POSTFIX, POSTFIX, Put(KW_IS, Put(LIT_NULL, End)));
    assert !NeedsParens(IsNull(Column(name), false), k, -1);
  }

  lemma InfixPrinted(op: BinaryOp, l: Expr, r: Expr)
    requires Infix(op)
    ensures Print(Binary(op, l, r)) == PrintTo(l, LeftLevel(op), Level(op), Put(KindOfOp(op), PrintTo(r, RightLevel(KindOfOp(op)), -1, End)))
  {
    OpRoundTrip(op);
    var e := Binary(op, l, r);
    assert !NeedsParens(e, 0, -1);
    assert Print(e) == PrintTo(e, 0, -1, End);
    assert PrintTo(e, 0, -1, End) == Body(e, -1, End);
  }

  /** A postfix form binds tighter than any infix operator: `a + b IS NULL` is `a + (b IS NULL)`. */
  lemma PostfixBindsTightest(op: BinaryOp, a: string, b: string)
    requires Infix(op) && a != "*" && b != "*"
    ensures ParseExpression(PutName(a, Put(KindOfOp(op), PutName(b, Put(KW_IS, Put(LIT_NULL, End))))))
         == Ok((Binary(op, Column(a), IsNull(Column(b), false)), End))
  {
    var test := IsNull(Column(b), false);
    OpRoundTrip(op);
    NullTestPrinted(b, RightLevel(KindOfOp(op)));
    NamePrinted(a, LeftLevel(op), Level(op), Put(KindOfOp(op), PutName(b, Put(KW_IS, Put(LIT_NULL, End)))));
    InfixPrinted(op, Column(a), test);
    assert Printable(Column(a)) && Printable(Column(b));
    assert Printable(test);
    assert Printable(Binary(op, Column(a), test));
    RoundTrip(Binary(op, Column(a), test));
  }
}
