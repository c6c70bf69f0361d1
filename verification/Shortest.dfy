/** The printer writes no parentheses in vain: no token list that parses to the same tree is shorter. */
module Shortest {
  import opened Results
  import opened Seqs
  import opened Types
  import opened Ast
  import opened Parser
  import opened Printer
  import opened Grammar

  // ---- The number of tokens printed ----

  function One(b: bool): nat {
    if b then 1 else 0
  }

  function CostTo(e: Expr, k: int, f: int): nat
    decreases e, 1
  {
    if NeedsParens(e, k, f) then 2 + Cost(e, -1) else Cost(e, f)
  }

  function Cost(e: Expr, f: int): nat
    decreases e, 0
  {
    match e
    case Literal(_) => 1
    case ColumnRef(s, t, _) => if t.None? then 1 else if s.None? then 3 else 5
    case Unary(op, x) => 1 + CostTo(x, if op == NOT then 3 else SIGN, f)
    case Binary(op, l, r) => CostTo(l, LeftLevel(op), Level(op)) + 1 + CostTo(r, RightLevel(KindOfOp(op)), f)
    case FunctionCall(_, args, distinct, star) => 3 + One(distinct) + if star then 1 else CostList(args)
    case Case(subject, whens, els) =>
      2 + (if subject.Some? then CostTo(subject.value, 0, -1) else 0) + CostWhens(whens) + (if els.Some? then 1 + CostTo(els.value, 0, -1) else 0)
    case In(x, values, negated) => CostTo(x, POSTFIX, POSTFIX) + One(negated) + 3 + CostList(values)
    case Between(x, lo, hi, negated) => CostTo(x, POSTFIX, POSTFIX) + One(negated) + 1 + CostTo(lo, 5, 2) + 1 + CostTo(hi, 5, f)
    case IsNull(x, negated) => CostTo(x, POSTFIX, POSTFIX) + One(negated) + 2
  }

  function CostList(es: seq<Expr>): nat
    decreases es, 0
  {
    if es == [] then 0 else CostTo(es[0], 0, -1) + (if |es| == 1 then 0 else 1 + CostList(es[1..]))
  }

  function CostWhens(ws: seq<CaseWhen>): nat
    decreases ws, 0
  {
    if ws == [] then 0 else 1 + CostWhen(ws[0]) + CostWhens(ws[1..])
  }

  function CostWhen(w: CaseWhen): nat
    decreases w, 0
  {
    CostTo(w.condition, 0, -1) + 1 + CostTo(w.result, 0, -1)
  }

  // ---- Parentheses cost two tokens, wherever they stand ----

  lemma {:induction false} FollowerCosts(e: Expr, k: int, f: int)
    ensures Cost(e, f) <= Cost(e, -1) + 2
    ensures CostTo(e, k, f) <= CostTo(e, k, -1) + 2
    decreases e
  {
    match e
    case Unary(op, x) => FollowerCosts(x, if op == NOT then 3 else SIGN, f);
    case Binary(op, _, r) => FollowerCosts(r, RightLevel(KindOfOp(op)), f);
    case Between(_, _, hi, _) => FollowerCosts(hi, 5, f);
    case _ =>
  }

  /** Wherever e stands, it costs no more than in parentheses. */
  lemma ParensSuffice(e: Expr, k: int, f: int)
    ensures CostTo(e, k, f) <= Cost(e, -1) + 2
  {
    FollowerCosts(e, k, f);
  }

  lemma BareCost(e: Expr)
    requires e.Binary? ==> Infix(e.op)
    ensures CostTo(e, 0, -1) == Cost(e, -1)
  {
    if e.Binary? { OpRoundTrip(e.op); }
  }

  // ---- What the parser reads costs at least what is printed ----

  /** No NOT stands directly before LIKE or ILIKE: that short form is a NOT of a LIKE to the parser, and printed as one. */
  predicate Plain(ts: Tokens) {
    ts.End? || (!(ts.head.kind == KW_NOT && (Kind(ts.tail) == KW_LIKE || Kind(ts.tail) == KW_ILIKE)) && Plain(ts.tail))
  }

  lemma PlainTails(ts: Tokens)
    requires Plain(ts) && ts.More?
    ensures Plain(ts.tail)
    ensures ts.tail.More? ==> Plain(ts.tail.tail)
    ensures ts.tail.More? && ts.tail.tail.More? ==> Plain(ts.tail.tail.tail)
    ensures ts.tail.More? && ts.tail.tail.More? && ts.tail.tail.tail.More? ==> Plain(ts.tail.tail.tail.tail)
  {
    if ts.tail.More? {
      assert Plain(ts.tail.tail);
      if ts.tail.tail.More? {
        assert Plain(ts.tail.tail.tail);
      }
    }
  }

  /** At every level up to `top`, with the power f ahead, n tokens are enough for e. */
  ghost predicate Enough(n: int, e: Expr, f: int, top: int) {
    (e.Binary? ==> Infix(e.op)) && forall k :: k <= top ==> CostTo(e, k, f) <= n
  }

  /** r is read from ts, and e costs no more than the tokens read. */
  ghost predicate Paid(ts: Tokens, r: Parsed, top: int) {
    r.Ok? ==> Plain(r.value.1) && Enough(Size(ts) - Size(r.value.1), r.value.0, Power(r.value.1), top)
  }

  /** A form that needs no parentheses wherever a prefix form may stand. */
  lemma PrefixMade(e: Expr, f: int, n: int)
    requires PrefixForm(e) && (e.Unary? && e.uop == NOT ==> f < 3) && Cost(e, f) <= n
    ensures Enough(n, e, f, SIGN)
  {
  }

  /** A postfix form needs none where a postfix form may stand. */
  lemma PostfixMade(e: Expr, f: int, n: int)
    requires (e.IsNull? || e.In? || (e.Between? && f < 5)) && Cost(e, f) <= n
    ensures Enough(n, e, f, POSTFIX)
  {
  }

  lemma UnaryMade(op: UnaryOp, x: Expr, f: int, n: int)
    requires CostTo(x, if op == NOT then 3 else SIGN, f) <= n && (op == NOT ==> f < 3)
    ensures Enough(n + 1, Unary(op, x), f, SIGN)
  {
    PrefixMade(Unary(op, x), f, n + 1);
  }

  lemma {:induction false} ExprCost(min: nat, ts: Tokens)
    requires Plain(ts) && min <= 8
    ensures Paid(ts, ParseExpr(min, ts), min)
    decreases Size(ts), 5
  {
    UnaryCost(ts);
    var u := ParseUnary(ts);
    if u.Ok? {
      PostfixCost(Size(ts) - Size(u.value.1), u.value.0, u.value.1);
      var p := ParsePostfix(u.value.0, u.value.1);
      PostfixReadsAll(u.value.0, u.value.1);
      if p.Ok? {
        LoopCost(min, Size(ts) - Size(p.value.1), p.value.0, p.value.1);
      }
    }
  }

  /** The level at which the expression before ts is printed if an operator of ts takes it in, or else min. */
  function OperandLevel(min: nat, ts: Tokens): int {
    var p := Precedence(Kind(ts));
    if p == 8 then POSTFIX else if p > min then p else min
  }

  lemma {:induction false} LoopCost(min: nat, n: int, left: Expr, ts: Tokens)
    requires Plain(ts) && PostfixOver(ts) && min <= 8 && Enough(n, left, Power(ts), OperandLevel(min, ts))
    ensures var r := ParseLoop(min, left, ts);
            r.Ok? ==> Plain(r.value.1) && Enough(n + Size(ts) - Size(r.value.1), r.value.0, Power(r.value.1), min)
    decreases Size(ts), 4
  {
    var k := Kind(ts);
    if Precedence(k) >= min {
      ExprCost(RightLevel(k), Rest(ts));
      var right := ParseExpr(RightLevel(k), Rest(ts));
      if right.Ok? {
        var e := Binary(ToBinaryOp(k), left, right.value.0);
        ExprReadsAll(RightLevel(k), Rest(ts));
        NoPostfix(e, right.value.1);
        BinaryCost(min, n, left, ts, right.value.0, right.value.1);
        LoopCost(min, n + Size(ts) - Size(right.value.1), e, right.value.1);
      }
    }
  }

  lemma OperatorBack(k: TokenKind)
    requires Precedence(k) >= 0
    ensures KindOfOp(ToBinaryOp(k)) == k && Infix(ToBinaryOp(k)) && Level(ToBinaryOp(k)) == Precedence(k)
    ensures 1 <= Precedence(k) <= 8 && (Precedence(k) == 8 <==> k == OP_CARET) && (ToBinaryOp(k) == POW <==> k == OP_CARET)
  {
  }

  /** An operator with both operands read. */
  lemma BinaryCost(min: nat, n: int, left: Expr, ts: Tokens, right: Expr, rest: Tokens)
    requires Precedence(Kind(ts)) >= min && PostfixOver(ts) && PostfixOver(rest) && Precedence(Kind(rest)) < RightLevel(Kind(ts))
    requires Enough(n, left, Power(ts), OperandLevel(min, ts))
    requires Enough(Size(ts) - 1 - Size(rest), right, Power(rest), RightLevel(Kind(ts)))
    ensures Enough(n + Size(ts) - Size(rest), Binary(ToBinaryOp(Kind(ts)), left, right), Power(rest), OperandLevel(min, rest))
  {
    var k := Kind(ts);
    OperatorBack(k);
    var op := ToBinaryOp(k);
    var e := Binary(op, left, right);
    assert CostTo(left, LeftLevel(op), Level(op)) <= n;
    assert CostTo(right, RightLevel(k), Power(rest)) <= Size(ts) - 1 - Size(rest);
    assert Cost(e, Power(rest)) <= n + Size(ts) - Size(rest);
    forall j | j <= OperandLevel(min, rest) ensures CostTo(e, j, Power(rest)) <= n + Size(ts) - Size(rest) {
      assert !NeedsParens(e, j, Power(rest));
    }
  }

  lemma {:induction false} UnaryCost(ts: Tokens)
    requires Plain(ts)
    ensures Paid(ts, ParseUnary(ts), SIGN)
    decreases Size(ts), 3
  {
    match Kind(ts)
    case KW_NOT => NotCost(ts);
    case OP_MINUS => SignCost(ts, NEGATE);
    case OP_PLUS => SignCost(ts, PLUS);
    case _ => PrimaryCost(ts);
  }

  lemma {:induction false} NotCost(ts: Tokens)
    requires Plain(ts) && Kind(ts) == KW_NOT
    ensures Paid(ts, ParseUnary(ts), SIGN)
    decreases Size(ts), 2
  {
    ExprCost(3, Rest(ts));
    ExprReadsAll(3, Rest(ts));
    var x := ParseExpr(3, Rest(ts));
    if x.Ok? {
      UnaryMade(NOT, x.value.0, Power(x.value.1), Size(ts) - 1 - Size(x.value.1));
    }
  }

  lemma {:induction false} SignCost(ts: Tokens, op: UnaryOp)
    requires Plain(ts) && Kind(ts) == (if op == NEGATE then OP_MINUS else OP_PLUS) && op != NOT
    ensures Paid(ts, ParseUnary(ts), SIGN)
    decreases Size(ts), 2
  {
    UnaryCost(Rest(ts));
    var x := ParseUnary(Rest(ts));
    if x.Ok? {
      UnaryMade(op, x.value.0, Power(x.value.1), Size(ts) - 1 - Size(x.value.1));
    }
  }

  lemma {:induction false} PostfixCost(n: int, left: Expr, ts: Tokens)
    requires Plain(ts) && Enough(n, left, Power(ts), POSTFIX)
    ensures var r := ParsePostfix(left, ts);
            r.Ok? ==> Plain(r.value.1) && Enough(n + Size(ts) - Size(r.value.1), r.value.0, Power(r.value.1), POSTFIX)
    decreases Size(ts), 3
  {
    if Kind(ts) == KW_IS {
      IsCost(n, left, ts);
    } else if Kind(ts) == KW_NOT && NegatesPostfix(Peek(ts)) {
      NegatableCost(n, left, true, ts, Rest(ts));
    } else {
      NegatableCost(n, left, false, ts, ts);
    }
  }

  lemma {:induction false} IsCost(n: int, left: Expr, ts: Tokens)
    requires Plain(ts) && Kind(ts) == KW_IS && Enough(n, left, POSTFIX, POSTFIX)
    ensures var r := ParseIs(left, Rest(ts));
            r.Ok? ==> Plain(r.value.1) && Enough(n + Size(ts) - Size(r.value.1), r.value.0, Power(r.value.1), POSTFIX)
    decreases Size(ts), 2
  {
    var negated := Kind(Rest(ts)) == KW_NOT;
    var end := Expect(if negated then Rest(Rest(ts)) else Rest(ts), LIT_NULL);
    if end.Ok? {
      var m := Size(ts) - Size(end.value);
      PlainTails(ts);
      IsMade(n, left, negated, m, Power(end.value));
      PostfixCost(n + m, IsNull(left, negated), end.value);
    }
  }

  lemma IsMade(n: int, x: Expr, negated: bool, m: int, f: int)
    requires Enough(n, x, POSTFIX, POSTFIX) && 2 + One(negated) <= m
    ensures Enough(n + m, IsNull(x, negated), f, POSTFIX)
  {
    PostfixMade(IsNull(x, negated), f, n + m);
  }

  lemma {:induction false} NegatableCost(n: int, left: Expr, negated: bool, ts: Tokens, at: Tokens)
    requires Plain(ts) && Kind(ts) != KW_IS && negated == (Kind(ts) == KW_NOT && NegatesPostfix(Peek(ts)))
    requires at == (if negated then Rest(ts) else ts) && Enough(n, left, Power(ts), POSTFIX)
    ensures var r := ParseNegatable(left, negated, at);
            r.Ok? ==> Plain(r.value.1) && Enough(n + Size(ts) - Size(r.value.1), r.value.0, Power(r.value.1), POSTFIX)
    decreases Size(ts), 1
  {
    if Kind(at) == KW_BETWEEN {
      BetweenCost(n + One(negated), left, negated, at);
    } else if Kind(at) == KW_IN {
      InCost(n + One(negated), left, negated, at);
    }
  }

  /** n tokens have been read for the subject and for NOT. */
  lemma {:induction false} BetweenCost(n: int, left: Expr, negated: bool, at: Tokens)
    requires Plain(at) && Kind(at) == KW_BETWEEN && Enough(n - One(negated), left, POSTFIX, POSTFIX)
    ensures var r := ParseBetween(left, negated, Rest(at));
            r.Ok? ==> Plain(r.value.1) && Enough(n + Size(at) - Size(r.value.1), r.value.0, Power(r.value.1), POSTFIX)
    decreases Size(at), 0
  {
    ExprCost(5, Rest(at));
    var low := ParseExpr(5, Rest(at));
    if low.Ok? && Kind(low.value.1) == KW_AND {
      var after := Rest(low.value.1);
      ExprCost(5, after);
      ExprReadsAll(5, after);
      var high := ParseExpr(5, after);
      if high.Ok? {
        BetweenMade(n, left, low.value.0, high.value.0, negated, Size(at) - Size(high.value.1), Power(high.value.1));
        NoPostfix(Between(left, low.value.0, high.value.0, negated), high.value.1);
      }
    }
  }

  lemma BetweenMade(n: int, x: Expr, lo: Expr, hi: Expr, negated: bool, m: int, f: int)
    requires Enough(n - One(negated), x, POSTFIX, POSTFIX) && f < 5 && 2 + CostTo(lo, 5, 2) + CostTo(hi, 5, f) <= m
    ensures Enough(n + m, Between(x, lo, hi, negated), f, POSTFIX)
  {
    PostfixMade(Between(x, lo, hi, negated), f, n + m);
  }

  lemma {:induction false} InCost(n: int, left: Expr, negated: bool, at: Tokens)
    requires Plain(at) && Kind(at) == KW_IN && Enough(n - One(negated), left, POSTFIX, POSTFIX)
    ensures var r := ParseIn(left, negated, Rest(at));
            r.Ok? ==> Plain(r.value.1) && Enough(n + Size(at) - Size(r.value.1), r.value.0, Power(r.value.1), POSTFIX)
    decreases Size(at), 0
  {
    PlainTails(at);
    var ts := Rest(at);
    if Kind(ts) == LPAREN && Kind(Rest(ts)) != KW_SELECT {
      ValuesCost(Rest(ts));
      var list := ParseValues(Rest(ts));
      if list.Ok? && Kind(list.value.1) == RPAREN {
        var end := Rest(list.value.1);
        var e := In(left, list.value.0, negated);
        InMade(n, left, list.value.0, negated, Size(at) - Size(end), Power(end));
        PlainTails(list.value.1);
        PostfixCost(n + Size(at) - Size(end), e, end);
      }
    }
  }

  lemma InMade(n: int, x: Expr, values: seq<Expr>, negated: bool, m: int, f: int)
    requires Enough(n - One(negated), x, POSTFIX, POSTFIX) && CostList(values) + 3 <= m
    ensures Enough(n + m, In(x, values, negated), f, POSTFIX)
  {
    PostfixMade(In(x, values, negated), f, n + m);
  }

  /** A list that may be empty, up to the closing parenthesis. */
  function ParseValues(ts: Tokens): Result<(seq<Expr>, Tokens)> {
    if Kind(ts) == RPAREN then Ok(([], ts)) else ParseList(ts)
  }

  lemma {:induction false} ValuesCost(ts: Tokens)
    requires Plain(ts)
    ensures var r := ParseValues(ts); r.Ok? ==> Plain(r.value.1) && CostList(r.value.0) <= Size(ts) - Size(r.value.1)
    decreases Size(ts), 8
  {
    if Kind(ts) != RPAREN { ListCost(ts); }
  }

  lemma {:induction false} ListCost(ts: Tokens)
    requires Plain(ts)
    ensures var r := ParseList(ts); r.Ok? ==> Plain(r.value.1) && CostList(r.value.0) <= Size(ts) - Size(r.value.1)
    decreases Size(ts), 7
  {
    WholeCost(ts);
    var first := ParseExpr(0, ts);
    if first.Ok? && Kind(first.value.1) == COMMA {
      ListCost(Rest(first.value.1));
      var more := ParseList(Rest(first.value.1));
      if more.Ok? {
        assert ([first.value.0] + more.value.0)[1..] == more.value.0;
      }
    }
  }

  /** A whole expression costs no more with nothing behind it. */
  lemma {:induction false} WholeCost(ts: Tokens)
    requires Plain(ts)
    ensures var r := ParseExpr(0, ts); r.Ok? ==> Plain(r.value.1) && CostTo(r.value.0, 0, -1) <= Size(ts) - Size(r.value.1)
    decreases Size(ts), 6
  {
    ExprCost(0, ts);
    ExprReadsAll(0, ts);
  }

  lemma {:induction false} PrimaryCost(ts: Tokens)
    requires Plain(ts)
    ensures Paid(ts, ParsePrimary(ts), SIGN)
    decreases Size(ts), 2
  {
    if IsLiteral(Kind(ts)) {
    } else if Kind(ts) == KW_CASE {
      CaseCost(Rest(ts));
    } else if Kind(ts) == LPAREN {
      ParensCost(Rest(ts));
    } else if Kind(ts) == IDENT {
      NamedCost(ts.head.lexeme, Rest(ts));
    }
  }

  lemma {:induction false} ParensCost(ts: Tokens)
    requires Plain(ts)
    ensures var r := ParseParens(ts);
            r.Ok? ==> Plain(r.value.1) && Enough(Size(ts) + 1 - Size(r.value.1), r.value.0, Power(r.value.1), SIGN)
    decreases Size(ts), 6
  {
    ExprCost(0, ts);
    var inner := ParseExpr(0, ts);
    if inner.Ok? && Kind(inner.value.1) == RPAREN {
      var e, end := inner.value.0, Rest(inner.value.1);
      BareCost(e);
      assert CostTo(e, 0, -1) <= Size(ts) - Size(inner.value.1);
      forall k ensures CostTo(e, k, Power(end)) <= Size(ts) + 1 - Size(end) {
        ParensSuffice(e, k, Power(end));
      }
    }
  }

  lemma {:induction false} NamedCost(name: string, ts: Tokens)
    requires Plain(ts)
    ensures var r := ParseName(name, ts);
            r.Ok? ==> Plain(r.value.1) && Enough(Size(ts) + 1 - Size(r.value.1), r.value.0, Power(r.value.1), SIGN)
    decreases Size(ts), 8
  {
    if Kind(ts) == LPAREN {
      CallCost(Upper(name), Rest(ts));
    } else {
      ColumnCost(name, ts);
    }
  }

  lemma ColumnCost(name: string, ts: Tokens)
    requires Plain(ts)
    ensures var r := ParseColumn(name, ts);
            r.Ok? ==> Plain(r.value.1) && Enough(Size(ts) + 1 - Size(r.value.1), r.value.0, Power(r.value.1), SIGN)
  {
    var r := ParseColumn(name, ts);
    if r.Ok? {
      ColumnTokens(name, ts);
      PrefixMade(r.value.0, Power(r.value.1), Size(ts) + 1 - Size(r.value.1));
    }
  }

  lemma ColumnTokens(name: string, ts: Tokens)
    requires Plain(ts) && ParseColumn(name, ts).Ok?
    ensures var r := ParseColumn(name, ts).value; r.0.ColumnRef? && Plain(r.1) && (forall f :: Cost(r.0, f) == Size(ts) + 1 - Size(r.1))
  {
    if ts.More? { PlainTails(ts); }
  }

  lemma {:induction false} CallCost(name: string, ts: Tokens)
    requires Plain(ts)
    ensures var r := ParseFunctionCall(name, ts);
            r.Ok? ==> Plain(r.value.1) && Enough(Size(ts) + 2 - Size(r.value.1), r.value.0, Power(r.value.1), SIGN)
    decreases Size(ts), 9
  {
    var distinct := Kind(ts) == KW_DISTINCT;
    if distinct { PlainTails(ts); }
    var at := if distinct then Rest(ts) else ts;
    var star := Kind(at) == OP_STAR;
    if star { PlainTails(at); } else { ValuesCost(at); }
    var args := if star then Ok(([], Rest(at))) else ParseValues(at);
    if args.Ok? && Kind(args.value.1) == RPAREN {
      PlainTails(args.value.1);
      CallMade(name, args.value.0, distinct, star, Size(ts) + 2 - Size(Rest(args.value.1)), Power(Rest(args.value.1)));
    }
  }

  lemma CallMade(name: string, args: seq<Expr>, distinct: bool, star: bool, n: int, f: int)
    requires 3 + One(distinct) + (if star then 1 else CostList(args)) <= n
    ensures Enough(n, FunctionCall(name, args, distinct, star), f, SIGN)
  {
    PrefixMade(FunctionCall(name, args, distinct, star), f, n);
  }

  function OptionCost(e: Option<Expr>): nat {
    if e.Some? then CostTo(e.value, 0, -1) else 0
  }

  lemma {:induction false} SubjectCost(ts: Tokens)
    requires Plain(ts)
    ensures var r := ParseSubject(ts); r.Ok? ==> Plain(r.value.1) && OptionCost(r.value.0) <= Size(ts) - Size(r.value.1)
    decreases Size(ts), 7
  {
    if Kind(ts) != KW_WHEN { WholeCost(ts); }
  }

  lemma {:induction false} ElseCost(ts: Tokens)
    requires Plain(ts)
    ensures var r := ParseElse(ts);
            r.Ok? ==> Plain(r.value.1) && OptionCost(r.value.0) + One(r.value.0.Some?) <= Size(ts) - Size(r.value.1)
    decreases Size(ts), 7
  {
    if Kind(ts) == KW_ELSE { WholeCost(Rest(ts)); }
  }

  lemma CaseMade(e: Expr, f: int, n: int)
    requires e.Case? && 2 + OptionCost(e.subject) + CostWhens(e.whens) + OptionCost(e.els) + One(e.els.Some?) <= n
    ensures Enough(n, e, f, SIGN)
  {
    PrefixMade(e, f, n);
  }

  lemma {:induction false} CaseCost(ts: Tokens)
    requires Plain(ts)
    ensures var r := ParseCase(ts);
            r.Ok? ==> Plain(r.value.1) && Enough(Size(ts) + 1 - Size(r.value.1), r.value.0, Power(r.value.1), SIGN)
    decreases Size(ts), 8
  {
    SubjectCost(ts);
    var subject := ParseSubject(ts);
    if subject.Ok? {
      WhensCost(subject.value.1);
      var whens := ParseWhens(subject.value.1);
      if whens.Ok? {
        ElseCost(whens.value.1);
        var els := ParseElse(whens.value.1);
        if els.Ok? && Kind(els.value.1) == KW_END {
          var end := Rest(els.value.1);
          CaseMade(Case(subject.value.0, whens.value.0, els.value.0), Power(end), Size(ts) + 1 - Size(end));
        }
      }
    }
  }

  lemma {:induction false} WhensCost(ts: Tokens)
    requires Plain(ts)
    ensures var r := ParseWhens(ts); r.Ok? ==> Plain(r.value.1) && CostWhens(r.value.0) <= Size(ts) - Size(r.value.1)
    decreases Size(ts), 6
  {
    if Kind(ts) == KW_WHEN {
      WhenCost(Rest(ts));
      var w := ParseWhen(Rest(ts));
      if w.Ok? {
        WhensCost(w.value.1);
        var more := ParseWhens(w.value.1);
        if more.Ok? {
          assert ([w.value.0] + more.value.0)[1..] == more.value.0;
        }
      }
    }
  }

  lemma {:induction false} WhenCost(ts: Tokens)
    requires Plain(ts)
    ensures var r := ParseWhen(ts); r.Ok? ==> Plain(r.value.1) && CostWhen(r.value.0) <= Size(ts) - Size(r.value.1)
    decreases Size(ts), 7
  {
    WholeCost(ts);
    var condition := ParseExpr(0, ts);
    if condition.Ok? && Kind(condition.value.1) == KW_THEN {
      WholeCost(Rest(condition.value.1));
    }
  }

  // ---- What is printed ----

  /** No column that is a bare star: as a first argument it would be taken for the star of COUNT(*). */
  predicate Starless(e: Expr)
    decreases e, 1
  {
    match e
    case Literal(_) => true
    case ColumnRef(_, t, c) => t.Some? || c != "*"
    case Unary(_, x) => Starless(x)
    case Binary(_, l, r) => Starless(l) && Starless(r)
    case FunctionCall(_, args, _, _) => AllStarless(args)
    case Case(subject, whens, els) => (subject.Some? ==> Starless(subject.value)) && WhensStarless(whens) && (els.Some? ==> Starless(els.value))
    case In(x, values, _) => Starless(x) && AllStarless(values)
    case Between(x, lo, hi, _) => Starless(x) && Starless(lo) && Starless(hi)
    case IsNull(x, _) => Starless(x)
  }

  predicate AllStarless(es: seq<Expr>)
    decreases es, 0
  {
    es == [] || (Starless(es[0]) && AllStarless(es[1..]))
  }

  predicate WhensStarless(ws: seq<CaseWhen>)
    decreases ws, 0
  {
    ws == [] || (WhenStarless(ws[0]) && WhensStarless(ws[1..]))
  }

  predicate WhenStarless(w: CaseWhen)
    decreases w, 0
  {
    Starless(w.condition) && Starless(w.result)
  }

  lemma {:induction false} NoStarInFront(e: Expr, k: int, f: int, rest: Tokens)
    requires Starless(e)
    ensures Kind(PrintTo(e, k, f, rest)) != OP_STAR
    decreases e
  {
    if !NeedsParens(e, k, f) {
      match e
      case Binary(op, l, r) => NoStarInFront(l, LeftLevel(op), Level(op), Put(KindOfOp(op), PrintTo(r, RightLevel(KindOfOp(op)), f, rest)));
      case In(x, values, negated) => NoStarInFront(x, POSTFIX, POSTFIX, PutNot(negated, Put(KW_IN, Put(LPAREN, PrintList(values, Put(RPAREN, rest))))));
      case Between(x, lo, hi, negated) =>
        NoStarInFront(x, POSTFIX, POSTFIX, PutNot(negated, Put(KW_BETWEEN, PrintTo(lo, 5, 2, Put(KW_AND, PrintTo(hi, 5, f, rest))))));
      case IsNull(x, negated) => NoStarInFront(x, POSTFIX, POSTFIX, Put(KW_IS, PutNot(negated, Put(LIT_NULL, rest))));
      case _ =>
    }
  }

  lemma {:induction false} PrintSize(e: Expr, k: int, f: int, rest: Tokens)
    requires Starless(e)
    ensures Size(PrintTo(e, k, f, rest)) == CostTo(e, k, f) + Size(rest)
    decreases e, 2
  {
    if NeedsParens(e, k, f) {
      BodySize(e, -1, Put(RPAREN, rest));
    } else {
      BodySize(e, f, rest);
    }
  }

  lemma {:induction false} BodySize(e: Expr, f: int, rest: Tokens)
    requires Starless(e)
    ensures Size(Body(e, f, rest)) == Cost(e, f) + Size(rest)
    decreases e, 1
  {
    match e
    case Literal(_) =>
    case ColumnRef(s, t, c) => ColumnSize(s, t, c, rest);
    case Unary(op, x) => PrintSize(x, if op == NOT then 3 else SIGN, f, rest);
    case Binary(op, l, r) =>
      var right := PrintTo(r, RightLevel(KindOfOp(op)), f, rest);
      PrintSize(r, RightLevel(KindOfOp(op)), f, rest);
      PrintSize(l, LeftLevel(op), Level(op), Put(KindOfOp(op), right));
    case FunctionCall(_, _, _, _) => CallSize(e, f, rest);
    case Case(_, _, _) => CaseSize(e, f, rest);
    case In(_, _, _) => InSize(e, f, rest);
    case Between(x, lo, hi, negated) =>
      var high := Put(KW_AND, PrintTo(hi, 5, f, rest));
      PrintSize(hi, 5, f, rest);
      PrintSize(lo, 5, 2, high);
      NotSize(negated, Put(KW_BETWEEN, PrintTo(lo, 5, 2, high)));
      PrintSize(x, POSTFIX, POSTFIX, PutNot(negated, Put(KW_BETWEEN, PrintTo(lo, 5, 2, high))));
    case IsNull(x, negated) =>
      NotSize(negated, Put(LIT_NULL, rest));
      PrintSize(x, POSTFIX, POSTFIX, Put(KW_IS, PutNot(negated, Put(LIT_NULL, rest))));
  }

  lemma NotSize(negated: bool, rest: Tokens)
    ensures Size(PutNot(negated, rest)) == One(negated) + Size(rest)
  {
  }

  lemma {:induction false} InSize(e: Expr, f: int, rest: Tokens)
    requires e.In? && Starless(e)
    ensures Size(Body(e, f, rest)) == Cost(e, f) + Size(rest)
    decreases e, 0
  {
    var list := PrintList(e.values, Put(RPAREN, rest));
    var mid := Put(KW_IN, Put(LPAREN, list));
    ListSize(e.values, Put(RPAREN, rest));
    NotSize(e.negated, mid);
    assert Size(mid) == 2 + Size(list);
    PrintSize(e.expr, POSTFIX, POSTFIX, PutNot(e.negated, mid));
  }

  lemma {:induction false} CallSize(e: Expr, f: int, rest: Tokens)
    requires e.FunctionCall? && Starless(e)
    ensures Size(Body(e, f, rest)) == Cost(e, f) + Size(rest)
    decreases e, 0
  {
    var close := Put(RPAREN, rest);
    ArgsSize(e.args, close);
    var inner := if e.star then Put(OP_STAR, close) else PrintArgs(e.args, close);
    assert Size(inner) == (if e.star then 1 else CostList(e.args)) + 1 + Size(rest);
    var open := if e.distinct then Put(KW_DISTINCT, inner) else inner;
    assert Body(e, f, rest) == PutName(e.name, Put(LPAREN, open));
    assert Size(Body(e, f, rest)) == 2 + Size(open);
  }

  lemma ColumnSize(s: Option<string>, t: Option<string>, c: string, rest: Tokens)
    ensures Size(PrintColumn(s, t, c, rest)) == (if t.None? then 1 else if s.None? then 3 else 5) + Size(rest)
  {
    if t.Some? {
      var column := if c == "*" && s.None? then Put(OP_STAR, rest) else PutName(c, rest);
      assert Size(column) == 1 + Size(rest);
      assert Size(PutName(t.value, Put(DOT, column))) == 3 + Size(rest);
    }
  }

  lemma {:induction false} CaseSize(e: Expr, f: int, rest: Tokens)
    requires e.Case? && Starless(e)
    ensures Size(Body(e, f, rest)) == Cost(e, f) + Size(rest)
    decreases e, 0
  {
    var end := Put(KW_END, rest);
    if e.els.Some? { PrintSize(e.els.value, 0, -1, end); }
    var afterWhens := if e.els.Some? then Put(KW_ELSE, PrintTo(e.els.value, 0, -1, end)) else end;
    WhensSize(e.whens, afterWhens);
    if e.subject.Some? { PrintSize(e.subject.value, 0, -1, PrintWhens(e.whens, afterWhens)); }
  }

  lemma {:induction false} ListSize(es: seq<Expr>, rest: Tokens)
    requires AllStarless(es)
    ensures Size(PrintList(es, rest)) == CostList(es) + Size(rest)
    decreases es, 0
  {
    if es != [] {
      if |es| > 1 { ListSize(es[1..], rest); }
      PrintSize(es[0], 0, -1, if |es| == 1 then rest else Put(COMMA, PrintList(es[1..], rest)));
    }
  }

  lemma {:induction false} ArgsSize(args: seq<Expr>, rest: Tokens)
    requires AllStarless(args)
    ensures Size(PrintArgs(args, rest)) == CostList(args) + Size(rest)
    decreases args, 0
  {
    if args != [] {
      if |args| > 1 { ListSize(args[1..], rest); }
      var after := if |args| == 1 then rest else Put(COMMA, PrintList(args[1..], rest));
      NoStarInFront(args[0], 0, -1, after);
      PrintSize(args[0], 0, -1, after);
    }
  }

  lemma {:induction false} WhensSize(ws: seq<CaseWhen>, rest: Tokens)
    requires WhensStarless(ws)
    ensures Size(PrintWhens(ws, rest)) == CostWhens(ws) + Size(rest)
    decreases ws, 0
  {
    if ws != [] {
      WhensSize(ws[1..], rest);
      WhenSize(ws[0], PrintWhens(ws[1..], rest));
    }
  }

  lemma {:induction false} WhenSize(w: CaseWhen, rest: Tokens)
    requires WhenStarless(w)
    ensures Size(PrintWhen(w, rest)) == CostWhen(w) + Size(rest)
    decreases w, 0
  {
    PrintSize(w.result, 0, -1, rest);
    PrintSize(w.condition, 0, -1, Put(KW_THEN, PrintTo(w.result, 0, -1, rest)));
  }

  // ---- The theorem ----

  /**
   Of all token lists that parse to an expression, none is shorter than its print: the printer writes no token, and so
   no parenthesis, that could be left out or saved by other means.
   */
  lemma PrintIsShortest(ts: Tokens, e: Expr)
    requires Plain(ts) && ParseExpression(ts) == Ok((e, End)) && Starless(e)
    ensures Size(Print(e)) <= Size(ts)
  {
    WholeCost(ts);
    PrintSize(e, 0, -1, End);
  }

  lemma PrintedSize(e: Expr)
    requires Starless(e) && (e.Binary? ==> Infix(e.op))
    ensures Size(Print(e)) == Cost(e, -1)
  {
    BareCost(e);
    PrintSize(e, 0, -1, End);
  }

  /** `x NOT LIKE y = z` is shorter than what is printed for its tree, `(NOT x LIKE y) = z`. */
  lemma NotLikeIsShorter()
    ensures var ts := PutName("x", Put(KW_NOT, Put(KW_LIKE, PutName("y", Put(OP_EQ, PutName("z", End))))));
            var e := Binary(EQ, Unary(NOT, Binary(LIKE, Column("x"), Column("y"))), Column("z"));
            !Plain(ts) && ParseExpression(ts) == Ok((e, End)) && Size(ts) < Size(Print(e))
  {
    var z := PutName("z", End);
    var rest := Put(OP_EQ, z);
    var y := PutName("y", rest);
    var ts := PutName("x", Put(KW_NOT, Put(KW_LIKE, y)));
    var x, like := Column("x"), Unary(NOT, Binary(LIKE, Column("x"), Column("y")));
    NameParsed(5, "y", rest);
    NotLikeTaken(x, Column("y"), y, rest);
    EqualTaken(like, z);
    NameUnary("x", Put(KW_NOT, Put(KW_LIKE, y)));
    NotLikeSize();
  }

  lemma NameUnary(name: string, rest: Tokens)
    requires Kind(rest) != DOT && Kind(rest) != LPAREN
    ensures ParseUnary(PutName(name, rest)) == Ok((Column(name), rest))
  {
    var ts := PutName(name, rest);
    assert ParseUnary(ts) == ParsePrimary(ts) == ParseName(name, rest) == ParseColumn(name, rest);
  }

  lemma EqualTaken(left: Expr, z: Tokens)
    requires z == PutName("z", End)
    ensures ParseLoop(0, left, Put(OP_EQ, z)) == Ok((Binary(EQ, left, Column("z")), End))
  {
    NameParsed(5, "z", End);
    NoPostfix(left, Put(OP_EQ, z));
    TakesIn(0, left, EQ, Column("z"), Put(OP_EQ, z), End);
    Stops(0, Binary(EQ, left, Column("z")), End);
  }

  lemma NameParsed(min: nat, name: string, rest: Tokens)
    requires Kind(rest) != DOT && Kind(rest) != LPAREN && Power(rest) < min <= POSTFIX
    ensures ParseExpr(min, PutName(name, rest)) == Ok((Column(name), rest))
  {
    NameUnary(name, rest);
    Stops(min, Column(name), rest);
  }

  lemma NotLikeTaken(x: Expr, y: Expr, ts: Tokens, rest: Tokens)
    requires ParseExpr(5, ts) == Ok((y, rest)) && Power(rest) != POSTFIX
    ensures ParsePostfix(x, Put(KW_NOT, Put(KW_LIKE, ts))) == Ok((Unary(NOT, Binary(LIKE, x, y)), rest))
  {
    NoPostfix(Unary(NOT, Binary(LIKE, x, y)), rest);
    assert ParsePostfix(x, Put(KW_NOT, Put(KW_LIKE, ts))) == ParseNegatable(x, true, Put(KW_LIKE, ts));
    assert ParseNegatable(x, true, Put(KW_LIKE, ts)) == ParseNotLike(x, LIKE, ts);
  }

  lemma NotLikeSize()
    ensures Size(Print(Binary(EQ, Unary(NOT, Binary(LIKE, Column("x"), Column("y"))), Column("z")))) == 8
  {
    var like := Binary(LIKE, Column("x"), Column("y"));
    var e := Binary(EQ, Unary(NOT, like), Column("z"));
    NotLikeCost();
    assert Starless(e);
    PrintedSize(e);
  }

  lemma NotLikeCost()
    ensures Cost(Binary(EQ, Unary(NOT, Binary(LIKE, Column("x"), Column("y"))), Column("z")), -1) == 8
  {
    var like := Binary(LIKE, Column("x"), Column("y"));
    LikeCost("x", "y");
    NotLikeOperand(like);
    EqualCost(Unary(NOT, like), "z");
  }

  lemma LikeCost(x: string, y: string)
    ensures CostTo(Binary(LIKE, Column(x), Column(y)), 3, -1) == 3
  {
    NameCost(x, 4, 4);
    NameCost(y, 5, -1);
  }

  lemma EqualCost(l: Expr, z: string)
    requires CostTo(l, 4, 4) == 6
    ensures Cost(Binary(EQ, l, Column(z)), -1) == 8
  {
    NameCost(z, 5, -1);
  }

  lemma NotLikeOperand(like: Expr)
    requires CostTo(like, 3, -1) == 3
    ensures CostTo(Unary(NOT, like), 4, 4) == 6
  {
    assert Cost(Unary(NOT, like), -1) == 4;
  }

  lemma NameCost(name: string, k: int, f: int)
    ensures CostTo(Column(name), k, f) == 1
  {
  }
}
