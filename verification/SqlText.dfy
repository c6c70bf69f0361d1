/** From an expression to SQL text and back: printing, spelling, tokenizing and parsing. */
module SqlText {
  import opened Results
  import opened Seqs
  import opened Types
  import opened RowKeys
  import opened Ast
  import opened Parser
  import opened Printer
  import opened Grammar
  import opened Lexer
  import opened Tokenizer

  // ---- Tokens and their text ----

  /** How floats are read from text, as std::stod does, and some way to write them. */
  datatype FloatText = FloatText(read: string -> Result<real>, write: real -> string)

  function Spelling(fl: FloatText, t: Token): string {
    match t.kind
    case KW_AND => "AND"
    case KW_OR => "OR"
    case KW_NOT => "NOT"
    case KW_IN => "IN"
    case KW_LIKE => "LIKE"
    case KW_ILIKE => "ILIKE"
    case KW_BETWEEN => "BETWEEN"
    case KW_IS => "IS"
    case KW_CASE => "CASE"
    case KW_WHEN => "WHEN"
    case KW_THEN => "THEN"
    case KW_ELSE => "ELSE"
    case KW_END => "END"
    case KW_DISTINCT => "DISTINCT"
    case LIT_TRUE => "TRUE"
    case LIT_FALSE => "FALSE"
    case LIT_NULL => "NULL"
    case OP_PLUS => "+"
    case OP_MINUS => "-"
    case OP_STAR => "*"
    case OP_SLASH => "/"
    case OP_PERCENT => "%"
    case OP_CARET => "^"
    case OP_EQ => "="
    case OP_NEQ => "<>"
    case OP_LT => "<"
    case OP_LTE => "<="
    case OP_GT => ">"
    case OP_GTE => ">="
    case OP_CONCAT => "||"
    case LPAREN => "("
    case RPAREN => ")"
    case COMMA => ","
    case DOT => "."
    case LIT_INTEGER => if t.value.Ok? && t.value.value.Int? && t.value.value.i >= 0 then NatToString(t.value.value.i) else ""
    case LIT_STRING => if t.value.Ok? && t.value.value.Str? then Quote(t.value.value.s) else ""
    case LIT_FLOAT => if t.value.Ok? && t.value.value.Dbl? then fl.write(t.value.value.r) else ""
    case _ => t.lexeme
  }

  /** What the typed accessor of a token returns. */
  function Decode(fl: FloatText, l: Lexeme): Result<Value> {
    if l.kind == LIT_STRING && |l.text| >= 2 then Ok(Str(StringValue(l.text)))
    else if l.kind == LIT_INTEGER && ParseNat(l.text) < 0x8000_0000_0000_0000 then Ok(Int(W64, ParseNat(l.text)))
    else if l.kind == LIT_FLOAT then
      var r :- fl.read(l.text);
      Ok(Dbl(r))
    else Err
  }

  /** The token the parser sees; the text matters for names only. */
  function ToToken(fl: FloatText, l: Lexeme): Token {
    Token(l.kind, if l.kind == IDENT then l.text else "", Decode(fl, l))
  }

  function ToTokens(fl: FloatText, ls: seq<Lexeme>): Tokens {
    if ls == [] then End else More(ToToken(fl, ls[0]), ToTokens(fl, ls[1..]))
  }

  function Lexemes(fl: FloatText, ts: Tokens): seq<Lexeme> {
    if ts.End? then [] else [Lexeme(ts.head.kind, Spelling(fl, ts.head))] + Lexemes(fl, ts.tail)
  }

  /** The text of the tokens lexes to just this token. */
  predicate Spelled(fl: FloatText, t: Token) {
    var l := Lexeme(t.kind, Spelling(fl, t));
    Standalone(l) && ToToken(fl, l) == t
  }

  predicate AllSpelled(fl: FloatText, ts: Tokens) {
    ts.End? || (Spelled(fl, ts.head) && AllSpelled(fl, ts.tail))
  }

  // ---- Single tokens ----

  lemma {:induction false} SpanAll(p: char -> bool, s: string, i: nat)
    requires i <= |s| && forall k :: i <= k < |s| ==> p(s[k])
    ensures Span(p, s, i) == |s| - i
    decreases |s| - i
  {
    if i < |s| {
      SpanAll(p, s, i + 1);
    }
  }

  lemma WordLexes(w: string)
    requires w != [] && IsAlpha(w[0]) && forall k :: 0 <= k < |w| ==> IsWordChar(w[k])
    ensures First(w, 0) == (Lexed(Classify(w)), |w|)
  {
    SpanAll(IsWordChar, w, 1);
    assert w[0..|w|] == w;
  }

  lemma UpperWord(w: string)
    requires |w| <= 63 && forall k :: 0 <= k < |w| ==> 'A' <= w[k] <= 'Z'
    ensures Classify(w) == WordKind(w)
  {
    assert Upper(w) == w;
  }

  lemma KeywordSpelled(fl: FloatText, k: TokenKind, w: string)
    requires 0 < |w| <= 63 && (forall i :: 0 <= i < |w| ==> 'A' <= w[i] <= 'Z') && WordKind(w) == k
    requires k != ERROR && k != IDENT && k != LIT_INTEGER && k != LIT_FLOAT && k != LIT_STRING && Spelling(fl, Token(k, "", Err)) == w
    ensures Spelled(fl, Token(k, "", Err))
  {
    WordLexes(w);
    UpperWord(w);
  }

  predicate IsKeyword(k: TokenKind) {
    k == KW_AND || k == KW_OR || k == KW_NOT || k == KW_IN || k == KW_LIKE || k == KW_ILIKE || k == KW_BETWEEN || k == KW_IS
    || k == KW_CASE || k == KW_WHEN || k == KW_THEN || k == KW_ELSE || k == KW_END || k == KW_DISTINCT
    || k == LIT_TRUE || k == LIT_FALSE || k == LIT_NULL
  }

  lemma KeywordsSpelled(fl: FloatText, k: TokenKind)
    requires IsKeyword(k)
    ensures Spelled(fl, Token(k, "", Err))
  {
    KeywordSpelled(fl, k, Spelling(fl, Token(k, "", Err)));
  }

  predicate IsSingle(k: TokenKind) {
    k == OP_PLUS || k == OP_STAR || k == OP_PERCENT || k == OP_CARET || k == OP_EQ || k == LPAREN || k == RPAREN || k == COMMA
  }

  predicate IsOperator(k: TokenKind) {
    k == OP_MINUS || k == OP_SLASH || k == OP_NEQ || k == OP_LT || k == OP_LTE || k == OP_GT || k == OP_GTE
    || k == OP_CONCAT || k == DOT
  }

  predicate IsSymbol(k: TokenKind) {
    IsSingle(k) || IsOperator(k)
  }

  lemma SingleSpelled(fl: FloatText, k: TokenKind)
    requires IsSingle(k)
    ensures Spelled(fl, Token(k, "", Err))
  {
    var w := Spelling(fl, Token(k, "", Err));
    assert First(w, 0) == (Lexed(k), |w|);
  }

  lemma OperatorSpelled(fl: FloatText, k: TokenKind)
    requires IsOperator(k)
    ensures Spelled(fl, Token(k, "", Err))
  {
    var w := Spelling(fl, Token(k, "", Err));
    assert First(w, 0) == (Lexed(k), |w|);
  }

  lemma SymbolsSpelled(fl: FloatText, k: TokenKind)
    requires IsSymbol(k)
    ensures Spelled(fl, Token(k, "", Err))
  {
    if IsSingle(k) { SingleSpelled(fl, k); } else { OperatorSpelled(fl, k); }
  }

  lemma IntegerSpelled(fl: FloatText, n: nat)
    requires n < 0x8000_0000_0000_0000
    ensures Spelled(fl, LiteralToken(Int(W64, n)))
  {
    NatRoundTrip(n);
    var s := NatToString(n);
    assert forall k :: 0 <= k < |s| ==> s[k] in s;
    SpanAll(IsDigit, s, 0);
    DigitStarts(s);
  }

  lemma DigitStarts(s: string)
    requires s != [] && IsDigit(s[0]) && Span(IsDigit, s, 0) == |s|
    ensures First(s, 0) == (Lexed(LIT_INTEGER), |s|)
  {
    DigitIsNumber(s);
    DigitsAreInteger(s);
  }

  lemma DigitsAreInteger(s: string)
    requires s != [] && IsDigit(s[0]) && Span(IsDigit, s, 0) == |s|
    ensures Number(s, 0) == (LIT_INTEGER, |s|)
  {
    assert Mantissa(s, 0) == (false, |s|);
  }

  lemma DigitIsNumber(s: string)
    requires s != [] && IsDigit(s[0])
    ensures First(s, 0) == (Lexed(Number(s, 0).0), Number(s, 0).1)
  {
    assert Single(s[0]).None? && Operator(s, 0).None?;
  }

  lemma StringSpelled(fl: FloatText, v: string)
    ensures Spelled(fl, LiteralToken(Str(v)))
  {
    StringRoundTrip(v, []);
    AddNothing(Quote(v));
  }

  // ---- Which expressions can be spelled ----

  /** The name lexes as one identifier: no keyword, or in double quotes. */
  predicate IsName(name: string) {
    Standalone(Lexeme(IDENT, name))
  }

  /** The text written for r is one float token, and reads back as r. */
  predicate Writes(fl: FloatText, r: real) {
    Standalone(Lexeme(LIT_FLOAT, fl.write(r))) && fl.read(fl.write(r)) == Ok(r)
  }

  predicate SpellableLiteral(fl: FloatText, v: Value) {
    v.Dbl? ==> Writes(fl, v.r)
  }

  predicate Spellable(fl: FloatText, e: Expr)
    decreases e, 1
  {
    match e
    case Literal(v) => SpellableLiteral(fl, v)
    case ColumnRef(s, t, c) => (s.Some? ==> IsName(s.value)) && (t.Some? ==> IsName(t.value)) && (c == "*" || IsName(c))
    case Unary(_, x) => Spellable(fl, x)
    case Binary(_, l, r) => Spellable(fl, l) && Spellable(fl, r)
    case FunctionCall(name, args, _, _) => IsName(name) && AllSpellable(fl, args)
    case Case(subject, whens, els) =>
      (subject.Some? ==> Spellable(fl, subject.value)) && WhensSpellable(fl, whens) && (els.Some? ==> Spellable(fl, els.value))
    case In(x, values, _) => Spellable(fl, x) && AllSpellable(fl, values)
    case Between(x, lo, hi, _) => Spellable(fl, x) && Spellable(fl, lo) && Spellable(fl, hi)
    case IsNull(x, _) => Spellable(fl, x)
  }

  predicate AllSpellable(fl: FloatText, es: seq<Expr>)
    decreases es, 0
  {
    es == [] || (Spellable(fl, es[0]) && AllSpellable(fl, es[1..]))
  }

  predicate WhensSpellable(fl: FloatText, ws: seq<CaseWhen>)
    decreases ws, 0
  {
    ws == [] || (WhenSpellable(fl, ws[0]) && WhensSpellable(fl, ws[1..]))
  }

  predicate WhenSpellable(fl: FloatText, w: CaseWhen)
    decreases w, 0
  {
    Spellable(fl, w.condition) && Spellable(fl, w.result)
  }

  // ---- Every printed token is spelled ----

  lemma PutSpelled(fl: FloatText, k: TokenKind, rest: Tokens)
    requires (IsKeyword(k) || IsSymbol(k)) && AllSpelled(fl, rest)
    ensures AllSpelled(fl, Put(k, rest))
  {
    if IsKeyword(k) { KeywordsSpelled(fl, k); } else { SymbolsSpelled(fl, k); }
  }

  lemma PutNotSpelled(fl: FloatText, negated: bool, rest: Tokens)
    requires AllSpelled(fl, rest)
    ensures AllSpelled(fl, PutNot(negated, rest))
  {
    PutSpelled(fl, KW_NOT, rest);
  }

  lemma NameSpelled(fl: FloatText, name: string, rest: Tokens)
    requires IsName(name) && AllSpelled(fl, rest)
    ensures AllSpelled(fl, PutName(name, rest))
  {
  }

  lemma LiteralSpelled(fl: FloatText, v: Value, rest: Tokens)
    requires PrintableLiteral(v) && SpellableLiteral(fl, v) && AllSpelled(fl, rest)
    ensures AllSpelled(fl, More(LiteralToken(v), rest))
  {
    match v
    case Null => KeywordsSpelled(fl, LIT_NULL);
    case Bool(b) => KeywordsSpelled(fl, if b then LIT_TRUE else LIT_FALSE);
    case Int(_, i) => IntegerSpelled(fl, i);
    case Str(s) => StringSpelled(fl, s);
    case Dbl(_) =>
  }

  lemma ColumnSpelled(fl: FloatText, s: Option<string>, t: Option<string>, c: string, rest: Tokens)
    requires (s.Some? ==> t.Some? && c != "*" && IsName(s.value)) && (t.Some? ==> IsName(t.value)) && (c == "*" || IsName(c)) && AllSpelled(fl, rest)
    ensures AllSpelled(fl, PrintColumn(s, t, c, rest))
  {
    PutSpelled(fl, OP_STAR, rest);
    if c != "*" { NameSpelled(fl, c, rest); }
    if t.Some? {
      var column := if c == "*" && s.None? then Put(OP_STAR, rest) else PutName(c, rest);
      PutSpelled(fl, DOT, column);
      NameSpelled(fl, t.value, Put(DOT, column));
      if s.Some? {
        PutSpelled(fl, DOT, PutName(t.value, Put(DOT, column)));
        NameSpelled(fl, s.value, Put(DOT, PutName(t.value, Put(DOT, column))));
      }
    }
  }

  lemma {:induction false} PrintedSpelled(fl: FloatText, e: Expr, k: int, f: int, rest: Tokens)
    requires Printable(e) && Spellable(fl, e) && AllSpelled(fl, rest)
    ensures AllSpelled(fl, PrintTo(e, k, f, rest))
    decreases e, 2
  {
    if NeedsParens(e, k, f) {
      PutSpelled(fl, RPAREN, rest);
      BodySpelled(fl, e, -1, Put(RPAREN, rest));
      PutSpelled(fl, LPAREN, Body(e, -1, Put(RPAREN, rest)));
    } else {
      BodySpelled(fl, e, f, rest);
    }
  }

  lemma OpIsSpelled(op: BinaryOp)
    requires Infix(op)
    ensures IsKeyword(KindOfOp(op)) || IsSymbol(KindOfOp(op))
  {
  }

  lemma {:induction false} BodySpelled(fl: FloatText, e: Expr, f: int, rest: Tokens)
    requires Printable(e) && Spellable(fl, e) && AllSpelled(fl, rest)
    ensures AllSpelled(fl, Body(e, f, rest))
    decreases e, 1
  {
    match e
    case Literal(v) => LiteralSpelled(fl, v, rest);
    case ColumnRef(s, t, c) => ColumnSpelled(fl, s, t, c, rest);
    case Unary(op, x) =>
      var level := if op == NOT then 3 else SIGN;
      PrintedSpelled(fl, x, level, f, rest);
      PutSpelled(fl, if op == NOT then KW_NOT else if op == NEGATE then OP_MINUS else OP_PLUS, PrintTo(x, level, f, rest));
    case Binary(op, l, r) =>
      var right := PrintTo(r, RightLevel(KindOfOp(op)), f, rest);
      PrintedSpelled(fl, r, RightLevel(KindOfOp(op)), f, rest);
      OpIsSpelled(op);
      PutSpelled(fl, KindOfOp(op), right);
      PrintedSpelled(fl, l, LeftLevel(op), Level(op), Put(KindOfOp(op), right));
    case FunctionCall(_, _, _, _) => CallSpelled(fl, e, f, rest);
    case Case(_, _, _) => CaseSpelled(fl, e, f, rest);
    case In(x, values, negated) =>
      PutSpelled(fl, RPAREN, rest);
      var list := PrintList(values, Put(RPAREN, rest));
      ListSpelled(fl, values, Put(RPAREN, rest));
      PutSpelled(fl, LPAREN, list);
      PutSpelled(fl, KW_IN, Put(LPAREN, list));
      PutNotSpelled(fl, negated, Put(KW_IN, Put(LPAREN, list)));
      PrintedSpelled(fl, x, POSTFIX, POSTFIX, PutNot(negated, Put(KW_IN, Put(LPAREN, list))));
    case Between(x, lo, hi, negated) =>
      PrintedSpelled(fl, hi, 5, f, rest);
      var high := Put(KW_AND, PrintTo(hi, 5, f, rest));
      PutSpelled(fl, KW_AND, PrintTo(hi, 5, f, rest));
      PrintedSpelled(fl, lo, 5, 2, high);
      var low := Put(KW_BETWEEN, PrintTo(lo, 5, 2, high));
      PutSpelled(fl, KW_BETWEEN, PrintTo(lo, 5, 2, high));
      PutNotSpelled(fl, negated, low);
      PrintedSpelled(fl, x, POSTFIX, POSTFIX, PutNot(negated, low));
    case IsNull(x, negated) =>
      PutSpelled(fl, LIT_NULL, rest);
      PutNotSpelled(fl, negated, Put(LIT_NULL, rest));
      PutSpelled(fl, KW_IS, PutNot(negated, Put(LIT_NULL, rest)));
      PrintedSpelled(fl, x, POSTFIX, POSTFIX, Put(KW_IS, PutNot(negated, Put(LIT_NULL, rest))));
  }

  lemma {:induction false} CallSpelled(fl: FloatText, e: Expr, f: int, rest: Tokens)
    requires e.FunctionCall? && Printable(e) && Spellable(fl, e) && AllSpelled(fl, rest)
    ensures AllSpelled(fl, Body(e, f, rest))
    decreases e, 0
  {
    var close := Put(RPAREN, rest);
    PutSpelled(fl, RPAREN, rest);
    PutSpelled(fl, OP_STAR, close);
    ArgsSpelled(fl, e.args, close);
    var inner := if e.star then Put(OP_STAR, close) else PrintArgs(e.args, close);
    PutSpelled(fl, KW_DISTINCT, inner);
    var open := if e.distinct then Put(KW_DISTINCT, inner) else inner;
    PutSpelled(fl, LPAREN, open);
    NameSpelled(fl, e.name, Put(LPAREN, open));
  }

  lemma {:induction false} CaseSpelled(fl: FloatText, e: Expr, f: int, rest: Tokens)
    requires e.Case? && Printable(e) && Spellable(fl, e) && AllSpelled(fl, rest)
    ensures AllSpelled(fl, Body(e, f, rest))
    decreases e, 0
  {
    PutSpelled(fl, KW_END, rest);
    if e.els.Some? {
      PrintedSpelled(fl, e.els.value, 0, -1, Put(KW_END, rest));
      PutSpelled(fl, KW_ELSE, PrintTo(e.els.value, 0, -1, Put(KW_END, rest)));
    }
    var afterWhens := if e.els.Some? then Put(KW_ELSE, PrintTo(e.els.value, 0, -1, Put(KW_END, rest))) else Put(KW_END, rest);
    var afterSubject := PrintWhens(e.whens, afterWhens);
    WhensSpelled(fl, e.whens, afterWhens);
    if e.subject.Some? {
      PrintedSpelled(fl, e.subject.value, 0, -1, afterSubject);
    }
    PutSpelled(fl, KW_CASE, if e.subject.Some? then PrintTo(e.subject.value, 0, -1, afterSubject) else afterSubject);
  }

  lemma {:induction false} ListSpelled(fl: FloatText, es: seq<Expr>, rest: Tokens)
    requires AllPrintable(es) && AllSpellable(fl, es) && AllSpelled(fl, rest)
    ensures AllSpelled(fl, PrintList(es, rest))
    decreases es, 0
  {
    if es != [] {
      if |es| > 1 {
        ListSpelled(fl, es[1..], rest);
        PutSpelled(fl, COMMA, PrintList(es[1..], rest));
      }
      PrintedSpelled(fl, es[0], 0, -1, if |es| == 1 then rest else Put(COMMA, PrintList(es[1..], rest)));
    }
  }

  lemma {:induction false} ArgsSpelled(fl: FloatText, args: seq<Expr>, rest: Tokens)
    requires AllPrintable(args) && AllSpellable(fl, args) && AllSpelled(fl, rest)
    ensures AllSpelled(fl, PrintArgs(args, rest))
    decreases args, 4
  {
    if args != [] {
      if |args| > 1 {
        ListSpelled(fl, args[1..], rest);
        PutSpelled(fl, COMMA, PrintList(args[1..], rest));
      }
      var after := if |args| == 1 then rest else Put(COMMA, PrintList(args[1..], rest));
      FirstArgSpelled(fl, args[0], after);
    }
  }

  lemma {:induction false} FirstArgSpelled(fl: FloatText, e: Expr, after: Tokens)
    requires Printable(e) && Spellable(fl, e) && AllSpelled(fl, after)
    ensures AllSpelled(fl, PrintFirstArg(e, after))
    decreases e, 3
  {
    PrintedSpelled(fl, e, 0, -1, after);
    PutSpelled(fl, RPAREN, after);
    PrintedSpelled(fl, e, 0, -1, Put(RPAREN, after));
    PutSpelled(fl, LPAREN, PrintTo(e, 0, -1, Put(RPAREN, after)));
  }

  lemma {:induction false} WhensSpelled(fl: FloatText, ws: seq<CaseWhen>, rest: Tokens)
    requires WhensPrintable(ws) && WhensSpellable(fl, ws) && AllSpelled(fl, rest)
    ensures AllSpelled(fl, PrintWhens(ws, rest))
    decreases ws, 0
  {
    if ws != [] {
      WhensSpelled(fl, ws[1..], rest);
      WhenSpelled(fl, ws[0], PrintWhens(ws[1..], rest));
      PutSpelled(fl, KW_WHEN, PrintWhen(ws[0], PrintWhens(ws[1..], rest)));
    }
  }

  lemma {:induction false} WhenSpelled(fl: FloatText, w: CaseWhen, rest: Tokens)
    requires WhenPrintable(w) && WhenSpellable(fl, w) && AllSpelled(fl, rest)
    ensures AllSpelled(fl, PrintWhen(w, rest))
    decreases w, 0
  {
    PrintedSpelled(fl, w.result, 0, -1, rest);
    PutSpelled(fl, KW_THEN, PrintTo(w.result, 0, -1, rest));
    PrintedSpelled(fl, w.condition, 0, -1, Put(KW_THEN, PrintTo(w.result, 0, -1, rest)));
  }

  // ---- The round trip ----

  lemma {:induction false} LexemesBack(fl: FloatText, ts: Tokens)
    requires AllSpelled(fl, ts)
    ensures ToTokens(fl, Lexemes(fl, ts)) == ts && forall l :: l in Lexemes(fl, ts) ==> Standalone(l)
    decreases ts
  {
    if ts.More? {
      LexemesBack(fl, ts.tail);
      assert Lexemes(fl, ts)[1..] == Lexemes(fl, ts.tail);
    }
  }

  /** The text of an expression: its printed tokens with spaces between them. */
  function ToSql(fl: FloatText, e: Expr): string {
    Spaced(Lexemes(fl, Print(e)))
  }

  /** Writing an expression as SQL text, tokenizing the text and parsing the tokens gives back the same tree. */
  lemma SqlRoundTrip(fl: FloatText, e: Expr)
    requires Printable(e) && Spellable(fl, e)
    ensures ParseExpression(ToTokens(fl, Lex(ToSql(fl, e), 0))) == Ok((e, End))
  {
    SpelledEnd(fl);
    PrintedSpelled(fl, e, 0, -1, End);
    LexemesBack(fl, Print(e));
    SpacedLexes(Lexemes(fl, Print(e)), []);
    AddNothing(ToSql(fl, e));
    RoundTrip(e);
  }

  lemma SpelledEnd(fl: FloatText)
    ensures AllSpelled(fl, End)
  {
  }

  // ---- From any text ----

  lemma NameIsNoStar(s: string, i: nat)
    requires i < |s| && First(s, i).0 == Lexed(IDENT)
    ensures s[i] != '*'
  {
  }

  lemma FloatStarts(s: string, i: nat)
    requires i < |s| && First(s, i).0 == Lexed(LIT_FLOAT)
    ensures IsDigit(s[i]) || s[i] == '.'
  {
  }

  /** A text that starts with a digit or a point is read as no negative number. */
  ghost predicate Unsigned(fl: FloatText) {
    forall w: string :: w != [] && (IsDigit(w[0]) || w[0] == '.') && fl.read(w).Ok? ==> fl.read(w).value >= 0.0
  }

  lemma GenuineLexeme(fl: FloatText, l: Lexeme)
    requires Unsigned(fl) && (l.kind == IDENT ==> l.text != "*")
    requires l.kind == LIT_FLOAT ==> l.text != [] && (IsDigit(l.text[0]) || l.text[0] == '.')
    ensures GenuineToken(ToToken(fl, l))
  {
  }

  lemma {:induction false} LexedIsGenuine(fl: FloatText, s: string, i: nat)
    requires i <= |s| && Unsigned(fl)
    ensures Genuine(ToTokens(fl, Lex(s, i)))
    decreases |s| - i
  {
    if i < |s| {
      var p := First(s, i);
      LexedIsGenuine(fl, s, p.1);
      AddNothing(Lex(s, p.1));
      if p.0.Lexed? {
        var l := Lexeme(p.0.kind, s[i..p.1]);
        if l.kind == IDENT { NameIsNoStar(s, i); }
        if l.kind == LIT_FLOAT { FloatStarts(s, i); }
        assert l.text[0] == s[i];
        GenuineLexeme(fl, l);
        assert ([l] + Lex(s, p.1))[1..] == Lex(s, p.1);
      }
    }
  }

  /**
   Whatever the layout and the parentheses of an accepted text, and however floats are read, its tree is printable and
   reads back from its print.
   */
  lemma AcceptedTextIsPrintable(fl: FloatText, s: string)
    requires Unsigned(fl) && ParseExpression(ToTokens(fl, Lex(s, 0))).Ok?
    ensures var e := ParseExpression(ToTokens(fl, Lex(s, 0))).value.0; Printable(e) && ParseExpression(Print(e)) == Ok((e, End))
  {
    LexedIsGenuine(fl, s, 0);
    ParsePrintParse(ToTokens(fl, Lex(s, 0)));
  }
}
