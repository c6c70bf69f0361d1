/**
 The tokenizer. The text is cut into pieces (tokens, blanks, comments) from left to right; `First` says what the next
 piece is, and class Lexer finds the pieces with a cursor.
 */
module Lexer {
  import opened Results
  import opened Seqs
  import opened Types
  import opened Parser

  datatype Lexeme = Lexeme(kind: TokenKind, text: string)

  // ---- Characters ----

  predicate IsBlank(c: char) {
    c == ' ' || c == '\t' || c == '\r' || c == '\n'
  }

  predicate IsDigit(c: char) {
    '0' <= c <= '9'
  }

  predicate IsAlpha(c: char) {
    'a' <= c <= 'z' || 'A' <= c <= 'Z'
  }

  predicate IsWordChar(c: char) {
    IsAlpha(c) || IsDigit(c) || c == '_'
  }

  predicate NotNewline(c: char) {
    c != '\n'
  }

  /** The character at i; '\0' past the end. */
  function At(s: string, i: nat): char {
    if i < |s| then s[i] else '\0'
  }

  /** How many characters from i on satisfy p. */
  function Span(p: char -> bool, s: string, i: nat): (n: nat)
    requires i <= |s|
    ensures i + n <= |s| && (forall k :: i <= k < i + n ==> p(s[k])) && (i + n < |s| ==> !p(s[i + n]))
    decreases |s| - i
  {
    if i < |s| && p(s[i]) then 1 + Span(p, s, i + 1) else 0
  }

  // ---- Keywords ----

  const OTHER_WORDS: set<string> := {
    "FROM", "WHERE", "GROUP", "BY", "HAVING", "ORDER", "LIMIT", "OFFSET", "AS", "UNION", "ALL",
    "JOIN", "INNER", "LEFT", "RIGHT", "FULL", "OUTER", "CROSS", "ON",
    "CREATE", "TABLE", "DROP", "INSERT", "INTO", "VALUES", "DELETE", "UPDATE", "SET",
    "INT", "INTEGER", "BIGINT", "SMALLINT", "TINYINT", "FLOAT", "DOUBLE", "REAL", "BOOLEAN", "BOOL",
    "VARCHAR", "TEXT", "DATE", "TIMESTAMP", "DECIMAL", "NUMERIC", "BLOB",
    "PRIMARY", "KEY", "DEFAULT", "EXISTS",
    "ASC", "DESC", "NULLS", "FIRST", "LAST",
    "OVER", "PARTITION", "ROWS", "RANGE", "UNBOUNDED", "PRECEDING", "FOLLOWING", "CURRENT", "ROW"
  }

  function WordKind(upper: string): TokenKind {
    if upper == "AND" then KW_AND
    else if upper == "OR" then KW_OR
    else if upper == "NOT" then KW_NOT
    else if upper == "IN" then KW_IN
    else if upper == "LIKE" then KW_LIKE
    else if upper == "ILIKE" then KW_ILIKE
    else if upper == "BETWEEN" then KW_BETWEEN
    else if upper == "IS" then KW_IS
    else if upper == "CASE" then KW_CASE
    else if upper == "WHEN" then KW_WHEN
    else if upper == "THEN" then KW_THEN
    else if upper == "ELSE" then KW_ELSE
    else if upper == "END" then KW_END
    else if upper == "DISTINCT" then KW_DISTINCT
    else if upper == "SELECT" then KW_SELECT
    else if upper == "NULL" then LIT_NULL
    else if upper == "TRUE" then LIT_TRUE
    else if upper == "FALSE" then LIT_FALSE
    else if upper in OTHER_WORDS then KW_OTHER(upper)
    else IDENT
  }

  /** The keyword table is looked up with the first 63 characters, in upper case. */
  function Classify(word: string): TokenKind {
    WordKind(Upper(if |word| > 63 then word[..63] else word))
  }

  // ---- Lengths of the longer tokens, from position i ----

  /** The digits of a number that starts at i: whether there is a fraction, and where they end. */
  function Mantissa(s: string, i: nat): (r: (bool, nat))
    requires i < |s| && IsDigit(s[i])
    ensures i < r.1 <= |s|
  {
    var a := i + Span(IsDigit, s, i);
    if At(s, a) == '.' && IsDigit(At(s, a + 1)) then (true, a + 1 + Span(IsDigit, s, a + 1)) else (false, a)
  }

  predicate IsSign(c: char) {
    c == '+' || c == '-'
  }

  /** The token kind and the end of a number whose digits end at b; an exponent without digits is an error. */
  function Exponent(s: string, b: nat, float: bool): (r: (TokenKind, nat))
    requires b <= |s|
    ensures b <= r.1 <= |s|
  {
    if (At(s, b) == 'e' || At(s, b) == 'E') && (IsDigit(At(s, b + 1)) || IsSign(At(s, b + 1))) then
      var c := if IsSign(At(s, b + 1)) then b + 2 else b + 1;
      if IsDigit(At(s, c)) then (LIT_FLOAT, c + Span(IsDigit, s, c)) else (ERROR, c)
    else (if float then LIT_FLOAT else LIT_INTEGER, b)
  }

  function Number(s: string, i: nat): (r: (TokenKind, nat))
    requires i < |s| && IsDigit(s[i])
    ensures i < r.1 <= |s|
  {
    var m := Mantissa(s, i);
    Exponent(s, m.1, m.0)
  }

  /** The end of a quoted text whose contents start at i: a doubled quote stays inside. None if it is not closed. */
  function QuotedEnd(q: char, s: string, i: nat): (r: Option<nat>)
    requires i <= |s|
    ensures r.Some? ==> i < r.value <= |s|
    decreases |s| - i
  {
    if i == |s| then None
    else if s[i] != q then QuotedEnd(q, s, i + 1)
    else if At(s, i + 1) == q && i + 1 < |s| then QuotedEnd(q, s, i + 2)
    else Some(i + 1)
  }

  /** The end of a block comment, inside which position i is at this depth. None if it is not closed. */
  function CommentEnd(s: string, i: nat, depth: nat): (r: Option<nat>)
    requires i <= |s|
    ensures r.Some? ==> i <= r.value <= |s|
    decreases |s| - i
  {
    if depth == 0 then Some(i)
    else if i == |s| then None
    else if s[i] == '/' && At(s, i + 1) == '*' && i + 1 < |s| then CommentEnd(s, i + 2, depth + 1)
    else if s[i] == '*' && At(s, i + 1) == '/' && i + 1 < |s| then CommentEnd(s, i + 2, depth - 1)
    else CommentEnd(s, i + 1, depth)
  }

  // ---- Pieces ----

  datatype Piece = Blank | LineComment | BlockComment(closed: bool) | Lexed(kind: TokenKind)

  function Single(c: char): Option<TokenKind> {
    match c
    case '(' => Some(LPAREN)
    case ')' => Some(RPAREN)
    case '[' => Some(SYMBOL("["))
    case ']' => Some(SYMBOL("]"))
    case ',' => Some(COMMA)
    case ';' => Some(SYMBOL(";"))
    case '*' => Some(OP_STAR)
    case '+' => Some(OP_PLUS)
    case '%' => Some(OP_PERCENT)
    case '^' => Some(OP_CARET)
    case '=' => Some(OP_EQ)
    case '?' => Some(SYMBOL("?"))
    case _ => None
  }

  /** Operators of up to three characters; None for other characters. */
  function Operator(s: string, i: nat): (r: Option<(TokenKind, nat)>)
    requires i < |s|
    ensures r.Some? ==> i < r.value.1 <= |s|
  {
    var d := At(s, i + 1);
    match s[i]
    case '<' => if d == '=' then Some((OP_LTE, i + 2)) else if d == '>' then Some((OP_NEQ, i + 2)) else Some((OP_LT, i + 1))
    case '>' => if d == '=' then Some((OP_GTE, i + 2)) else Some((OP_GT, i + 1))
    case '!' => if d == '=' then Some((OP_NEQ, i + 2)) else Some((ERROR, i + 1))
    case '|' => if d == '|' then Some((OP_CONCAT, i + 2)) else Some((ERROR, i + 1))
    case '-' =>
      if d != '>' then Some((OP_MINUS, i + 1))
      else if At(s, i + 2) == '>' then Some((SYMBOL("->>"), i + 3))
      else Some((SYMBOL("->"), i + 2))
    case '/' => Some((OP_SLASH, i + 1))
    case ':' => if d == ':' then Some((SYMBOL("::"), i + 2)) else Some((SYMBOL(":"), i + 1))
    case '.' => if IsDigit(d) then Some((LIT_FLOAT, i + 1 + Span(IsDigit, s, i + 1))) else Some((DOT, i + 1))
    case _ => None
  }

  /** Literals, names and the rest. */
  function Longer(s: string, i: nat): (r: (TokenKind, nat))
    requires i < |s|
    ensures i < r.1 <= |s|
  {
    var c := s[i];
    if c == '\'' || c == '"' then
      var end := QuotedEnd(c, s, i + 1);
      if end.None? then (ERROR, |s|) else (if c == '"' then IDENT else LIT_STRING, end.value)
    else if IsDigit(c) then Number(s, i)
    else if c == '$' then
      if IsDigit(At(s, i + 1)) then (DOLLAR_NUM, i + 1 + Span(IsDigit, s, i + 1)) else (ERROR, i + 1)
    else if IsAlpha(c) || c == '_' then
      var end := i + 1 + Span(IsWordChar, s, i + 1);
      (Classify(s[i..end]), end)
    else (ERROR, i + 1)
  }

  /** The token at i. */
  function TokenAt(s: string, i: nat): (r: (TokenKind, nat))
    requires i < |s|
    ensures i < r.1 <= |s|
  {
    if Single(s[i]).Some? then (Single(s[i]).value, i + 1)
    else if Operator(s, i).Some? then Operator(s, i).value
    else Longer(s, i)
  }

  /** The piece at i and where it ends. */
  function First(s: string, i: nat): (r: (Piece, nat))
    requires i < |s|
    ensures i < r.1 <= |s|
  {
    if IsBlank(s[i]) then (Blank, i + 1)
    else if s[i] == '-' && At(s, i + 1) == '-' then (LineComment, i + 2 + Span(NotNewline, s, i + 2))
    else if s[i] == '/' && At(s, i + 1) == '*' then
      var end := CommentEnd(s, i + 2, 1);
      if end.None? then (BlockComment(false), |s|) else (BlockComment(true), end.value)
    else
      var t := TokenAt(s, i);
      (Lexed(t.0), t.1)
  }

  /** The tokens from i on, without END_OF_FILE. */
  function Lex(s: string, i: nat): seq<Lexeme>
    requires i <= |s|
    decreases |s| - i
  {
    if i == |s| then []
    else
      var p := First(s, i);
      (if p.0.Lexed? then [Lexeme(p.0.kind, s[i..p.1])] else []) + Lex(s, p.1)
  }

  predicate Faulty(p: Piece) {
    p == BlockComment(false) || p == Lexed(ERROR)
  }

  /** No lexical error from i on. */
  predicate Clean(s: string, i: nat)
    requires i <= |s|
    decreases |s| - i
  {
    i == |s| || (!Faulty(First(s, i).0) && Clean(s, First(s, i).1))
  }

  // ---- Tiling ----

  datatype Cut = Cut(piece: Piece, text: string)

  /** The text cut into its pieces. */
  function Pieces(s: string, i: nat): seq<Cut>
    requires i <= |s|
    decreases |s| - i
  {
    if i == |s| then []
    else
      var p := First(s, i);
      [Cut(p.0, s[i..p.1])] + Pieces(s, p.1)
  }

  function Texts(cuts: seq<Cut>): string {
    if cuts == [] then [] else cuts[0].text + Texts(cuts[1..])
  }

  function TokensOf(cuts: seq<Cut>): seq<Lexeme> {
    if cuts == [] then []
    else (if cuts[0].piece.Lexed? then [Lexeme(cuts[0].piece.kind, cuts[0].text)] else []) + TokensOf(cuts[1..])
  }

  /** Comment openers minus closers, read from left to right without overlap. */
  function NetDepth(t: string): int {
    if |t| < 2 then 0
    else if t[0] == '/' && t[1] == '*' then 1 + NetDepth(t[2..])
    else if t[0] == '*' && t[1] == '/' then -1 + NetDepth(t[2..])
    else NetDepth(t[1..])
  }

  /** What may stand between tokens: a blank, a line comment, a block comment with balanced nesting. */
  predicate IsGap(c: Cut) {
    match c.piece
    case Blank => |c.text| == 1 && IsBlank(c.text[0])
    case LineComment => |c.text| >= 2 && c.text[..2] == "--" && forall k :: 2 <= k < |c.text| ==> c.text[k] != '\n'
    case BlockComment(closed) => |c.text| >= 2 && c.text[..2] == "/*" && (closed ==> |c.text| >= 4 && NetDepth(c.text) == 0)
    case Lexed(_) => false
  }

  lemma {:induction false} CommentBalances(s: string, i: nat, depth: nat)
    requires i <= |s| && CommentEnd(s, i, depth).Some?
    ensures NetDepth(s[i..CommentEnd(s, i, depth).value]) + depth == 0
    ensures depth > 0 ==> CommentEnd(s, i, depth).value >= i + 2
    decreases |s| - i
  {
    if depth > 0 {
      var end := CommentEnd(s, i, depth).value;
      var t := s[i..end];
      if s[i] == '/' && At(s, i + 1) == '*' && i + 1 < |s| {
        CommentBalances(s, i + 2, depth + 1);
        assert t[2..] == s[i + 2..end];
      } else if s[i] == '*' && At(s, i + 1) == '/' && i + 1 < |s| {
        CommentBalances(s, i + 2, depth - 1);
        assert t[2..] == s[i + 2..end];
      } else {
        CommentBalances(s, i + 1, depth);
        assert t[1..] == s[i + 1..end];
      }
    }
  }

  lemma FirstIsGap(s: string, i: nat)
    requires i < |s| && !First(s, i).0.Lexed?
    ensures IsGap(Cut(First(s, i).0, s[i..First(s, i).1]))
  {
    var p := First(s, i);
    var t := s[i..p.1];
    if p.0.BlockComment? {
      assert t[..2] == "/*";
      if p.0.closed {
        CommentBalances(s, i + 2, 1);
        assert t[2..] == s[i + 2..p.1];
      }
    } else if p.0.LineComment? {
      assert t[..2] == "--";
    }
  }

  /**
   The pieces tile the source: put end to end they are the source, the tokens are the token pieces in order, and
   every other piece is a blank or a comment.
   */
  lemma {:induction false} PiecesTile(s: string, i: nat)
    requires i <= |s|
    ensures Texts(Pieces(s, i)) == s[i..]
    ensures TokensOf(Pieces(s, i)) == Lex(s, i)
    ensures forall c :: c in Pieces(s, i) ==> c.piece.Lexed? || IsGap(c)
    decreases |s| - i
  {
    if i < |s| {
      var p := First(s, i);
      PiecesTile(s, p.1);
      assert s[i..p.1] + s[p.1..] == s[i..];
      if !p.0.Lexed? {
        FirstIsGap(s, i);
      }
    }
  }

  // ---- String values ----

  /** '' inside a string literal stands for one quote. */
  function Unescape(inner: string): string {
    if inner == [] then []
    else if inner[0] == '\'' && |inner| > 1 && inner[1] == '\'' then ['\''] + Unescape(inner[2..])
    else [inner[0]] + Unescape(inner[1..])
  }

  function StringValue(lexeme: string): string
    requires |lexeme| >= 2
  {
    Unescape(lexeme[1..|lexeme| - 1])
  }

  method ReadStringValue(lexeme: string) returns (value: string)
    requires |lexeme| >= 2
    ensures value == StringValue(lexeme)
  {
    var inner := lexeme[1..|lexeme| - 1];
    value := [];
    var i := 0;
    while i < |inner|
      invariant i <= |inner| && value + Unescape(inner[i..]) == Unescape(inner)
    {
      assert inner[i..][0] == inner[i] && inner[i..][1..] == inner[i + 1..];
      assert i + 1 < |inner| ==> inner[i..][1] == inner[i + 1] && inner[i..][2..] == inner[i + 2..];
      if inner[i] == '\'' && i + 1 < |inner| && inner[i + 1] == '\'' {
        Regroup(value, ['\''], Unescape(inner[i + 2..]));
        value, i := value + ['\''], i + 2;
      } else {
        Regroup(value, [inner[i]], Unescape(inner[i + 1..]));
        value, i := value + [inner[i]], i + 1;
      }
    }
    AddNothing(value);
  }

  function Escape(v: string): string {
    if v == [] then [] else (if v[0] == '\'' then ['\'', '\''] else [v[0]]) + Escape(v[1..])
  }

  function Quote(v: string): string {
    ['\''] + (Escape(v) + ['\''])
  }

  lemma {:induction false} UnescapeEscape(v: string)
    ensures Unescape(Escape(v)) == v
    decreases |v|
  {
    if v != [] {
      UnescapeEscape(v[1..]);
      SplitFirst(v);
      var e := Escape(v);
      if v[0] == '\'' {
        assert e[0] == '\'' && e[1] == '\'' && e[2..] == Escape(v[1..]);
      } else {
        assert e[0] == v[0] && e[1..] == Escape(v[1..]);
      }
    }
  }

  lemma {:induction false} EscapedEnd(v: string, before: string, rest: string)
    requires rest == [] || rest[0] != '\''
    ensures var s := before + (Escape(v) + (['\''] + rest));
            QuotedEnd('\'', s, |before|) == Some(|s| - |rest|)
    decreases |v|
  {
    var s := before + (Escape(v) + (['\''] + rest));
    if v == [] {
      assert s[|before|] == '\'';
      assert At(s, |before| + 1) == At(rest, 0);
    } else {
      var head := if v[0] == '\'' then ['\'', '\''] else [v[0]];
      EscapedEnd(v[1..], before + head, rest);
      Regroup(head, Escape(v[1..]), ['\''] + rest);
      Regroup(before, head, Escape(v[1..]) + (['\''] + rest));
      assert s[|before|] == v[0];
      assert v[0] == '\'' ==> s[|before| + 1] == '\'';
    }
  }

  /** Quoting any string, lexing it before anything but a quote, and taking the value gives the string back. */
  lemma StringRoundTrip(v: string, rest: string)
    requires rest == [] || rest[0] != '\''
    ensures First(Quote(v) + rest, 0) == (Lexed(LIT_STRING), |Quote(v)|)
    ensures StringValue(Quote(v)) == v
  {
    var s := Quote(v) + rest;
    Regroup(['\''], Escape(v) + ['\''], rest);
    Regroup(Escape(v), ['\''], rest);
    EscapedEnd(v, ['\''], rest);
    assert s[0] == '\'';
    UnescapeEscape(v);
    assert Quote(v)[1..|Quote(v)| - 1] == Escape(v);
  }
}
