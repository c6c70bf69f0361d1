/** The tokenizer's loops, and what re-lexing its tokens gives. */
module Tokenizer {
  import opened Results
  import opened Seqs
  import opened Parser
  import opened Lexer

  // ---- A token does not depend on what is around it ----

  predicate SameChar(s: string, i: nat, t: string, j: nat, k: nat) {
    i + k < |s| && j + k < |t| && t[j + k] == s[i + k]
  }

  /** n characters of s from i on are those of t from j on, and t ends or has a space behind them. */
  predicate Same(s: string, i: nat, t: string, j: nat, n: nat) {
    && i + n <= |s| && j + n <= |t|
    && (forall k :: 0 <= k < n ==> SameChar(s, i, t, j, k))
    && (j + n == |t| || t[j + n] == ' ')
  }

  lemma SameFrom(s: string, i: nat, t: string, j: nat, n: nat, d: nat)
    requires Same(s, i, t, j, n) && d <= n
    ensures i + n <= |s| && j + n <= |t| && Same(s, i + d, t, j + d, n - d)
    ensures d < n ==> At(t, j + d) == At(s, i + d)
    ensures d == n ==> (j + d == |t| && At(t, j + d) == '\0') || (j + d < |t| && t[j + d] == ' ')
  {
    var i', j' := i + d, j + d;
    forall k | 0 <= k < n - d ensures SameChar(s, i', t, j', k) {
      assert SameChar(s, i, t, j, d + k);
    }
    assert d < n ==> SameChar(s, i, t, j, d);
  }

  lemma SpanShift(p: char -> bool, s: string, i: nat, t: string, j: nat, n: nat)
    requires Same(s, i, t, j, n) && Span(p, s, i) <= n && !p(' ')
    ensures Span(p, t, j) == Span(p, s, i)
    decreases n
  {
    SameFrom(s, i, t, j, n, 0);
    if Span(p, s, i) > 0 {
      SameFrom(s, i, t, j, n, 1);
      SpanShift(p, s, i + 1, t, j + 1, n - 1);
    }
  }

  lemma QuotedShift(q: char, s: string, i: nat, t: string, j: nat, n: nat)
    requires Same(s, i, t, j, n) && QuotedEnd(q, s, i) == Some(i + n) && q != ' ' && q != '\0'
    ensures QuotedEnd(q, t, j) == Some(j + n)
    decreases n
  {
    SameFrom(s, i, t, j, n, 0);
    SameFrom(s, i, t, j, n, 1);
    if s[i] != q {
      QuotedShift(q, s, i + 1, t, j + 1, n - 1);
    } else if At(s, i + 1) == q && i + 1 < |s| {
      SameFrom(s, i, t, j, n, 2);
      QuotedShift(q, s, i + 2, t, j + 2, n - 2);
    }
  }

  /** An exponent of n characters at b whose digits start at b + c. */
  predicate HasExponent(s: string, b: nat, c: nat, n: nat) {
    && (At(s, b) == 'e' || At(s, b) == 'E') && c == (if IsSign(At(s, b + 1)) then 2 else 1)
    && c < n && b + n <= |s| && IsDigit(At(s, b + c)) && Span(IsDigit, s, b + c) == n - c
  }

  lemma ExponentRead(s: string, b: nat, float: bool, k: TokenKind, n: nat) returns (c: nat)
    requires b + n <= |s| && n > 0 && Exponent(s, b, float) == (k, b + n) && k != ERROR
    ensures k == LIT_FLOAT && HasExponent(s, b, c, n)
  {
    c := if IsSign(At(s, b + 1)) then 2 else 1;
  }

  lemma ExponentMade(t: string, d: nat, float: bool, c: nat, n: nat)
    requires HasExponent(t, d, c, n)
    ensures Exponent(t, d, float) == (LIT_FLOAT, d + n)
  {
  }

  lemma HasExponentShift(s: string, b: nat, t: string, d: nat, c: nat, n: nat)
    requires Same(s, b, t, d, n) && HasExponent(s, b, c, n)
    ensures HasExponent(t, d, c, n)
  {
    SameFrom(s, b, t, d, n, 0);
    SameFrom(s, b, t, d, n, 1);
    SameFrom(s, b, t, d, n, c);
    SpanShift(IsDigit, s, b + c, t, d + c, n - c);
  }

  lemma ExponentShift(s: string, b: nat, t: string, d: nat, n: nat, float: bool, k: TokenKind)
    requires Same(s, b, t, d, n) && Exponent(s, b, float) == (k, b + n) && k != ERROR
    ensures Exponent(t, d, float) == (k, d + n)
  {
    if n > 0 {
      var c := ExponentRead(s, b, float, k, n);
      HasExponentShift(s, b, t, d, c, n);
      ExponentMade(t, d, float, c, n);
    } else {
      SameFrom(s, b, t, d, n, 0);
    }
  }

  /** The digits before the point, or all of them. */
  lemma DigitsShift(s: string, i: nat, t: string, j: nat, n: nat)
    requires Same(s, i, t, j, n) && Span(IsDigit, s, i) <= n
    ensures var a := Span(IsDigit, s, i);
            Span(IsDigit, t, j) == a && if a < n then At(t, j + a) == At(s, i + a) else At(t, j + a) == '\0' || At(t, j + a) == ' '
  {
    SpanShift(IsDigit, s, i, t, j, n);
    SameFrom(s, i, t, j, n, Span(IsDigit, s, i));
  }

  lemma FractionShift(s: string, i: nat, t: string, j: nat, n: nat, m: nat)
    requires Same(s, i, t, j, n) && i < |s| && IsDigit(s[i]) && m <= n && Mantissa(s, i) == (true, i + m)
    requires j < |t| && IsDigit(t[j])
    ensures Mantissa(t, j) == (true, j + m)
  {
    hide Same, Span;
    var a := Span(IsDigit, s, i);
    DigitsShift(s, i, t, j, n);
    SameFrom(s, i, t, j, n, a + 1);
    SpanShift(IsDigit, s, i + a + 1, t, j + a + 1, n - a - 1);
  }

  lemma MantissaShift(s: string, i: nat, t: string, j: nat, n: nat, m: nat)
    requires Same(s, i, t, j, n) && i < |s| && IsDigit(s[i]) && m <= n && Mantissa(s, i).1 == i + m
    requires m < n ==> s[i + m] != '.'
    ensures j < |t| && IsDigit(t[j]) && Mantissa(t, j) == (Mantissa(s, i).0, j + m)
  {
    SameFrom(s, i, t, j, n, 0);
    if Mantissa(s, i).0 {
      FractionShift(s, i, t, j, n, m);
    } else {
      DigitsShift(s, i, t, j, n);
    }
  }

  /** The end of the digits is no point, unless nothing follows them. */
  lemma NumberParts(s: string, i: nat, k: TokenKind, n: nat) returns (m: nat)
    requires i < |s| && IsDigit(s[i]) && Number(s, i) == (k, i + n)
    ensures m <= n && Mantissa(s, i).1 == i + m && Exponent(s, i + m, Mantissa(s, i).0) == (k, i + n)
    ensures m < n ==> s[i + m] != '.'
  {
    m := Mantissa(s, i).1 - i;
  }

  lemma NumberShift(s: string, i: nat, t: string, j: nat, n: nat, k: TokenKind)
    requires Same(s, i, t, j, n) && i < |s| && IsDigit(s[i]) && Number(s, i) == (k, i + n) && k != ERROR
    ensures j < |t| && IsDigit(t[j]) && Number(t, j) == (k, j + n)
  {
    hide Exponent, Mantissa, Same;
    var m := NumberParts(s, i, k, n);
    MantissaShift(s, i, t, j, n, m);
    SameFrom(s, i, t, j, n, m);
    ExponentShift(s, i + m, t, j + m, n - m, Mantissa(s, i).0, k);
  }

  lemma DotShift(s: string, i: nat, t: string, j: nat, n: nat, k: TokenKind)
    requires Same(s, i, t, j, n) && i < |s| && s[i] == '.' && Operator(s, i) == Some((k, i + n))
    ensures j < |t| && t[j] == '.' && Operator(t, j) == Some((k, j + n))
  {
    SameFrom(s, i, t, j, n, 0);
    SameFrom(s, i, t, j, n, 1);
    if n > 1 {
      SpanShift(IsDigit, s, i + 1, t, j + 1, n - 1);
    }
  }

  lemma ArrowShift(s: string, i: nat, t: string, j: nat, n: nat, k: TokenKind)
    requires Same(s, i, t, j, n) && i < |s| && s[i] == '-' && Operator(s, i) == Some((k, i + n))
    ensures j < |t| && t[j] == '-' && Operator(t, j) == Some((k, j + n))
  {
    SameFrom(s, i, t, j, n, 0);
    SameFrom(s, i, t, j, n, 1);
    if n >= 2 {
      SameFrom(s, i, t, j, n, 2);
    }
  }

  lemma OperatorShift(s: string, i: nat, t: string, j: nat, n: nat, k: TokenKind)
    requires Same(s, i, t, j, n) && i < |s| && Operator(s, i) == Some((k, i + n)) && k != ERROR
    ensures j < |t| && Operator(t, j) == Some((k, j + n))
  {
    if s[i] == '.' {
      DotShift(s, i, t, j, n, k);
    } else if s[i] == '-' {
      ArrowShift(s, i, t, j, n, k);
    } else {
      SameFrom(s, i, t, j, n, 0);
      SameFrom(s, i, t, j, n, 1);
    }
  }

  lemma WordShift(s: string, i: nat, t: string, j: nat, n: nat)
    requires Same(s, i, t, j, n) && n > 0 && 1 + Span(IsWordChar, s, i + 1) == n
    ensures 1 + Span(IsWordChar, t, j + 1) == n && t[j..j + n] == s[i..i + n]
  {
    SameFrom(s, i, t, j, n, 1);
    SpanShift(IsWordChar, s, i + 1, t, j + 1, n - 1);
    SameText(s, i, t, j, n);
  }

  lemma SameText(s: string, i: nat, t: string, j: nat, n: nat)
    requires Same(s, i, t, j, n)
    ensures t[j..j + n] == s[i..i + n]
  {
    var u, v := t[j..j + n], s[i..i + n];
    forall k | 0 <= k < n ensures u[k] == v[k] {
      assert SameChar(s, i, t, j, k);
    }
  }

  lemma SameSlice(s: string, i: nat, n: nat)
    requires i + n <= |s|
    ensures Same(s, i, s[i..i + n], 0, n)
  {
  }

  lemma SameInside(l: string, before: string, rest: string)
    requires rest == [] || rest[0] == ' '
    ensures Same(l, 0, before + (l + rest), |before|, |l|)
  {
  }

  lemma QuotedTokenShift(s: string, i: nat, t: string, j: nat, n: nat, k: TokenKind)
    requires Same(s, i, t, j, n) && i < |s| && (s[i] == '\'' || s[i] == '"') && Longer(s, i) == (k, i + n) && k != ERROR
    ensures j < |t| && Longer(t, j) == (k, j + n)
  {
    SameFrom(s, i, t, j, n, 0);
    SameFrom(s, i, t, j, n, 1);
    QuotedShift(s[i], s, i + 1, t, j + 1, n - 1);
  }

  lemma ParameterShift(s: string, i: nat, t: string, j: nat, n: nat, k: TokenKind)
    requires Same(s, i, t, j, n) && i < |s| && s[i] == '$' && Longer(s, i) == (k, i + n) && k != ERROR
    ensures j < |t| && Longer(t, j) == (k, j + n)
  {
    hide Classify, Number, QuotedEnd, Same, Span;
    SameFrom(s, i, t, j, n, 0);
    SameFrom(s, i, t, j, n, 1);
    SpanShift(IsDigit, s, i + 1, t, j + 1, n - 1);
  }

  lemma WordTokenShift(s: string, i: nat, t: string, j: nat, n: nat, k: TokenKind)
    requires Same(s, i, t, j, n) && i < |s| && (IsAlpha(s[i]) || s[i] == '_') && Longer(s, i) == (k, i + n)
    ensures j < |t| && Longer(t, j) == (k, j + n)
  {
    hide Classify, Number, QuotedEnd;
    var w := s[i..i + n];
    SameFrom(s, i, t, j, n, 0);
    WordShift(s, i, t, j, n);
    WordRead(s, i, w);
    WordRead(t, j, w);
  }

  lemma WordRead(s: string, i: nat, w: string)
    requires i < |s| && (IsAlpha(s[i]) || s[i] == '_') && w == s[i..i + 1 + Span(IsWordChar, s, i + 1)]
    ensures Longer(s, i).0 == Classify(w) && Longer(s, i).1 == i + |w|
  {
    hide Classify, Number, QuotedEnd;
  }

  lemma LongerShift(s: string, i: nat, t: string, j: nat, n: nat, k: TokenKind)
    requires Same(s, i, t, j, n) && i < |s| && Longer(s, i) == (k, i + n) && k != ERROR
    ensures j < |t| && Longer(t, j) == (k, j + n)
  {
    if s[i] == '\'' || s[i] == '"' {
      QuotedTokenShift(s, i, t, j, n, k);
    } else if IsDigit(s[i]) {
      SameFrom(s, i, t, j, n, 0);
      NumberShift(s, i, t, j, n, k);
    } else if s[i] == '$' {
      ParameterShift(s, i, t, j, n, k);
    } else {
      WordTokenShift(s, i, t, j, n, k);
    }
  }

  /** A token is recognised by its own characters, wherever it stands before a space or the end. */
  lemma TokenIsLocal(s: string, i: nat, t: string, j: nat, n: nat, k: TokenKind)
    requires Same(s, i, t, j, n) && i < |s| && First(s, i) == (Lexed(k), i + n) && k != ERROR
    ensures j < |t| && First(t, j) == (Lexed(k), j + n)
  {
    SameFrom(s, i, t, j, n, 0);
    SameFrom(s, i, t, j, n, 1);
    if Single(s[i]).Some? {
    } else if Operator(s, i).Some? {
      OperatorShift(s, i, t, j, n, k);
    } else {
      OperatorByFirst(s, i, t, j);
      LongerShift(s, i, t, j, n, k);
    }
  }

  /** Whether there is an operator depends on the first character only. */
  lemma OperatorByFirst(s: string, i: nat, t: string, j: nat)
    requires i < |s| && j < |t| && s[i] == t[j]
    ensures Operator(s, i).Some? <==> Operator(t, j).Some?
  {
  }

  // ---- Lexing what was lexed ----

  /** On its own the text is exactly this token. */
  predicate Standalone(l: Lexeme) {
    l.text != [] && l.kind != ERROR && First(l.text, 0) == (Lexed(l.kind), |l.text|)
  }

  lemma {:induction false} LexedIsStandalone(s: string, i: nat)
    requires i <= |s| && Clean(s, i)
    ensures forall l :: l in Lex(s, i) ==> Standalone(l)
    decreases |s| - i
  {
    if i < |s| {
      var p := First(s, i);
      LexedIsStandalone(s, p.1);
      if p.0.Lexed? {
        SameSlice(s, i, p.1 - i);
        TokenIsLocal(s, i, s[i..p.1], 0, p.1 - i, p.0.kind);
      }
    }
  }

  /** The tokens with a space between each two. */
  function Spaced(ls: seq<Lexeme>): string {
    if ls == [] then [] else if |ls| == 1 then ls[0].text else ls[0].text + ([' '] + Spaced(ls[1..]))
  }

  lemma LexStep(t: string, j: nat, k: TokenKind, n: nat)
    requires j < |t| && n > 0 && j + n <= |t| && First(t, j) == (Lexed(k), j + n)
    ensures Lex(t, j) == [Lexeme(k, t[j..j + n])] + Lex(t, j + n)
  {
    hide First;
  }

  lemma SpaceStep(t: string, j: nat)
    requires j < |t| && t[j] == ' '
    ensures Lex(t, j) == Lex(t, j + 1)
  {
    AddNothing(Lex(t, j + 1));
  }

  lemma Standing(l: Lexeme, before: string, rest: string)
    requires Standalone(l) && (rest == [] || rest[0] == ' ')
    ensures var t := before + (l.text + rest);
            |before| + |l.text| <= |t| && Lex(t, |before|) == [l] + Lex(t, |before| + |l.text|)
  {
    hide First, Lex, Same;
    var t := before + (l.text + rest);
    SameInside(l.text, before, rest);
    TokenIsLocal(l.text, 0, t, |before|, |l.text|, l.kind);
    LexStep(t, |before|, l.kind, |l.text|);
    SliceInside(before, l.text, rest);
  }

  lemma SliceInside(a: string, b: string, c: string)
    ensures (a + (b + c))[|a|..|a| + |b|] == b
  {
  }

  lemma {:induction false} SpacedLexes(ls: seq<Lexeme>, before: string)
    requires forall l :: l in ls ==> Standalone(l)
    ensures Lex(before + Spaced(ls), |before|) == ls
    decreases |ls|
  {
    hide First, Lex;
    if ls == [] {
      NothingLexed(before + Spaced(ls));
      AddNothing(before);
    } else if |ls| == 1 {
      AddNothing(ls[0].text);
      Standing(ls[0], before, []);
      NothingLexed(before + ls[0].text);
      SplitFirst(ls);
      AddNothing([ls[0]]);
    } else {
      var rest := [' '] + Spaced(ls[1..]);
      var t, next := before + (ls[0].text + rest), before + ls[0].text + [' '];
      Standing(ls[0], before, rest);
      Regroup(before, ls[0].text, rest);
      Regroup(before + ls[0].text, [' '], Spaced(ls[1..]));
      assert t[|before| + |ls[0].text|] == ' ';
      SpaceStep(t, |before| + |ls[0].text|);
      SpacedLexes(ls[1..], next);
      SplitFirst(ls);
    }
  }

  lemma NothingLexed(t: string)
    ensures Lex(t, |t|) == []
  {
  }

  /** The tokens of a source without lexical errors, written with spaces between them, lex to themselves. */
  lemma RelexIsIdentity(s: string)
    requires Clean(s, 0)
    ensures Lex(Spaced(Lex(s, 0)), 0) == Lex(s, 0)
  {
    LexedIsStandalone(s, 0);
    SpacedLexes(Lex(s, 0), []);
    AddNothing(Spaced(Lex(s, 0)));
  }

  // ---- The scanner ----

  class Scanner {
    const source: string
    var pos: nat
    var tokens: seq<Lexeme>
    var errors: nat

    constructor (text: string)
      ensures source == text && pos == 0 && tokens == [] && errors == 0
    {
      source, pos, tokens, errors := text, 0, [], 0;
    }

    function PeekAt(offset: nat): (c: char)
      reads this
      ensures c == At(source, pos + offset)
    {
      if pos + offset < |source| then source[pos + offset] else '\0'
    }

    /** Moves on over the characters that satisfy p. */
    method SkipWhile(p: char -> bool)
      requires pos <= |source|
      modifies this`pos
      ensures pos == old(pos) + Span(p, source, old(pos)) <= |source|
    {
      while pos < |source| && p(source[pos])
        invariant old(pos) <= pos <= |source|
        invariant pos + Span(p, source, pos) == old(pos) + Span(p, source, old(pos))
      {
        pos := pos + 1;
      }
    }

    /** After a comment opener: to the matching closer, counting nested ones. */
    method SkipBlockComment() returns (closed: bool)
      requires pos <= |source|
      modifies this`pos
      ensures pos <= |source| && (closed <==> CommentEnd(source, old(pos), 1).Some?)
      ensures pos == if closed then CommentEnd(source, old(pos), 1).value else |source|
    {
      var depth: nat := 1;
      while pos < |source| && depth > 0
        invariant pos <= |source| && CommentEnd(source, pos, depth) == CommentEnd(source, old(pos), 1)
        decreases |source| - pos
      {
        var c := source[pos];
        pos := pos + 1;
        if c == '/' && pos < |source| && source[pos] == '*' {
          pos, depth := pos + 1, depth + 1;
        } else if c == '*' && pos < |source| && source[pos] == '/' {
          pos, depth := pos + 1, depth - 1;
        }
      }
      closed := depth == 0;
    }

    /** After an opening quote: to the closing one, stepping over doubled quotes. */
    method SkipQuoted(q: char) returns (closed: bool)
      requires pos <= |source|
      modifies this`pos
      ensures pos <= |source| && (closed <==> QuotedEnd(q, source, old(pos)).Some?)
      ensures pos == if closed then QuotedEnd(q, source, old(pos)).value else |source|
    {
      while pos < |source|
        invariant pos <= |source| && QuotedEnd(q, source, pos) == QuotedEnd(q, source, old(pos))
        decreases |source| - pos
      {
        var c := source[pos];
        pos := pos + 1;
        if c == q {
          if pos < |source| && source[pos] == q {
            pos := pos + 1;
          } else {
            return true;
          }
        }
      }
      closed := false;
    }

    /** The rest of the digits of a number whose first digit has been passed. */
    method ScanMantissa() returns (float: bool)
      requires 0 < pos <= |source| && IsDigit(source[pos - 1])
      modifies this`pos
      ensures (float, pos) == Mantissa(source, old(pos) - 1) && pos <= |source|
    {
      float := false;
      SkipWhile(IsDigit);
      if PeekAt(0) == '.' && IsDigit(PeekAt(1)) {
        float := true;
        pos := pos + 1;
        SkipWhile(IsDigit);
      }
    }

    method ScanExponent(float: bool) returns (k: TokenKind)
      requires pos <= |source|
      modifies this`pos
      ensures (k, pos) == Exponent(source, old(pos), float) && pos <= |source|
    {
      k := if float then LIT_FLOAT else LIT_INTEGER;
      if (PeekAt(0) == 'e' || PeekAt(0) == 'E') && (IsDigit(PeekAt(1)) || IsSign(PeekAt(1))) {
        pos := pos + 1;
        if IsSign(PeekAt(0)) {
          pos := pos + 1;
        }
        if !IsDigit(PeekAt(0)) {
          return ERROR;
        }
        SkipWhile(IsDigit);
        k := LIT_FLOAT;
      }
    }

    /** Strings, quoted names, numbers, parameters, names; anything else is an error. */
    method ScanLonger() returns (k: TokenKind)
      requires pos < |source|
      modifies this`pos
      ensures (k, pos) == Longer(source, old(pos)) && pos <= |source|
    {
      var start, c := pos, source[pos];
      pos := pos + 1;
      if c == '\'' || c == '"' {
        var closed := SkipQuoted(c);
        return if !closed then ERROR else if c == '"' then IDENT else LIT_STRING;
      }
      if IsDigit(c) {
        var float := ScanMantissa();
        k := ScanExponent(float);
        return;
      }
      if c == '$' {
        if !IsDigit(PeekAt(0)) { return ERROR; }
        SkipWhile(IsDigit);
        return DOLLAR_NUM;
      }
      if IsAlpha(c) || c == '_' {
        SkipWhile(IsWordChar);
        return Classify(source[start..pos]);
      }
      k := ERROR;
    }

    /** One token. */
    method ScanToken() returns (k: TokenKind)
      requires pos < |source|
      modifies this`pos
      ensures (k, pos) == TokenAt(source, old(pos)) && pos <= |source|
    {
      var single := Single(source[pos]);
      if single.Some? {
        pos := pos + 1;
        return single.value;
      }
      var op := Operator(source, pos);
      if op.Some? {
        pos := op.value.1;
        return op.value.0;
      }
      k := ScanLonger();
    }

    /** A blank, a comment or a token. */
    method ScanPiece() returns (p: Piece)
      requires pos < |source|
      modifies this`pos
      ensures (p, pos) == First(source, old(pos)) && pos <= |source|
    {
      if IsBlank(source[pos]) {
        pos := pos + 1;
        p := Blank;
      } else if source[pos] == '-' && PeekAt(1) == '-' {
        pos := pos + 2;
        SkipWhile(NotNewline);
        p := LineComment;
      } else if source[pos] == '/' && PeekAt(1) == '*' {
        pos := pos + 2;
        var closed := SkipBlockComment();
        p := BlockComment(closed);
      } else {
        var k := ScanToken();
        p := Lexed(k);
      }
    }

    /** tokenize: the tokens of the source, and whether there was no error. */
    method Tokenize()
      requires pos == 0 && tokens == [] && errors == 0
      modifies this
      ensures tokens == Lex(source, 0)
      ensures errors == 0 <==> Clean(source, 0)
    {
      while pos < |source|
        invariant pos <= |source|
        invariant tokens + Lex(source, pos) == Lex(source, 0)
        invariant errors == 0 && Clean(source, pos) <==> Clean(source, 0)
        decreases |source| - pos
      {
        var start := pos;
        PieceStep(source, start, tokens);
        var p := ScanPiece();
        if p.Lexed? {
          tokens := tokens + [Lexeme(p.kind, source[start..pos])];
        }
        if Faulty(p) {
          errors := errors + 1;
        }
      }
      AddNothing(tokens);
    }
  }

  lemma PieceStep(s: string, i: nat, tokens: seq<Lexeme>)
    requires i < |s|
    ensures var p := First(s, i);
            tokens + Lex(s, i) == (if p.0.Lexed? then tokens + [Lexeme(p.0.kind, s[i..p.1])] else tokens) + Lex(s, p.1)
    ensures Clean(s, i) <==> !Faulty(First(s, i).0) && Clean(s, First(s, i).1)
  {
    var p := First(s, i);
    if p.0.Lexed? {
      Regroup(tokens, [Lexeme(p.0.kind, s[i..p.1])], Lex(s, p.1));
    } else {
      AddNothing(Lex(s, p.1));
    }
  }
}
