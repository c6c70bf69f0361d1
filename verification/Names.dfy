/** Names as the tokenizer leaves them, and why a dotted list of them can be taken apart again. */
module Names {
  import opened Results
  import opened Seqs
  import opened Types
  import opened Parser
  import opened Lexer

  /** A word or a star, which holds neither dot nor double quote, or a text closed in double quotes, quotes kept. */
  predicate LexedName(s: string) {
    if s != [] && s[0] == '"' then QuotedEnd('"', s, 1) == Some(|s|) else '.' !in s && '"' !in s
  }

  /** Every identifier token is such a name. */
  lemma IdentifierIsLexedName(s: string, i: nat)
    requires i < |s| && First(s, i).0 == Lexed(IDENT)
    ensures LexedName(s[i..First(s, i).1])
  {
    var end := First(s, i).1;
    assert Single(s[i]).None? && Operator(s, i).None?;
    assert Longer(s, i) == (IDENT, end);
    if s[i] == '"' {
      QuotedInside('"', s, i, i + 1, end);
    } else {
      WordHasNoDot(s, i);
    }
  }

  lemma WordHasNoDot(s: string, i: nat)
    requires i < |s| && s[i] != '"' && Longer(s, i).0 == IDENT
    ensures LexedName(s[i..Longer(s, i).1])
  {
    var end := Longer(s, i).1;
    assert end == i + 1 + Span(IsWordChar, s, i + 1);
    assert forall k :: i < k < end ==> IsWordChar(s[k]);
  }

  lemma {:induction false} QuotedInside(q: char, s: string, start: nat, i: nat, end: nat)
    requires start <= i <= end <= |s| && QuotedEnd(q, s, i) == Some(end)
    ensures QuotedEnd(q, s[start..end], i - start) == Some(end - start)
    decreases end - i
  {
    var t := s[start..end];
    if s[i] != q {
      QuotedInside(q, s, start, i + 1, end);
    } else if i + 1 < |s| && s[i + 1] == q {
      QuotedInside(q, s, start, i + 2, end);
    }
  }

  lemma {:induction false} QuotedEndExtends(q: char, u: string, rest: string, i: nat)
    requires i <= |u| && QuotedEnd(q, u, i) == Some(|u|) && (rest == [] || rest[0] != q)
    ensures QuotedEnd(q, u + rest, i) == Some(|u|)
    decreases |u| - i
  {
    if u[i] != q {
      QuotedEndExtends(q, u, rest, i + 1);
    } else if i + 1 < |u| && u[i + 1] == q {
      QuotedEndExtends(q, u, rest, i + 2);
    }
  }

  function FirstDot(s: string): (n: nat)
    ensures n <= |s|
  {
    if s == [] || s[0] == '.' then 0 else 1 + FirstDot(s[1..])
  }

  lemma {:induction false} FirstDotAfter(u: string, rest: string)
    requires '.' !in u && (rest == [] || rest[0] == '.')
    ensures FirstDot(u + rest) == |u|
    decreases |u|
  {
    if u == [] {
      assert u + rest == rest;
    } else {
      FirstDotAfter(u[1..], rest);
      assert (u + rest)[1..] == u[1..] + rest;
    }
  }

  /** Where the first name of a dotted list ends. */
  function NameEnd(s: string): nat {
    if s != [] && s[0] == '"' then
      var end := QuotedEnd('"', s, 1);
      if end.Some? then end.value else |s|
    else FirstDot(s)
  }

  lemma NameEndsThere(u: string, rest: string)
    requires LexedName(u) && (rest == [] || rest[0] == '.')
    ensures NameEnd(u + rest) == |u|
  {
    if u != [] && u[0] == '"' {
      QuotedEndExtends('"', u, rest, 1);
    } else {
      FirstDotAfter(u, rest);
    }
  }

  lemma SplitName(u: string, a: string, w: string, b: string)
    requires LexedName(u) && LexedName(w)
    ensures u + ("." + a) == w + ("." + b) <==> u == w && a == b
    ensures u != w + ("." + b)
  {
    var x, y := u + ("." + a), w + ("." + b);
    NameEndsThere(u, "." + a);
    NameEndsThere(w, "." + b);
    NameEndsThere(u, []);
    AddNothing(u);
    assert u == x[..|u|] && w == y[..|w|] && a == x[|u| + 1..] && b == y[|w| + 1..];
  }

  lemma {:induction false} LowerKeepsQuotes(s: string, i: nat)
    requires i <= |s|
    ensures QuotedEnd('"', Lower(s), i) == QuotedEnd('"', s, i)
    decreases |s| - i
  {
    if i < |s| {
      assert Lower(s)[i] == '"' <==> s[i] == '"';
      assert i + 1 < |s| ==> (Lower(s)[i + 1] == '"' <==> s[i + 1] == '"');
      if s[i] != '"' {
        LowerKeepsQuotes(s, i + 1);
      } else if i + 1 < |s| && s[i + 1] == '"' {
        LowerKeepsQuotes(s, i + 2);
      }
    }
  }

  lemma LowerKeepsNames(s: string)
    ensures LexedName(Lower(s)) <==> LexedName(s)
  {
    LowerKeepsDots(s);
    assert forall k :: 0 <= k < |s| ==> (Lower(s)[k] == '"' <==> s[k] == '"');
    if s != [] {
      LowerKeepsQuotes(s, 1);
    }
  }

  lemma LowerConcat(a: string, b: string)
    ensures Lower(a + b) == Lower(a) + Lower(b)
  {
  }

  /** No name is a qualified name, whatever the case of its letters. */
  lemma NameIsNotQualified(name: string, table: string, column: string)
    requires LexedName(name) && LexedName(table)
    ensures !SameName(name, table + "." + column)
  {
    LowerKeepsNames(name);
    LowerKeepsNames(table);
    Regroup(table, ".", column);
    LowerConcat(table, "." + column);
    LowerConcat(".", column);
    SplitName(Lower(name), "", Lower(table), Lower(column));
    assert Lower(".") == ".";
  }
}
