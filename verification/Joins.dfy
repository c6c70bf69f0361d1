/** Joins: the nested loop over both inputs, its SQL meaning, and how the join types relate. */
module Joins {
  import opened Results
  import opened Seqs
  import opened Types
  import opened Ast
  import opened Eval

  /** Which left row matches which right row. */
  type Matrix = seq<seq<bool>>

  predicate Shaped(m: Matrix, ls: seq<Row>, rs: seq<Row>) {
    |m| == |ls| && forall i :: 0 <= i < |m| ==> |m[i]| == |rs|
  }

  function NullRow(n: nat): (r: Row)
    ensures |r| == n
  {
    seq(n, _ => Null)
  }

  // ---- The join condition ----

  function PairMatches(pow: Pow, jtype: JoinType, cond: Option<Expr>, schema: Schema, l: Row, r: Row): Result<bool> {
    if jtype == CROSS || cond.None? then Ok(true) else EvaluatePredicate(pow, cond.value, schema, l + r)
  }

  function MatchRow(pow: Pow, jtype: JoinType, cond: Option<Expr>, schema: Schema, l: Row, rs: seq<Row>): (r: Result<seq<bool>>)
    ensures r.Ok? ==> |r.value| == |rs|
  {
    if rs == [] then Ok([])
    else
      var n := |rs| - 1;
      var before :- MatchRow(pow, jtype, cond, schema, l, rs[..n]);
      var ok :- PairMatches(pow, jtype, cond, schema, l, rs[n]);
      Ok(before + [ok])
  }

  function MatchMatrix(pow: Pow, jtype: JoinType, cond: Option<Expr>, schema: Schema, ls: seq<Row>, rs: seq<Row>): (r: Result<Matrix>)
    ensures r.Ok? ==> Shaped(r.value, ls, rs)
  {
    if ls == [] then Ok([])
    else
      var n := |ls| - 1;
      var before :- MatchMatrix(pow, jtype, cond, schema, ls[..n], rs);
      var row :- MatchRow(pow, jtype, cond, schema, ls[n], rs);
      Ok(before + [row])
  }

  // ---- The rows of a join ----

  /** The left row paired with each right row it matches. */
  function Pairs(l: Row, rs: seq<Row>, row: seq<bool>): seq<Row>
    requires |row| == |rs|
  {
    if rs == [] then []
    else
      var n := |rs| - 1;
      if row[n] then Pairs(l, rs[..n], row[..n]) + [l + rs[n]] else Pairs(l, rs[..n], row[..n])
  }

  /** For each left row its pairs; with `extend`, an unmatched left row with NULLs on the right. */
  function LeftRows(ls: seq<Row>, rs: seq<Row>, m: Matrix, extend: bool, rcols: nat): seq<Row>
    requires Shaped(m, ls, rs)
  {
    if ls == [] then []
    else
      var n := |ls| - 1;
      LeftRows(ls[..n], rs, m[..n], extend, rcols)
      + Pairs(ls[n], rs, m[n])
      + (if extend && true !in m[n] then [ls[n] + NullRow(rcols)] else [])
  }

  predicate RightMatched(m: Matrix, j: nat) {
    exists i :: 0 <= i < |m| && j < |m[i]| && m[i][j]
  }

  /** The unmatched right rows with NULLs on the left. */
  function UnmatchedRight(rs: seq<Row>, n: nat, m: Matrix, lcols: nat): seq<Row>
    requires n <= |rs|
  {
    if n == 0 then []
    else if RightMatched(m, n - 1) then UnmatchedRight(rs, n - 1, m, lcols)
    else UnmatchedRight(rs, n - 1, m, lcols) + [NullRow(lcols) + rs[n - 1]]
  }

  predicate KeepsLeft(jtype: JoinType) {
    jtype == LEFT || jtype == FULL
  }

  predicate KeepsRight(jtype: JoinType) {
    jtype == RIGHT || jtype == FULL
  }

  function JoinedRows(jtype: JoinType, ls: seq<Row>, rs: seq<Row>, m: Matrix, lcols: nat, rcols: nat): seq<Row>
    requires Shaped(m, ls, rs)
  {
    LeftRows(ls, rs, m, KeepsLeft(jtype), rcols)
    + if KeepsRight(jtype) then UnmatchedRight(rs, |rs|, m, lcols) else []
  }

  function JoinRows(pow: Pow, jtype: JoinType, cond: Option<Expr>, ls: seq<Row>, rs: seq<Row>, lschema: Schema, rschema: Schema): Result<seq<Row>> {
    var m :- MatchMatrix(pow, jtype, cond, lschema + rschema, ls, rs);
    Ok(JoinedRows(jtype, ls, rs, m, |lschema|, |rschema|))
  }

  // ---- The nested loop ----

  lemma {:induction false} MatchErrorStays(pow: Pow, jtype: JoinType, cond: Option<Expr>, schema: Schema, l: Row, rs: seq<Row>, n: nat)
    requires n <= |rs| && MatchRow(pow, jtype, cond, schema, l, rs[..n]).Err?
    ensures MatchRow(pow, jtype, cond, schema, l, rs).Err?
    decreases |rs|
  {
    if n < |rs| {
      assert rs[..|rs| - 1][..n] == rs[..n];
      MatchErrorStays(pow, jtype, cond, schema, l, rs[..|rs| - 1], n);
    } else {
      assert rs[..n] == rs;
    }
  }

  lemma {:induction false} MatrixErrorStays(pow: Pow, jtype: JoinType, cond: Option<Expr>, schema: Schema, ls: seq<Row>, rs: seq<Row>, n: nat)
    requires n <= |ls| && MatchMatrix(pow, jtype, cond, schema, ls[..n], rs).Err?
    ensures MatchMatrix(pow, jtype, cond, schema, ls, rs).Err?
    decreases |ls|
  {
    if n < |ls| {
      assert ls[..|ls| - 1][..n] == ls[..n];
      MatrixErrorStays(pow, jtype, cond, schema, ls[..|ls| - 1], rs, n);
    } else {
      assert ls[..n] == ls;
    }
  }

  predicate Merged(before: seq<bool>, row: seq<bool>, after: seq<bool>) {
    |before| == |row| == |after| && forall j :: 0 <= j < |row| ==> after[j] == (before[j] || row[j])
  }

  /** The right flags after the first n right rows were met. */
  predicate Marked(matched: seq<bool>, flags: seq<bool>, after: seq<bool>) {
    |flags| <= |matched| == |after| && forall j :: 0 <= j < |matched| ==> after[j] == (matched[j] || (j < |flags| && flags[j]))
  }

  /** The first n right rows have been compared with l. */
  ghost predicate MatchedUpTo(pow: Pow, jtype: JoinType, cond: Option<Expr>, schema: Schema, l: Row, rs: seq<Row>, n: nat, flags: seq<bool>, out: seq<Row>) {
    n <= |rs| && MatchRow(pow, jtype, cond, schema, l, rs[..n]) == Ok(flags) && out == Pairs(l, rs[..n], flags)
  }

  lemma MatchOneMore(pow: Pow, jtype: JoinType, cond: Option<Expr>, schema: Schema, l: Row, rs: seq<Row>, ri: nat, flags: seq<bool>, out: seq<Row>)
    requires ri < |rs| && MatchedUpTo(pow, jtype, cond, schema, l, rs, ri, flags, out)
    ensures var ok := PairMatches(pow, jtype, cond, schema, l, rs[ri]);
            match ok
            case Err => MatchRow(pow, jtype, cond, schema, l, rs[..ri + 1]).Err?
            case Ok(b) => MatchedUpTo(pow, jtype, cond, schema, l, rs, ri + 1, flags + [b], if b then out + [l + rs[ri]] else out)
  {
    PrefixSnoc(rs, ri);
    assert forall ok: bool :: (flags + [ok])[..ri] == flags;
  }

  lemma MarkedOneMore(matched: seq<bool>, flags: seq<bool>, after: seq<bool>, ok: bool)
    requires Marked(matched, flags, after) && |flags| < |matched|
    ensures Marked(matched, flags + [ok], if ok then after[|flags| := true] else after)
    ensures true in flags + [ok] <==> ok || true in flags
  {
  }

  lemma MarkedAll(matched: seq<bool>, flags: seq<bool>, after: seq<bool>)
    requires Marked(matched, flags, after) && |flags| == |matched|
    ensures Merged(matched, flags, after)
  {
  }

  /** One left row against all right rows. */
  method JoinLeftRow(pow: Pow, jtype: JoinType, cond: Option<Expr>, schema: Schema, l: Row, rs: seq<Row>, matched: seq<bool>)
    returns (r: Result<(seq<Row>, bool, seq<bool>)>, ghost row: Result<seq<bool>>)
    requires |matched| == |rs|
    ensures row == MatchRow(pow, jtype, cond, schema, l, rs)
    ensures r.Ok? <==> row.Ok?
    ensures r.Ok? ==> r.value.0 == Pairs(l, rs, row.value) && (r.value.1 <==> true in row.value)
    ensures r.Ok? ==> Merged(matched, row.value, r.value.2)
  {
    var out: seq<Row>, leftMatched, rightMatched := [], false, matched;
    ghost var flags: seq<bool> := [];
    for ri := 0 to |rs|
      invariant MatchedUpTo(pow, jtype, cond, schema, l, rs, ri, flags, out)
      invariant Marked(matched, flags, rightMatched) && (leftMatched <==> true in flags)
    {
      MatchOneMore(pow, jtype, cond, schema, l, rs, ri, flags, out);
      var ok := PairMatches(pow, jtype, cond, schema, l, rs[ri]);
      if ok.Err? {
        MatchErrorStays(pow, jtype, cond, schema, l, rs, ri + 1);
        return Err, Err;
      }
      MarkedOneMore(matched, flags, rightMatched, ok.value);
      if ok.value {
        out := out + [l + rs[ri]];
        leftMatched := true;
        rightMatched := rightMatched[ri := true];
      }
      flags := flags + [ok.value];
    }
    WholePrefix(rs);
    MarkedAll(matched, flags, rightMatched);
    r, row := Ok((out, leftMatched, rightMatched)), Ok(flags);
  }

  lemma LeftRowsStep(pow: Pow, jtype: JoinType, cond: Option<Expr>, schema: Schema, ls: seq<Row>, li: nat, rs: seq<Row>, m: Matrix, row: seq<bool>, extend: bool, rcols: nat)
    requires li < |ls| && MatchMatrix(pow, jtype, cond, schema, ls[..li], rs) == Ok(m)
    requires MatchRow(pow, jtype, cond, schema, ls[li], rs) == Ok(row)
    ensures MatchMatrix(pow, jtype, cond, schema, ls[..li + 1], rs) == Ok(m + [row])
    ensures LeftRows(ls[..li + 1], rs, m + [row], extend, rcols)
         == LeftRows(ls[..li], rs, m, extend, rcols) + Pairs(ls[li], rs, row) + if extend && true !in row then [ls[li] + NullRow(rcols)] else []
  {
    assert ls[..li + 1][..li] == ls[..li] && (m + [row])[..li] == m;
  }

  /** Flag j tells whether right row j found a partner. */
  ghost predicate Flags(flags: seq<bool>, m: Matrix, n: nat) {
    |flags| == n && forall j :: 0 <= j < n ==> flags[j] == RightMatched(m, j)
  }

  /** Every left row against all right rows. */
  method JoinLeftRows(pow: Pow, jtype: JoinType, cond: Option<Expr>, schema: Schema, ls: seq<Row>, rs: seq<Row>, rcols: nat)
    returns (r: Result<(seq<Row>, seq<bool>)>, ghost m: Matrix)
    ensures r.Ok? <==> MatchMatrix(pow, jtype, cond, schema, ls, rs).Ok?
    ensures r.Ok? ==> MatchMatrix(pow, jtype, cond, schema, ls, rs) == Ok(m)
    ensures r.Ok? ==> r.value.0 == LeftRows(ls, rs, m, KeepsLeft(jtype), rcols) && Flags(r.value.1, m, |rs|)
  {
    var out: seq<Row> := [];
    var rightMatched := seq(|rs|, _ => false);
    m := [];
    for li := 0 to |ls|
      invariant MatchMatrix(pow, jtype, cond, schema, ls[..li], rs) == Ok(m)
      invariant out == LeftRows(ls[..li], rs, m, KeepsLeft(jtype), rcols)
      invariant Flags(rightMatched, m, |rs|)
    {
      var joined, row := JoinLeftRow(pow, jtype, cond, schema, ls[li], rs, rightMatched);
      if joined.Err? {
        assert ls[..li + 1][..li] == ls[..li];
        MatrixErrorStays(pow, jtype, cond, schema, ls, rs, li + 1);
        r := Err;
        return;
      }
      var (pairs, leftMatched, flags) := joined.value;
      // LEFT / FULL: an unmatched left row with NULLs on the right.
      out := out + pairs + (if KeepsLeft(jtype) && !leftMatched then [ls[li] + NullRow(rcols)] else []);
      FlagsAfter(rightMatched, m, row.value, flags, |rs|);
      LeftRowsStep(pow, jtype, cond, schema, ls, li, rs, m, row.value, KeepsLeft(jtype), rcols);
      m := m + [row.value];
      rightMatched := flags;
    }
    assert ls[..|ls|] == ls;
    r := Ok((out, rightMatched));
  }

  method EmitUnmatchedRight(rs: seq<Row>, rightMatched: seq<bool>, ghost m: Matrix, lcols: nat) returns (out: seq<Row>)
    requires Flags(rightMatched, m, |rs|)
    ensures out == UnmatchedRight(rs, |rs|, m, lcols)
  {
    out := [];
    for ri := 0 to |rs|
      invariant out == UnmatchedRight(rs, ri, m, lcols)
    {
      if !rightMatched[ri] {
        out := out + [NullRow(lcols) + rs[ri]];
      }
    }
  }

  /** computeResult: the nested loop, then the right rows that found no partner. */
  method ComputeJoin(pow: Pow, jtype: JoinType, cond: Option<Expr>, ls: seq<Row>, rs: seq<Row>, lschema: Schema, rschema: Schema)
    returns (r: Result<seq<Row>>)
    ensures r == JoinRows(pow, jtype, cond, ls, rs, lschema, rschema)
  {
    var left, m := JoinLeftRows(pow, jtype, cond, lschema + rschema, ls, rs, |rschema|);
    if left.Err? {
      return Err;
    }
    var right: seq<Row> := [];
    if KeepsRight(jtype) {
      right := EmitUnmatchedRight(rs, left.value.1, m, |lschema|);
    }
    r := Ok(left.value.0 + right);
  }

  lemma FlagsAfter(flags: seq<bool>, m: Matrix, row: seq<bool>, flags': seq<bool>, n: nat)
    requires Flags(flags, m, n) && Merged(flags, row, flags')
    ensures Flags(flags', m + [row], n)
  {
    forall j | 0 <= j < n ensures flags'[j] == RightMatched(m + [row], j) {
      if RightMatched(m, j) {
        var i :| 0 <= i < |m| && j < |m[i]| && m[i][j];
        assert (m + [row])[i][j];
      }
      if row[j] {
        assert (m + [row])[|m|][j];
      }
    }
  }

  // ---- What the join types mean ----

  lemma {:induction false} PairsMembers(l: Row, rs: seq<Row>, row: seq<bool>, x: Row)
    requires |row| == |rs|
    ensures x in Pairs(l, rs, row) <==> exists j :: 0 <= j < |rs| && row[j] && x == l + rs[j]
    decreases |rs|
  {
    if rs != [] {
      var n := |rs| - 1;
      PairsMembers(l, rs[..n], row[..n], x);
      if j :| 0 <= j < |rs| && row[j] && x == l + rs[j] {
        assert j < n ==> row[..n][j] && x == l + rs[..n][j];
      }
    }
  }

  /** An INNER (or CROSS) join holds exactly the matching pairs. */
  lemma {:induction false} InnerMembers(ls: seq<Row>, rs: seq<Row>, m: Matrix, x: Row, rcols: nat)
    requires Shaped(m, ls, rs)
    ensures x in LeftRows(ls, rs, m, false, rcols) <==> exists i, j :: 0 <= i < |ls| && 0 <= j < |rs| && m[i][j] && x == ls[i] + rs[j]
    decreases |ls|
  {
    if ls != [] {
      var n := |ls| - 1;
      InnerMembers(ls[..n], rs, m[..n], x, rcols);
      PairsMembers(ls[n], rs, m[n], x);
      if i, j :| 0 <= i < |ls| && 0 <= j < |rs| && m[i][j] && x == ls[i] + rs[j] {
        assert i < n ==> m[..n][i][j] && x == ls[..n][i] + rs[j];
      }
      if x in LeftRows(ls[..n], rs, m[..n], false, rcols) {
        var i, j :| 0 <= i < n && 0 <= j < |rs| && m[..n][i][j] && x == ls[..n][i] + rs[j];
        assert m[i][j] && x == ls[i] + rs[j];
      }
    }
  }

  /** The left rows without a partner, NULL-extended. */
  function UnmatchedLeft(ls: seq<Row>, m: Matrix, rcols: nat): seq<Row>
    requires |m| == |ls|
  {
    if ls == [] then []
    else
      var n := |ls| - 1;
      UnmatchedLeft(ls[..n], m[..n], rcols) + if true in m[n] then [] else [ls[n] + NullRow(rcols)]
  }

  /** Keeping the left side adds exactly the unmatched left rows, and changes nothing else. */
  lemma {:induction false} LeftAddsUnmatched(ls: seq<Row>, rs: seq<Row>, m: Matrix, rcols: nat)
    requires Shaped(m, ls, rs)
    ensures multiset(LeftRows(ls, rs, m, true, rcols)) == multiset(LeftRows(ls, rs, m, false, rcols)) + multiset(UnmatchedLeft(ls, m, rcols))
    decreases |ls|
  {
    if ls != [] {
      LeftAddsUnmatched(ls[..|ls| - 1], rs, m[..|ls| - 1], rcols);
    }
  }

  /** FULL is INNER plus the unmatched rows of both sides. */
  lemma FullIsInnerPlusUnmatched(ls: seq<Row>, rs: seq<Row>, m: Matrix, lcols: nat, rcols: nat)
    requires Shaped(m, ls, rs)
    ensures multiset(JoinedRows(FULL, ls, rs, m, lcols, rcols))
         == multiset(JoinedRows(INNER, ls, rs, m, lcols, rcols)) + multiset(UnmatchedLeft(ls, m, rcols)) + multiset(UnmatchedRight(rs, |rs|, m, lcols))
    ensures |JoinedRows(FULL, ls, rs, m, lcols, rcols)|
         == |JoinedRows(INNER, ls, rs, m, lcols, rcols)| + |UnmatchedLeft(ls, m, rcols)| + |UnmatchedRight(rs, |rs|, m, lcols)|
  {
    LeftAddsUnmatched(ls, rs, m, rcols);
    var inner, full := JoinedRows(INNER, ls, rs, m, lcols, rcols), JoinedRows(FULL, ls, rs, m, lcols, rcols);
    assert inner == LeftRows(ls, rs, m, false, rcols);
    assert |full| == |multiset(full)| && |inner| == |multiset(inner)|;
    assert |multiset(UnmatchedLeft(ls, m, rcols))| == |UnmatchedLeft(ls, m, rcols)|;
    assert |multiset(UnmatchedRight(rs, |rs|, m, lcols))| == |UnmatchedRight(rs, |rs|, m, lcols)|;
  }

  // ---- RIGHT JOIN is LEFT JOIN with the sides exchanged ----

  function Transpose(m: Matrix, rcount: nat): (t: Matrix)
    requires forall i :: 0 <= i < |m| ==> |m[i]| == rcount
    ensures |t| == rcount && forall j :: 0 <= j < rcount ==> |t[j]| == |m|
    ensures forall i, j :: 0 <= i < |m| && 0 <= j < rcount ==> t[j][i] == m[i][j]
  {
    seq(rcount, j requires 0 <= j < rcount => seq(|m|, i requires 0 <= i < |m| => m[i][j]))
  }

  /** Moves the first n columns behind the others. */
  function SwapColumns(row: Row, n: nat): Row {
    if n <= |row| then row[n..] + row[..n] else row
  }

  function SwapAll(rows: seq<Row>, n: nat): (r: seq<Row>)
    ensures |r| == |rows|
  {
    seq(|rows|, i requires 0 <= i < |rows| => SwapColumns(rows[i], n))
  }

  lemma SwapAllConcat(a: seq<Row>, b: seq<Row>, n: nat)
    ensures SwapAll(a + b, n) == SwapAll(a, n) + SwapAll(b, n)
  {
  }

  predicate AllOfLength(rows: seq<Row>, n: nat) {
    forall i :: 0 <= i < |rows| ==> |rows[i]| == n
  }

  lemma {:induction false} PairsGrow(r: Row, ls: seq<Row>, row: seq<bool>)
    requires |row| == |ls| > 0
    ensures Pairs(r, ls, row) == Pairs(r, ls[..|ls| - 1], row[..|ls| - 1]) + if row[|ls| - 1] then [r + ls[|ls| - 1]] else []
  {
  }

  function ColumnsBefore(m: Matrix, n: nat): (m': Matrix)
    requires forall i :: 0 <= i < |m| ==> n <= |m[i]|
    ensures |m'| == |m| && forall i :: 0 <= i < |m| ==> m'[i] == m[i][..n]
  {
    seq(|m|, i requires 0 <= i < |m| => m[i][..n])
  }

  /** Exchanging the loops of an inner join permutes its rows. */
  lemma {:induction false} ExchangeLoops(ls: seq<Row>, rs: seq<Row>, m: Matrix, t: Matrix, rcols: nat, lcols: nat)
    requires Shaped(m, ls, rs) && AllOfLength(rs, rcols)
    requires Shaped(t, rs, ls) && forall i, j :: 0 <= i < |ls| && 0 <= j < |rs| ==> t[j][i] == m[i][j]
    ensures multiset(SwapAll(LeftRows(rs, ls, t, false, lcols), rcols)) == multiset(LeftRows(ls, rs, m, false, rcols))
    decreases |rs|
  {
    if rs == [] {
      NoPairs(ls, m, rcols);
    } else {
      var n := |rs| - 1;
      ExchangeLoops(ls, rs[..n], ColumnsBefore(m, n), t[..n], rcols, lcols);
      LastLoop(rs, ls, t, lcols, rcols);
      LastRightRow(ls, rs, m, ColumnsBefore(m, n), t[n], rcols);
    }
  }

  lemma LastLoop(rs: seq<Row>, ls: seq<Row>, t: Matrix, lcols: nat, rcols: nat)
    requires Shaped(t, rs, ls) && rs != []
    ensures var n := |rs| - 1;
            multiset(SwapAll(LeftRows(rs, ls, t, false, lcols), rcols))
            == multiset(SwapAll(LeftRows(rs[..n], ls, t[..n], false, lcols), rcols)) + multiset(SwapAll(Pairs(rs[n], ls, t[n]), rcols))
  {
    var n := |rs| - 1;
    var a, b := LeftRows(rs[..n], ls, t[..n], false, lcols), Pairs(rs[n], ls, t[n]);
    assert LeftRows(rs, ls, t, false, lcols) == a + b;
    SwapAllConcat(a, b, rcols);
  }

  lemma {:induction false} NoPairs(ls: seq<Row>, m: Matrix, rcols: nat)
    requires Shaped(m, ls, [])
    ensures LeftRows(ls, [], m, false, rcols) == []
    decreases |ls|
  {
    if ls != [] {
      NoPairs(ls[..|ls| - 1], m[..|ls| - 1], rcols);
    }
  }

  lemma AddToBoth(a: seq<Row>, b: seq<Row>, c: seq<Row>, p: seq<Row>, q: seq<Row>)
    requires multiset(a) == multiset(b) + multiset(c)
    ensures multiset(a + (p + q)) == multiset(b + p) + multiset(c + q)
  {
  }

  /** One more right row adds, over all left rows, its own swapped pairs. */
  lemma {:induction false} LastRightRow(ls: seq<Row>, rs: seq<Row>, m: Matrix, m': Matrix, flags: seq<bool>, rcols: nat)
    requires rs != [] && Shaped(m, ls, rs) && Shaped(m', ls, rs[..|rs| - 1]) && |flags| == |ls| && |rs[|rs| - 1]| == rcols
    requires forall i :: 0 <= i < |ls| ==> m'[i] == m[i][..|rs| - 1] && flags[i] == m[i][|rs| - 1]
    ensures multiset(LeftRows(ls, rs, m, false, rcols))
         == multiset(LeftRows(ls, rs[..|rs| - 1], m', false, rcols)) + multiset(SwapAll(Pairs(rs[|rs| - 1], ls, flags), rcols))
    decreases |ls|
  {
    if ls != [] {
      var k, n := |ls| - 1, |rs| - 1;
      LastRightRow(ls[..k], rs, m[..k], m'[..k], flags[..k], rcols);
      LastLeftRow(ls, rs, m, rcols);
      LeftRowsLast(ls, rs[..n], m', rcols);
      PairsGrow(rs[n], ls, flags);
      SwapOne(Pairs(rs[n], ls[..k], flags[..k]), rs[n], ls[k], flags[k], rcols);
      AddToBoth(LeftRows(ls[..k], rs, m[..k], false, rcols), LeftRows(ls[..k], rs[..n], m'[..k], false, rcols),
                SwapAll(Pairs(rs[n], ls[..k], flags[..k]), rcols), Pairs(ls[k], rs[..n], m'[k]), if flags[k] then [ls[k] + rs[n]] else []);
    }
  }

  lemma LeftRowsLast(ls: seq<Row>, rs: seq<Row>, m: Matrix, rcols: nat)
    requires ls != [] && Shaped(m, ls, rs)
    ensures var k := |ls| - 1;
            LeftRows(ls, rs, m, false, rcols) == LeftRows(ls[..k], rs, m[..k], false, rcols) + Pairs(ls[k], rs, m[k])
  {
  }

  lemma LastLeftRow(ls: seq<Row>, rs: seq<Row>, m: Matrix, rcols: nat)
    requires ls != [] && rs != [] && Shaped(m, ls, rs)
    ensures var k, n := |ls| - 1, |rs| - 1;
            LeftRows(ls, rs, m, false, rcols)
            == LeftRows(ls[..k], rs, m[..k], false, rcols) + (Pairs(ls[k], rs[..n], m[k][..n]) + if m[k][n] then [ls[k] + rs[n]] else [])
  {
    LeftRowsLast(ls, rs, m, rcols);
    PairsGrow(ls[|ls| - 1], rs, m[|ls| - 1]);
  }

  lemma SwapOne(before: seq<Row>, r: Row, l: Row, matched: bool, rcols: nat)
    requires |r| == rcols
    ensures SwapAll(before + (if matched then [r + l] else []), rcols) == SwapAll(before, rcols) + if matched then [l + r] else []
  {
    assert SwapColumns(r + l, rcols) == l + r;
  }

  /** m and t are one matrix, read by left and by right rows. */
  ghost predicate Transposed(m: Matrix, t: Matrix, lcount: nat, rcount: nat) {
    && |m| == lcount && (forall i :: 0 <= i < lcount ==> |m[i]| == rcount)
    && |t| == rcount && (forall j :: 0 <= j < rcount ==> |t[j]| == lcount)
    && forall i, j :: 0 <= i < lcount && 0 <= j < rcount ==> t[j][i] == m[i][j]
  }

  lemma MatchedExchanged(m: Matrix, t: Matrix, lcount: nat, rcount: nat, j: nat)
    requires Transposed(m, t, lcount, rcount) && j < rcount
    ensures RightMatched(m, j) <==> true in t[j]
  {
    if RightMatched(m, j) {
      var i :| 0 <= i < |m| && j < |m[i]| && m[i][j];
      assert t[j][i];
    }
    if true in t[j] {
      var i :| 0 <= i < |t[j]| && t[j][i];
      assert m[i][j];
    }
  }

  lemma {:induction false} UnmatchedExchanged(rs: seq<Row>, n: nat, m: Matrix, t: Matrix, lcols: nat, rcols: nat, lcount: nat)
    requires n <= |rs| && AllOfLength(rs, rcols) && Transposed(m, t, lcount, |rs|)
    ensures SwapAll(UnmatchedLeft(rs[..n], t[..n], lcols), rcols) == UnmatchedRight(rs, n, m, lcols)
  {
    if n > 0 {
      UnmatchedExchanged(rs, n - 1, m, t, lcols, rcols, lcount);
      MatchedExchanged(m, t, lcount, |rs|, n - 1);
      assert rs[..n][..n - 1] == rs[..n - 1] && t[..n][..n - 1] == t[..n - 1];
      var r := rs[n - 1];
      var last := if true in t[n - 1] then [] else [r + NullRow(lcols)];
      SwapAllConcat(UnmatchedLeft(rs[..n - 1], t[..n - 1], lcols), last, rcols);
      assert SwapColumns(r + NullRow(lcols), rcols) == NullRow(lcols) + r;
    }
  }

  /** LeftAddsUnmatched, with swapped columns. */
  lemma {:induction false} SwappedLeftAddsUnmatched(ls: seq<Row>, rs: seq<Row>, m: Matrix, rcols: nat, k: nat)
    requires Shaped(m, ls, rs)
    ensures multiset(SwapAll(LeftRows(ls, rs, m, true, rcols), k))
         == multiset(SwapAll(LeftRows(ls, rs, m, false, rcols), k)) + multiset(SwapAll(UnmatchedLeft(ls, m, rcols), k))
    decreases |ls|
  {
    if ls != [] {
      var n := |ls| - 1;
      SwappedLeftAddsUnmatched(ls[..n], rs, m[..n], rcols, k);
      var pairs := Pairs(ls[n], rs, m[n]);
      var extra := if true in m[n] then [] else [ls[n] + NullRow(rcols)];
      var kept, plain, alone := LeftRows(ls[..n], rs, m[..n], true, rcols), LeftRows(ls[..n], rs, m[..n], false, rcols), UnmatchedLeft(ls[..n], m[..n], rcols);
      assert LeftRows(ls, rs, m, true, rcols) == kept + pairs + extra;
      assert LeftRows(ls, rs, m, false, rcols) == plain + pairs;
      SwapAllConcat(kept + pairs, extra, k);
      SwapAllConcat(kept, pairs, k);
      SwapAllConcat(plain, pairs, k);
      SwapAllConcat(alone, extra, k);
    }
  }

  /** RIGHT JOIN is a permutation of the LEFT JOIN of the exchanged inputs, with the columns swapped back. */
  lemma RightIsFlippedLeft(ls: seq<Row>, rs: seq<Row>, m: Matrix, lcols: nat, rcols: nat)
    requires Shaped(m, ls, rs) && AllOfLength(rs, rcols)
    ensures multiset(JoinedRows(RIGHT, ls, rs, m, lcols, rcols))
         == multiset(SwapAll(JoinedRows(LEFT, rs, ls, Transpose(m, |rs|), rcols, lcols), rcols))
  {
    var t := Transpose(m, |rs|);
    ExchangeLoops(ls, rs, m, t, rcols, lcols);
    SwappedLeftAddsUnmatched(rs, ls, t, lcols, rcols);
    UnmatchedExchanged(rs, |rs|, m, t, lcols, rcols, |ls|);
    assert rs[..|rs|] == rs && t[..|rs|] == t;
    JoinedAsLoops(ls, rs, m, t, lcols, rcols);
  }

  lemma JoinedAsLoops(ls: seq<Row>, rs: seq<Row>, m: Matrix, t: Matrix, lcols: nat, rcols: nat)
    requires Shaped(m, ls, rs) && Shaped(t, rs, ls)
    ensures JoinedRows(LEFT, rs, ls, t, rcols, lcols) == LeftRows(rs, ls, t, true, lcols)
    ensures multiset(JoinedRows(RIGHT, ls, rs, m, lcols, rcols))
         == multiset(LeftRows(ls, rs, m, false, rcols)) + multiset(UnmatchedRight(rs, |rs|, m, lcols))
  {
  }

  // ---- ... and the condition does not mind the exchange ----

  predicate DistinctNames(s: Schema) {
    forall i, j :: 0 <= i < j < |s| ==> !SameName(s[i].name, s[j].name)
  }

  lemma IndexOfIs(s: Schema, name: string, i: int)
    requires DistinctNames(s) && 0 <= i < |s| && SameName(s[i].name, name)
    ensures IndexOf(s, name) == i
  {
  }

  lemma IndexExchanged(ls: Schema, rs: Schema, name: string)
    requires DistinctNames(ls + rs)
    ensures var i, k := IndexOf(ls + rs, name), IndexOf(rs + ls, name);
            k == if i < 0 then -1 else if i < |ls| then i + |rs| else i - |ls|
  {
    var i, s, f := IndexOf(ls + rs, name), ls + rs, rs + ls;
    forall a, b | 0 <= a < b < |f| ensures !SameName(f[a].name, f[b].name) {
      var a', b' := if a < |rs| then a + |ls| else a - |rs|, if b < |rs| then b + |ls| else b - |rs|;
      assert f[a] == s[a'] && f[b] == s[b'];
    }
    if i >= 0 {
      var k := if i < |ls| then i + |rs| else i - |ls|;
      assert f[k] == s[i];
      IndexOfIs(f, name, k);
    } else {
      forall k | 0 <= k < |f| ensures !SameName(f[k].name, name) {
        assert f[k] == s[if k < |rs| then k + |ls| else k - |rs|];
      }
    }
  }

  /** With distinct column names, a join condition has the same value on the exchanged pair. */
  lemma ConditionExchanged(pow: Pow, cond: Expr, ls: Schema, rs: Schema, l: Row, r: Row)
    requires DistinctNames(ls + rs) && |l| == |ls| && |r| == |rs|
    ensures EvaluatePredicate(pow, cond, ls + rs, l + r) == EvaluatePredicate(pow, cond, rs + ls, r + l)
  {
    forall t, c ensures Lookup(t, c, ls + rs, l + r) == Lookup(t, c, rs + ls, r + l) {
      IndexExchanged(ls, rs, c);
      if t.Some? {
        IndexExchanged(ls, rs, t.value + "." + c);
      }
    }
    EvaluateSameLookups(pow, cond, ls + rs, l + r, rs + ls, r + l);
  }
}
