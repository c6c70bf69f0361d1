/** Hash keys of rows, and DISTINCT / UNION built on them. */
module RowKeys {
  import opened Types

  const SEPARATOR: char := '\U{1}'

  /** The part of a row key that describes one value, without its separator. */
  function KeyBody(v: Value): string {
    if v.Null? then "N" else NatToString(TypeOf(v)) + ":" + ToString(v)
  }

  function RowKey(row: Row): string {
    if row == [] then "" else [SEPARATOR] + (KeyBody(row[0]) + RowKey(row[1..]))
  }

  /** Every string in the row is free of the separator byte. */
  predicate SeparatorFree(row: Row) {
    forall v :: v in row && v.Str? ==> SEPARATOR !in v.s
  }

  /** What a key can tell about two values: they are the same, or doubles that print alike to six decimals. */
  predicate SameKeyValue(a: Value, b: Value) {
    IsIdenticalTo(a, b) || (a.Dbl? && b.Dbl? && RealToString(a.r) == RealToString(b.r))
  }

  // ---- Decimal rendering is injective ----

  function DigitValue(c: char): nat {
    if '0' <= c <= '9' then (c - '0') as nat else 0
  }

  function ParseNat(s: string): nat {
    if s == [] then 0 else 10 * ParseNat(s[..|s| - 1]) + DigitValue(s[|s| - 1])
  }

  lemma {:induction false} NatRoundTrip(n: nat)
    ensures ParseNat(NatToString(n)) == n
    ensures NatToString(n) != [] && forall c :: c in NatToString(n) ==> '0' <= c <= '9'
  {
    var s := NatToString(n);
    if n < 10 {
      assert s[..0] == [];
      assert ParseNat(s) == 10 * ParseNat([]) + DigitValue(s[0]);
    } else {
      NatRoundTrip(n / 10);
      assert s[..|s| - 1] == NatToString(n / 10);
    }
  }

  lemma IntToStringInjective(a: int, b: int)
    requires IntToString(a) == IntToString(b)
    ensures a == b
  {
    NatRoundTrip(if a < 0 then -a else a);
    NatRoundTrip(if b < 0 then -b else b);
    var x, y := IntToString(a), IntToString(b);
    assert a < 0 ==> x[0] == '-' && x[1..] == NatToString(-a);
    assert b < 0 ==> y[0] == '-' && y[1..] == NatToString(-b);
    assert a >= 0 ==> x[0] in x && x[0] != '-';
    assert b >= 0 ==> y[0] in y && y[0] != '-';
  }

  // ---- Keys are injective up to the rendering of doubles ----

  lemma {:induction false} PaddedDigitsAreDigits(n: nat, width: nat)
    ensures forall c :: c in PaddedDigits(n, width) ==> '0' <= c <= '9'
  {
    if width > 0 {
      PaddedDigitsAreDigits(n / 10, width - 1);
    }
  }

  lemma DigitsHaveNoSeparator(s: string)
    requires forall c :: c in s ==> '0' <= c <= '9'
    ensures SEPARATOR !in s
  {
  }

  lemma NatHasNoSeparator(n: nat)
    ensures SEPARATOR !in NatToString(n)
  {
    NatRoundTrip(n);
  }

  lemma RealHasNoSeparator(r: real)
    ensures SEPARATOR !in RealToString(r)
  {
    NatHasNoSeparator(Millionths(r) / 1000000);
    PaddedDigitsAreDigits(Millionths(r) % 1000000, 6);
    DigitsHaveNoSeparator(PaddedDigits(Millionths(r) % 1000000, 6));
  }

  lemma BodyHasNoSeparator(v: Value)
    requires v.Str? ==> SEPARATOR !in v.s
    ensures SEPARATOR !in KeyBody(v)
  {
    NatHasNoSeparator(TypeOf(v));
    match v
    case Int(_, i) => NatHasNoSeparator(if i < 0 then -i else i);
    case Dbl(r) => RealHasNoSeparator(r);
    case _ =>
  }

  lemma BodyTellsValue(a: Value, b: Value)
    ensures KeyBody(a) == KeyBody(b) <==> SameKeyValue(a, b)
  {
    var x, y := KeyBody(a), KeyBody(b);
    assert !a.Null? ==> x[0] == Digit(TypeOf(a)) && x[2..] == ToString(a);
    assert !b.Null? ==> y[0] == Digit(TypeOf(b)) && y[2..] == ToString(b);
    if x == y && a.Int? {
      IntToStringInjective(a.i, b.i);
    }
  }

  predicate StartsPart(s: string) {
    s == [] || s[0] == SEPARATOR
  }

  lemma SplitAtSeparator(u: string, a: string, w: string, b: string)
    requires SEPARATOR !in u && SEPARATOR !in w && StartsPart(a) && StartsPart(b)
    ensures u + a == w + b <==> u == w && a == b
  {
    var x, y := u + a, w + b;
    assert a != [] ==> x[|u|] == a[0];
    assert b != [] ==> y[|w|] == b[0];
    assert |u| < |w| ==> y[|u|] == w[|u|];
    assert |w| < |u| ==> x[|w|] == u[|w|];
    assert u == x[..|u|] && w == y[..|w|];
    assert a == x[|u|..] && b == y[|w|..];
  }

  lemma KeyStep(a: Row, b: Row)
    requires a != [] && b != [] && SeparatorFree(a) && SeparatorFree(b)
    ensures RowKey(a) == RowKey(b) <==> KeyBody(a[0]) == KeyBody(b[0]) && RowKey(a[1..]) == RowKey(b[1..])
  {
    BodyHasNoSeparator(a[0]);
    BodyHasNoSeparator(b[0]);
    SplitAtSeparator(KeyBody(a[0]), RowKey(a[1..]), KeyBody(b[0]), RowKey(b[1..]));
    assert RowKey(a)[1..] == KeyBody(a[0]) + RowKey(a[1..]);
    assert RowKey(b)[1..] == KeyBody(b[0]) + RowKey(b[1..]);
  }

  ghost predicate SameKeyRow(a: Row, b: Row)
    requires |a| == |b|
  {
    forall i :: 0 <= i < |a| ==> SameKeyValue(a[i], b[i])
  }

  lemma SameKeyStep(a: Row, b: Row)
    requires |a| == |b| && a != []
    ensures SameKeyRow(a, b) <==> SameKeyValue(a[0], b[0]) && SameKeyRow(a[1..], b[1..])
  {
    if SameKeyValue(a[0], b[0]) && SameKeyRow(a[1..], b[1..]) {
      forall i | 0 <= i < |a| ensures SameKeyValue(a[i], b[i]) {
        assert i > 0 ==> SameKeyValue(a[1..][i - 1], b[1..][i - 1]);
      }
    }
    if SameKeyRow(a, b) {
      forall i | 0 <= i < |a| - 1 ensures SameKeyValue(a[1..][i], b[1..][i]) {
        assert SameKeyValue(a[i + 1], b[i + 1]);
      }
    }
  }

  /** Two rows of one arity have the same key if and only if they agree value by value. */
  lemma {:induction false} RowKeyExact(a: Row, b: Row)
    requires |a| == |b| && SeparatorFree(a) && SeparatorFree(b)
    ensures RowKey(a) == RowKey(b) <==> SameKeyRow(a, b)
    decreases |a|
  {
    if a != [] {
      RowKeyExact(a[1..], b[1..]);
      BodyTellsValue(a[0], b[0]);
      KeyStep(a, b);
      SameKeyStep(a, b);
    }
  }

  predicate FloatFree(row: Row) {
    forall v :: v in row ==> !v.Dbl?
  }

  lemma RowKeyInjective(a: Row, b: Row)
    requires |a| == |b| && SeparatorFree(a) && SeparatorFree(b) && FloatFree(a)
    ensures RowKey(a) == RowKey(b) <==> a == b
  {
    RowKeyExact(a, b);
    if RowKey(a) == RowKey(b) {
      forall i | 0 <= i < |a| ensures a[i] == b[i] {
        assert a[i] in a && SameKeyValue(a[i], b[i]);
      }
    }
  }

  lemma KeyOfOne(v: Value)
    ensures RowKey([v]) == [SEPARATOR] + KeyBody(v)
  {
    assert [v][1..] == [];
  }

  lemma KeyOfTwo(v: Value, w: Value)
    ensures RowKey([v, w]) == [SEPARATOR] + (KeyBody(v) + ([SEPARATOR] + KeyBody(w)))
  {
    assert [v, w][1..] == [w];
    KeyOfOne(w);
  }

  lemma BodyOfStr(s: string)
    ensures KeyBody(Str(s)) == "8:" + s
  {
    assert NatToString(8) == "8";
  }

  /** Without FloatFree the key is not injective: doubles equal to six decimals collide. */
  lemma CloseDoublesCollide()
    ensures RowKey([Dbl(0.0000001)]) == RowKey([Dbl(0.0000002)])
  {
    KeyOfOne(Dbl(0.0000001));
    KeyOfOne(Dbl(0.0000002));
    assert Millionths(0.0000001) == 0 && Millionths(0.0000002) == 0;
  }

  lemma RegroupParts(w: string)
    ensures (w + ([SEPARATOR] + w)) + ([SEPARATOR] + w) == w + ([SEPARATOR] + (w + ([SEPARATOR] + w)))
  {
  }

  /** Nor without SeparatorFree: a string may hold the start of the next part. */
  lemma SeparatorsCollide(s: string)
    ensures var long := s + ([SEPARATOR] + ("8:" + s));
            RowKey([Str(long), Str(s)]) == RowKey([Str(s), Str(long)])
  {
    var w := "8:" + s;
    var long := s + ([SEPARATOR] + w);
    KeyOfTwo(Str(long), Str(s));
    KeyOfTwo(Str(s), Str(long));
    BodyOfStr(long);
    BodyOfStr(s);
    assert "8:" + long == w + ([SEPARATOR] + w);
    RegroupParts(w);
  }

  // ---- DISTINCT ----

  function KeySet(rows: seq<Row>): set<string> {
    set r | r in rows :: RowKey(r)
  }

  /** Distinct's output: each row whose key was not seen before, in input order. */
  function DistinctRows(rows: seq<Row>): seq<Row> {
    if rows == [] then []
    else
      var n := |rows| - 1;
      if RowKey(rows[n]) in KeySet(rows[..n]) then DistinctRows(rows[..n]) else DistinctRows(rows[..n]) + [rows[n]]
  }

  /** The first occurrence of each row, compared by identity. */
  ghost function FirstOccurrences(rows: seq<Row>): seq<Row> {
    if rows == [] then []
    else
      var n := |rows| - 1;
      if rows[n] in rows[..n] then FirstOccurrences(rows[..n]) else FirstOccurrences(rows[..n]) + [rows[n]]
  }

  /** For any rows: the output has the input's keys, each of them once. */
  lemma {:induction false} DistinctKeys(rows: seq<Row>)
    ensures KeySet(DistinctRows(rows)) == KeySet(rows)
    ensures forall i, j :: 0 <= i < j < |DistinctRows(rows)| ==> RowKey(DistinctRows(rows)[i]) != RowKey(DistinctRows(rows)[j])
    ensures forall r :: r in DistinctRows(rows) ==> r in rows
    decreases |rows|
  {
    if rows != [] {
      var n := |rows| - 1;
      var before := DistinctRows(rows[..n]);
      DistinctKeys(rows[..n]);
      assert rows == rows[..n] + [rows[n]];
      assert KeySet(rows) == KeySet(rows[..n]) + {RowKey(rows[n])};
      if RowKey(rows[n]) !in KeySet(rows[..n]) {
        assert KeySet(before + [rows[n]]) == KeySet(before) + {RowKey(rows[n])};
        forall i | 0 <= i < |before| ensures RowKey(before[i]) != RowKey(rows[n]) {
          assert RowKey(before[i]) in KeySet(before);
        }
      }
    }
  }

  /** Rows of one arity whose keys tell them apart. */
  predicate Keyable(rows: seq<Row>) {
    forall r :: r in rows ==> |r| == |rows[0]| && SeparatorFree(r) && FloatFree(r)
  }

  lemma KeysTellApart(rows: seq<Row>, a: Row, b: Row)
    requires Keyable(rows) && a in rows && b in rows
    ensures RowKey(a) == RowKey(b) <==> a == b
  {
    RowKeyInjective(a, b);
  }

  /** DISTINCT keeps exactly the first occurrences, in order. */
  lemma {:induction false} DistinctIsFirstOccurrences(rows: seq<Row>)
    requires Keyable(rows)
    ensures DistinctRows(rows) == FirstOccurrences(rows)
    decreases |rows|
  {
    if rows != [] {
      var n := |rows| - 1;
      DistinctIsFirstOccurrences(rows[..n]);
      SeenIffPresent(rows, rows[..n], rows[n]);
    }
  }

  lemma SeenIffPresent(all: seq<Row>, rows: seq<Row>, x: Row)
    requires Keyable(all) && x in all && forall r :: r in rows ==> r in all
    ensures RowKey(x) in KeySet(rows) <==> x in rows
  {
    forall r | r in rows ensures RowKey(r) == RowKey(x) <==> r == x {
      KeysTellApart(all, r, x);
    }
  }

  lemma {:induction false} NothingToDrop(rows: seq<Row>)
    requires forall i, j :: 0 <= i < j < |rows| ==> RowKey(rows[i]) != RowKey(rows[j])
    ensures DistinctRows(rows) == rows
    decreases |rows|
  {
    if rows != [] {
      var n := |rows| - 1;
      NothingToDrop(rows[..n]);
      assert rows == rows[..n] + [rows[n]];
      assert forall r :: r in rows[..n] ==> RowKey(r) != RowKey(rows[n]);
    }
  }

  lemma DistinctIdempotent(rows: seq<Row>)
    ensures DistinctRows(DistinctRows(rows)) == DistinctRows(rows)
  {
    DistinctKeys(rows);
    NothingToDrop(DistinctRows(rows));
  }

  lemma DistinctKeepsRows(all: seq<Row>)
    requires Keyable(all)
    ensures forall r :: r in all ==> r in DistinctRows(all)
  {
    DistinctKeys(all);
    forall r | r in all ensures r in DistinctRows(all) {
      SeenIffPresent(all, DistinctRows(all), r);
    }
  }

  /** UNION: the rows of either side, none of them twice. */
  lemma UnionIsSetUnion(left: seq<Row>, right: seq<Row>)
    requires Keyable(left + right)
    ensures var u := DistinctRows(left + right);
            (forall r :: r in u <==> r in left || r in right)
            && forall i, j :: 0 <= i < j < |u| ==> u[i] != u[j]
  {
    var all := left + right;
    DistinctKeys(all);
    DistinctKeepsRows(all);
    forall r ensures r in all <==> r in left || r in right {
    }
  }
}
