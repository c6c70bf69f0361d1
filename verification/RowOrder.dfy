/**
 ORDER BY over rows. The comparator evaluates keys as it goes and may throw; sorting fails exactly when it must throw.
 */
module RowOrder {
  import opened Results
  import opened Seqs
  import opened Types
  import opened Ast
  import opened Eval
  import opened Ordering

  // ---- The comparator on rows ----

  /** The comparator of ORDER BY; an error where it throws. A later key is evaluated only on rows tied by the earlier ones. */
  function CompareRows(pow: Pow, keys: seq<SortKey>, schema: Schema, a: Row, b: Row): Result<bool> {
    if keys == [] then Ok(false)
    else
      var va :- Evaluate(pow, keys[0].expr, schema, a);
      var vb :- Evaluate(pow, keys[0].expr, schema, b);
      if va == vb then CompareRows(pow, keys[1..], schema, a, b)
      else if !Comparable(va, vb) then Err
      else Ok(HeadLess(keys[0], va, vb))
  }

  function ValueOr(r: Result<Value>): Value {
    if r.Ok? then r.value else Null
  }

  /** The key values of a row; NULL stands for a key that does not evaluate. */
  function KeyVector(pow: Pow, keys: seq<SortKey>, schema: Schema, row: Row): (r: seq<Value>)
    ensures |r| == |keys|
  {
    seq(|keys|, i requires 0 <= i < |keys| => ValueOr(Evaluate(pow, keys[i].expr, schema, row)))
  }

  /** Where the comparator does not throw, it compares the key values; and it does not throw the other way round. */
  lemma {:induction false} ComparatorAgrees(pow: Pow, keys: seq<SortKey>, schema: Schema, a: Row, b: Row)
    requires CompareRows(pow, keys, schema, a, b).Ok?
    ensures var ka, kb := KeyVector(pow, keys, schema, a), KeyVector(pow, keys, schema, b);
            KeysComparable(ka, kb) && CompareRows(pow, keys, schema, a, b) == Ok(KeysLess(keys, ka, kb))
    ensures CompareRows(pow, keys, schema, b, a).Ok?
    decreases |keys|
  {
    if keys != [] {
      var ka, kb := KeyVector(pow, keys, schema, a), KeyVector(pow, keys, schema, b);
      assert ka[1..] == KeyVector(pow, keys[1..], schema, a) && kb[1..] == KeyVector(pow, keys[1..], schema, b);
      HeadsDecide(keys, ka, kb);
      if ka[0] == kb[0] {
        ComparatorAgrees(pow, keys[1..], schema, a, b);
      }
    }
  }

  /** No two rows make the comparator throw. */
  predicate NoThrow(pow: Pow, keys: seq<SortKey>, schema: Schema, rows: seq<Row>) {
    forall i, j :: 0 <= i < j < |rows| ==> CompareRows(pow, keys, schema, rows[i], rows[j]).Ok?
  }

  /** Every two neighbours were compared, and are in order. */
  predicate Confirmed(pow: Pow, keys: seq<SortKey>, schema: Schema, ys: seq<Row>) {
    forall i :: 0 < i < |ys| ==> CompareRows(pow, keys, schema, ys[i], ys[i - 1]) == Ok(false)
  }

  lemma {:induction false} NotLessChains(pow: Pow, keys: seq<SortKey>, schema: Schema, a: Row, b: Row, c: Row)
    requires CompareRows(pow, keys, schema, b, a) == Ok(false) && CompareRows(pow, keys, schema, c, b) == Ok(false)
    ensures CompareRows(pow, keys, schema, c, a) == Ok(false)
    decreases |keys|
  {
    if keys != [] {
      var x, y := Evaluate(pow, keys[0].expr, schema, a).value, Evaluate(pow, keys[0].expr, schema, b).value;
      var z := Evaluate(pow, keys[0].expr, schema, c).value;
      if x == y && y == z {
        NotLessChains(pow, keys[1..], schema, a, b, c);
      } else if x != y && y != z {
        HeadsChain(keys[0], x, y, z);
      }
    }
  }

  lemma HeadsChain(k: SortKey, x: Value, y: Value, z: Value)
    requires x != y && y != z && Comparable(x, y) && Comparable(y, z) && !HeadLess(k, y, x) && !HeadLess(k, z, y)
    ensures x != z && Comparable(x, z) && !HeadLess(k, z, x)
  {
    if !x.Null? && !y.Null? && !z.Null? {
      BeforeIsLinear(x, y, z);
      BeforeIsLinear(z, y, x);
      BeforeIsLinear(x, z, x);
    } else if !x.Null? && !y.Null? {
      BeforeIsLinear(x, y, x);
    } else if !y.Null? && !z.Null? {
      BeforeIsLinear(y, z, y);
    }
  }

  lemma {:induction false} ConfirmedFar(pow: Pow, keys: seq<SortKey>, schema: Schema, ys: seq<Row>, i: nat, j: nat)
    requires Confirmed(pow, keys, schema, ys) && i < j < |ys|
    ensures CompareRows(pow, keys, schema, ys[j], ys[i]) == Ok(false)
    decreases j
  {
    if i + 1 < j {
      ConfirmedFar(pow, keys, schema, ys, i, j - 1);
      NotLessChains(pow, keys, schema, ys[i], ys[j - 1], ys[j]);
    }
  }

  /** If comparing neighbours confirmed an order of some rows, no two of these rows make the comparator throw. */
  lemma ConfirmedNoThrow(pow: Pow, keys: seq<SortKey>, schema: Schema, ys: seq<Row>)
    requires Confirmed(pow, keys, schema, ys)
    ensures NoThrow(pow, keys, schema, ys)
  {
    forall i, j | 0 <= i < j < |ys| ensures CompareRows(pow, keys, schema, ys[i], ys[j]).Ok? {
      ConfirmedFar(pow, keys, schema, ys, i, j);
      ComparatorAgrees(pow, keys, schema, ys[j], ys[i]);
    }
  }

  lemma {:induction false} Occurs<T>(s: seq<T>, x: T) returns (i: nat)
    requires x in multiset(s)
    ensures i < |s| && s[i] == x
  {
    i :| 0 <= i < |s| && s[i] == x;
  }

  lemma OccursIn<T>(s: seq<T>, t: seq<T>, i: nat) returns (k: nat)
    requires multiset(s) == multiset(t) && i < |s|
    ensures k < |t| && t[k] == s[i]
  {
    assert s[i] in multiset(s);
    k := Occurs(t, s[i]);
  }

  /** Two members of a sequence, told apart by position. */
  lemma TwoPlaces<T>(rows: seq<T>, ys: seq<T>, i: nat, j: nat) returns (p: nat, q: nat)
    requires multiset(rows) == multiset(ys) && i < j < |rows|
    ensures p < |ys| && q < |ys| && p != q && ys[p] == rows[i] && ys[q] == rows[j]
  {
    p := Occurs(ys, rows[i]);
    RemoveBoth(rows, ys, i, p);
    var k := OccursIn(rows[..i] + rows[i + 1..], ys[..p] + ys[p + 1..], j - 1);
    q := if k < p then k else k + 1;
  }

  lemma NoThrowPermuted(pow: Pow, keys: seq<SortKey>, schema: Schema, rows: seq<Row>, ys: seq<Row>)
    requires multiset(rows) == multiset(ys) && NoThrow(pow, keys, schema, ys)
    ensures NoThrow(pow, keys, schema, rows)
  {
    forall i, j | 0 <= i < j < |rows| ensures CompareRows(pow, keys, schema, rows[i], rows[j]).Ok? {
      var p, q := TwoPlaces(rows, ys, i, j);
      if q < p {
        ComparatorAgrees(pow, keys, schema, ys[q], ys[p]);
      }
    }
  }

  // ---- ORDER BY over rows ----

  function Decorate(pow: Pow, keys: seq<SortKey>, schema: Schema, rows: seq<Row>): (r: seq<Keyed>)
    ensures |r| == |rows| && Aligned(keys, r)
    ensures forall i :: 0 <= i < |rows| ==> r[i] == Keyed(KeyVector(pow, keys, schema, rows[i]), rows[i])
  {
    seq(|rows|, i requires 0 <= i < |rows| => Keyed(KeyVector(pow, keys, schema, rows[i]), rows[i]))
  }

  function Undecorate(xs: seq<Keyed>): (r: seq<Row>)
    ensures |r| == |xs| && forall i :: 0 <= i < |xs| ==> r[i] == xs[i].row
  {
    seq(|xs|, i requires 0 <= i < |xs| => xs[i].row)
  }

  /**
   The rows in ORDER BY order; an error if two of them make the comparator throw. Fewer than two rows are never compared,
   and a key is never evaluated where no two rows are tied by the keys before it.
   */
  function SortRows(pow: Pow, keys: seq<SortKey>, schema: Schema, rows: seq<Row>): (r: Result<seq<Row>>)
    ensures r.Ok? ==> |r.value| == |rows|
  {
    if NoThrow(pow, keys, schema, rows) then Ok(Undecorate(StableSort(keys, Decorate(pow, keys, schema, rows)))) else Err
  }

  lemma DecoratedUniform(pow: Pow, keys: seq<SortKey>, schema: Schema, rows: seq<Row>)
    requires NoThrow(pow, keys, schema, rows)
    ensures Uniform(keys, Decorate(pow, keys, schema, rows))
  {
    var xs := Decorate(pow, keys, schema, rows);
    forall i, j | 0 <= i < |xs| && 0 <= j < |xs| ensures KeysComparable(xs[i].keys, xs[j].keys) {
      if i == j {
        ComparableToItself(xs[i].keys);
      } else if i < j {
        ComparatorAgrees(pow, keys, schema, rows[i], rows[j]);
      } else {
        ComparatorAgrees(pow, keys, schema, rows[j], rows[i]);
        ComparableBothWays(xs[j].keys, xs[i].keys);
      }
    }
  }

  predicate KeysEvaluate(pow: Pow, keys: seq<SortKey>, schema: Schema, row: Row) {
    forall i :: 0 <= i < |keys| ==> Evaluate(pow, keys[i].expr, schema, row).Ok?
  }

  lemma {:induction false} EvaluatedCompare(pow: Pow, keys: seq<SortKey>, schema: Schema, a: Row, b: Row)
    requires KeysEvaluate(pow, keys, schema, a) && KeysEvaluate(pow, keys, schema, b)
    requires KeysComparable(KeyVector(pow, keys, schema, a), KeyVector(pow, keys, schema, b))
    ensures CompareRows(pow, keys, schema, a, b).Ok?
    decreases |keys|
  {
    if keys != [] {
      var ka, kb := KeyVector(pow, keys, schema, a), KeyVector(pow, keys, schema, b);
      assert ka[1..] == KeyVector(pow, keys[1..], schema, a) && kb[1..] == KeyVector(pow, keys[1..], schema, b);
      if ka[0] == kb[0] {
        EvaluatedCompare(pow, keys[1..], schema, a, b);
      }
    }
  }

  /** Keys that evaluate everywhere, to comparable values, never make the comparator throw. */
  lemma UniformNoThrow(pow: Pow, keys: seq<SortKey>, schema: Schema, rows: seq<Row>)
    requires Uniform(keys, Decorate(pow, keys, schema, rows))
    requires forall i :: 0 <= i < |rows| ==> KeysEvaluate(pow, keys, schema, rows[i])
    ensures NoThrow(pow, keys, schema, rows)
  {
    var xs := Decorate(pow, keys, schema, rows);
    forall i, j | 0 <= i < j < |rows| ensures CompareRows(pow, keys, schema, rows[i], rows[j]).Ok? {
      assert xs[i] in xs && xs[j] in xs;
      EvaluatedCompare(pow, keys, schema, rows[i], rows[j]);
    }
  }

  /** What StableSort does to decorated rows, one insertion at a time. */
  lemma {:induction false} InsertAt(keys: seq<SortKey>, x: Keyed, ys: seq<Keyed>, j: nat)
    requires Fits(keys, x, ys) && j <= |ys|
    requires forall i :: 0 <= i < j ==> KeysLess(keys, ys[i].keys, x.keys)
    requires j < |ys| ==> !KeysLess(keys, ys[j].keys, x.keys)
    ensures Insert(keys, x, ys) == ys[..j] + [x] + ys[j..]
    decreases j
  {
    if j > 0 {
      InsertAt(keys, x, ys[1..], j - 1);
      assert ys[..j] == [ys[0]] + ys[1..][..j - 1] && ys[1..][j - 1..] == ys[j..];
    }
  }

  /** One insertion of the sort, with the comparator that may throw. */
  method InsertRowSorted(pow: Pow, keys: seq<SortKey>, schema: Schema, x: Row, ys: seq<Row>) returns (r: Result<seq<Row>>)
    requires Confirmed(pow, keys, schema, ys)
    ensures r.Err? ==> exists j :: 0 <= j < |ys| && CompareRows(pow, keys, schema, ys[j], x).Err?
    ensures r.Ok? ==> Confirmed(pow, keys, schema, r.value)
    ensures r.Ok? ==>
      Decorate(pow, keys, schema, r.value) == Insert(keys, Keyed(KeyVector(pow, keys, schema, x), x), Decorate(pow, keys, schema, ys))
  {
    var j := 0;
    var before := true;
    ghost var kx, ks := Keyed(KeyVector(pow, keys, schema, x), x), Decorate(pow, keys, schema, ys);
    while j < |ys| && before
      invariant 0 <= j <= |ys|
      invariant forall i :: 0 <= i < j ==> CompareRows(pow, keys, schema, ys[i], x) == Ok(true) && KeysLess(keys, ks[i].keys, kx.keys)
      invariant !before ==> j < |ys| && CompareRows(pow, keys, schema, ys[j], x) == Ok(false) && !KeysLess(keys, ks[j].keys, kx.keys)
      decreases |ys| - j, before
    {
      var c := CompareRows(pow, keys, schema, ys[j], x);
      if c.Err? {
        return Err;
      }
      ComparatorAgrees(pow, keys, schema, ys[j], x);
      before := c.value;
      j := if before then j + 1 else j;
    }
    var out := ys[..j] + [x] + ys[j..];
    InsertAt(keys, kx, ks, j);
    if j > 0 {
      LessOneWay(pow, keys, schema, ys[j - 1], x);
    }
    assert Decorate(pow, keys, schema, out) == ks[..j] + [kx] + ks[j..];
    InsertedConfirmed(pow, keys, schema, x, ys, j);
    r := Ok(out);
  }

  lemma LessOneWay(pow: Pow, keys: seq<SortKey>, schema: Schema, a: Row, b: Row)
    requires CompareRows(pow, keys, schema, a, b) == Ok(true)
    ensures CompareRows(pow, keys, schema, b, a) == Ok(false)
  {
    ComparatorAgrees(pow, keys, schema, a, b);
    ComparatorAgrees(pow, keys, schema, b, a);
    Asymmetric(keys, KeyVector(pow, keys, schema, a), KeyVector(pow, keys, schema, b));
  }

  lemma InsertedConfirmed(pow: Pow, keys: seq<SortKey>, schema: Schema, x: Row, ys: seq<Row>, j: nat)
    requires Confirmed(pow, keys, schema, ys) && j <= |ys|
    requires j > 0 ==> CompareRows(pow, keys, schema, x, ys[j - 1]) == Ok(false)
    requires j < |ys| ==> CompareRows(pow, keys, schema, ys[j], x) == Ok(false)
    ensures Confirmed(pow, keys, schema, ys[..j] + [x] + ys[j..])
  {
  }

  /** Sort's build: an insertion sort with the comparator that may throw. */
  method SortByKeys(pow: Pow, keys: seq<SortKey>, schema: Schema, rows: seq<Row>) returns (r: Result<seq<Row>>)
    ensures r == SortRows(pow, keys, schema, rows)
  {
    var ys: seq<Row> := [];
    var i := |rows|;
    while i > 0
      invariant 0 <= i <= |rows|
      invariant Confirmed(pow, keys, schema, ys)
      invariant Decorate(pow, keys, schema, ys) == StableSort(keys, Decorate(pow, keys, schema, rows[i..]))
    {
      i := i - 1;
      assert Decorate(pow, keys, schema, rows[i..])[1..] == Decorate(pow, keys, schema, rows[i + 1..]);
      var inserted := InsertRowSorted(pow, keys, schema, rows[i], ys);
      if inserted.Err? {
        var j :| 0 <= j < |ys| && CompareRows(pow, keys, schema, ys[j], rows[i]).Err?;
        PairThrows(pow, keys, schema, rows, i, ys, j);
        return Err;
      }
      ys := inserted.value;
    }
    assert rows[0..] == rows;
    SortedRowsPermuted(pow, keys, schema, rows, ys);
    ConfirmedNoThrow(pow, keys, schema, ys);
    NoThrowPermuted(pow, keys, schema, rows, ys);
    assert Undecorate(Decorate(pow, keys, schema, ys)) == ys;
    r := Ok(ys);
  }

  lemma PairThrows(pow: Pow, keys: seq<SortKey>, schema: Schema, rows: seq<Row>, i: nat, ys: seq<Row>, j: nat)
    requires i < |rows| && j < |ys| && CompareRows(pow, keys, schema, ys[j], rows[i]).Err?
    requires Decorate(pow, keys, schema, ys) == StableSort(keys, Decorate(pow, keys, schema, rows[i + 1..]))
    ensures !NoThrow(pow, keys, schema, rows)
  {
    var xs := Decorate(pow, keys, schema, rows[i + 1..]);
    assert Decorate(pow, keys, schema, ys)[j] in xs;
    var p :| 0 <= p < |xs| && xs[p] == Decorate(pow, keys, schema, ys)[j];
    assert rows[i + 1 + p] == ys[j];
    if CompareRows(pow, keys, schema, rows[i], rows[i + 1 + p]).Ok? {
      ComparatorAgrees(pow, keys, schema, rows[i], rows[i + 1 + p]);
    }
  }

  lemma SortedRowsPermuted(pow: Pow, keys: seq<SortKey>, schema: Schema, rows: seq<Row>, ys: seq<Row>)
    requires Decorate(pow, keys, schema, ys) == StableSort(keys, Decorate(pow, keys, schema, rows))
    ensures multiset(ys) == multiset(rows)
  {
    var xs := Decorate(pow, keys, schema, rows);
    StableSortIsPermutation(keys, xs);
    UndecoratePermuted(StableSort(keys, xs), xs);
    assert Undecorate(xs) == rows && Undecorate(StableSort(keys, xs)) == ys;
  }

  lemma UndecorateRest(xs: seq<Keyed>, p: nat)
    requires p < |xs|
    ensures multiset(Undecorate(xs)) == multiset(Undecorate(xs[..p] + xs[p + 1..])) + multiset{xs[p].row}
  {
    RemoveAt(Undecorate(xs), p);
    assert Undecorate(xs)[..p] + Undecorate(xs)[p + 1..] == Undecorate(xs[..p] + xs[p + 1..]);
  }

  lemma {:induction false} UndecoratePermuted(xs: seq<Keyed>, ys: seq<Keyed>)
    requires multiset(xs) == multiset(ys)
    ensures multiset(Undecorate(xs)) == multiset(Undecorate(ys))
    decreases |xs|
  {
    hide Undecorate;
    SameMultisetSameMembers(xs, ys);
    if xs != [] {
      var p := OccursIn(xs, ys, 0);
      RemoveBoth(xs, ys, 0, p);
      UndecorateRest(xs, 0);
      UndecorateRest(ys, p);
      UndecoratePermuted(xs[..0] + xs[0 + 1..], ys[..p] + ys[p + 1..]);
    } else {
      assert ys == xs;
    }
  }

  /**
   A sort returns rows whose neighbours it compared. So ORDER BY fails exactly when no arrangement of the rows can be
   confirmed by comparing neighbours, whatever sort is used.
   */
  lemma SortFailsIff(pow: Pow, keys: seq<SortKey>, schema: Schema, rows: seq<Row>)
    ensures SortRows(pow, keys, schema, rows).Err? <==> !exists ys :: multiset(ys) == multiset(rows) && Confirmed(pow, keys, schema, ys)
  {
    if ys :| multiset(ys) == multiset(rows) && Confirmed(pow, keys, schema, ys) {
      ConfirmedNoThrow(pow, keys, schema, ys);
      NoThrowPermuted(pow, keys, schema, rows, ys);
    }
    if NoThrow(pow, keys, schema, rows) {
      SortedIsConfirmed(pow, keys, schema, rows);
    }
  }

  lemma DecoratedAgain(pow: Pow, keys: seq<SortKey>, schema: Schema, rows: seq<Row>, ys: seq<Keyed>)
    requires forall y :: y in ys ==> y in Decorate(pow, keys, schema, rows)
    ensures Decorate(pow, keys, schema, Undecorate(ys)) == ys
  {
    forall i | 0 <= i < |ys| ensures ys[i] == Keyed(KeyVector(pow, keys, schema, ys[i].row), ys[i].row) {
      assert ys[i] in Decorate(pow, keys, schema, rows);
    }
  }

  lemma SortedIsConfirmed(pow: Pow, keys: seq<SortKey>, schema: Schema, rows: seq<Row>)
    requires NoThrow(pow, keys, schema, rows)
    ensures var ys := SortRows(pow, keys, schema, rows).value; multiset(ys) == multiset(rows) && Confirmed(pow, keys, schema, ys)
  {
    var xs := Decorate(pow, keys, schema, rows);
    var sorted := StableSort(keys, xs);
    var ys := Undecorate(sorted);
    DecoratedUniform(pow, keys, schema, rows);
    StableSortIsSorted(keys, xs);
    DecoratedAgain(pow, keys, schema, rows, sorted);
    SortedRowsPermuted(pow, keys, schema, rows, ys);
    NoThrowPermuted(pow, keys, schema, ys, rows);
    forall i | 0 < i < |ys| ensures CompareRows(pow, keys, schema, ys[i], ys[i - 1]) == Ok(false) {
      ComparatorAgrees(pow, keys, schema, ys[i - 1], ys[i]);
      ComparatorAgrees(pow, keys, schema, ys[i], ys[i - 1]);
      SortedPairwise(keys, sorted, i - 1, i);
    }
  }

  lemma {:induction false} SortedPairwise(keys: seq<SortKey>, ys: seq<Keyed>, i: nat, j: nat)
    requires Aligned(keys, ys) && Sorted(keys, ys) && i < j < |ys|
    ensures !KeysLess(keys, ys[j].keys, ys[i].keys)
    decreases |ys|
  {
    if i == 0 {
      assert ys[j] in ys[1..];
    } else {
      SortedPairwise(keys, ys[1..], i - 1, j - 1);
    }
  }
}
