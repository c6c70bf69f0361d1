/** ORDER BY: the comparator, stable sorting, and why the sorted sequence is unique. */
module Ordering {
  import opened Results
  import opened Seqs
  import opened Types
  import opened Ast
  import opened Eval

  // ---- The order of single values ----

  lemma {:induction false} StrLessTotal(a: string, b: string)
    ensures !(StrLess(a, b) && StrLess(b, a))
    ensures a == b || StrLess(a, b) || StrLess(b, a)
    decreases |a|
  {
    if a != [] && b != [] {
      StrLessTotal(a[1..], b[1..]);
      assert a == [a[0]] + a[1..] && b == [b[0]] + b[1..];
    }
  }

  lemma {:induction false} StrLessTransitive(a: string, b: string, c: string)
    requires StrLess(a, b) && StrLess(b, c)
    ensures StrLess(a, c)
    decreases |a|
  {
    if a != [] {
      if a[0] == b[0] == c[0] {
        StrLessTransitive(a[1..], b[1..], c[1..]);
      }
    }
  }

  predicate Comparable(a: Value, b: Value) {
    a.Null? || b.Null? || SameVariant(a, b)
  }

  /** The order of two non-NULL values of one type. */
  predicate Before(a: Value, b: Value) {
    SameVariant(a, b) && RawLess(a, b)
  }

  lemma BeforeIsLinear(a: Value, b: Value, c: Value)
    requires SameVariant(a, b) && SameVariant(b, c)
    ensures !Before(a, a) && !(Before(a, b) && Before(b, a))
    ensures a == b || Before(a, b) || Before(b, a)
    ensures Before(a, b) && Before(b, c) ==> Before(a, c)
  {
    if a.Str? {
      StrLessTotal(a.s, b.s);
      StrLessTotal(a.s, a.s);
      if Before(a, b) && Before(b, c) {
        StrLessTransitive(a.s, b.s, c.s);
      }
    }
  }

  // ---- The comparator on key vectors ----

  predicate NullsFirst(k: SortKey) {
    k.nulls == NULLS_FIRST || (k.nulls == UNSPECIFIED && k.asc)
  }

  /** Does the row with key values `a` go before the row with key values `b`? */
  predicate KeysLess(keys: seq<SortKey>, a: seq<Value>, b: seq<Value>)
    requires |a| == |b| == |keys|
  {
    if keys == [] then false
    else if a[0].Null? || b[0].Null? then
      if a[0].Null? && b[0].Null? then KeysLess(keys[1..], a[1..], b[1..])
      else a[0].Null? == NullsFirst(keys[0])
    else if Before(a[0], b[0]) then keys[0].asc
    else if Before(b[0], a[0]) then !keys[0].asc
    else KeysLess(keys[1..], a[1..], b[1..])
  }

  /** Up to the first key that decides, each key yields one type or NULL on both rows. */
  predicate KeysComparable(a: seq<Value>, b: seq<Value>)
    decreases |a|
  {
    |a| == |b| && (a == [] || (Comparable(a[0], b[0]) && (a[0] == b[0] ==> KeysComparable(a[1..], b[1..]))))
  }

  lemma {:induction false} ComparableToItself(a: seq<Value>)
    ensures KeysComparable(a, a)
    decreases |a|
  {
    if a != [] {
      ComparableToItself(a[1..]);
    }
  }

  lemma {:induction false} ComparableBothWays(a: seq<Value>, b: seq<Value>)
    requires KeysComparable(a, b)
    ensures KeysComparable(b, a)
    decreases |a|
  {
    if a != [] && a[0] == b[0] {
      ComparableBothWays(a[1..], b[1..]);
    }
  }

  /** Two values of one key: equal, or told apart by the key alone. */
  lemma HeadsDecide(keys: seq<SortKey>, a: seq<Value>, b: seq<Value>)
    requires keys != [] && |a| == |b| == |keys| && Comparable(a[0], b[0])
    ensures a[0] == b[0] ==> KeysLess(keys, a, b) == KeysLess(keys[1..], a[1..], b[1..])
    ensures a[0] != b[0] ==> KeysLess(keys, a, b) == HeadLess(keys[0], a[0], b[0]) && HeadLess(keys[0], a[0], b[0]) != HeadLess(keys[0], b[0], a[0])
  {
    if !a[0].Null? && !b[0].Null? {
      BeforeIsLinear(a[0], b[0], a[0]);
    }
  }

  /** How a key orders two different values. */
  predicate HeadLess(k: SortKey, x: Value, y: Value) {
    if x.Null? || y.Null? then x.Null? == NullsFirst(k) else if k.asc then Before(x, y) else Before(y, x)
  }

  lemma {:induction false} Asymmetric(keys: seq<SortKey>, a: seq<Value>, b: seq<Value>)
    requires |a| == |b| == |keys| && KeysComparable(a, b)
    ensures !(KeysLess(keys, a, b) && KeysLess(keys, b, a))
    decreases |keys|
  {
    if keys != [] {
      HeadsDecide(keys, a, b);
      HeadsDecide(keys, b, a);
      if a[0] == b[0] {
        Asymmetric(keys[1..], a[1..], b[1..]);
      }
    }
  }

  lemma HeadTransitive(k: SortKey, x: Value, y: Value, z: Value)
    requires Comparable(x, y) && Comparable(y, z) && Comparable(x, z) && x != y && y != z
    requires HeadLess(k, x, y) && HeadLess(k, y, z)
    ensures x != z && HeadLess(k, x, z)
  {
    if !x.Null? && !y.Null? && !z.Null? {
      BeforeIsLinear(x, y, z);
      BeforeIsLinear(z, y, x);
    }
  }

  predicate KeysTied(keys: seq<SortKey>, a: seq<Value>, b: seq<Value>)
    requires |a| == |b| == |keys|
  {
    !KeysLess(keys, a, b) && !KeysLess(keys, b, a)
  }

  /** The comparator is a strict weak order on rows whose keys are comparable. */
  lemma {:induction false} StrictWeakOrder(keys: seq<SortKey>, a: seq<Value>, b: seq<Value>, c: seq<Value>)
    requires |a| == |b| == |c| == |keys|
    requires KeysComparable(a, b) && KeysComparable(b, c) && KeysComparable(a, c)
    ensures !KeysLess(keys, a, a)
    ensures KeysLess(keys, a, b) ==> !KeysLess(keys, b, a)
    ensures KeysLess(keys, a, b) && KeysLess(keys, b, c) ==> KeysLess(keys, a, c)
    ensures KeysTied(keys, a, b) && KeysTied(keys, b, c) ==> KeysTied(keys, a, c)
    ensures KeysTied(keys, a, b) && KeysLess(keys, b, c) ==> KeysLess(keys, a, c)
    ensures KeysLess(keys, a, b) && KeysTied(keys, b, c) ==> KeysLess(keys, a, c)
    decreases |keys|
  {
    ComparableToItself(a);
    Asymmetric(keys, a, a);
    Asymmetric(keys, a, b);
    if keys != [] {
      HeadsDecide(keys, a, b);
      HeadsDecide(keys, b, a);
      HeadsDecide(keys, b, c);
      HeadsDecide(keys, c, b);
      HeadsDecide(keys, a, c);
      HeadsDecide(keys, c, a);
      if a[0] == b[0] == c[0] {
        TailsComparable(a, b);
        TailsComparable(b, c);
        TailsComparable(a, c);
        StrictWeakOrder(keys[1..], a[1..], b[1..], c[1..]);
      } else if a[0] != b[0] && b[0] != c[0] && HeadLess(keys[0], a[0], b[0]) && HeadLess(keys[0], b[0], c[0]) {
        HeadTransitive(keys[0], a[0], b[0], c[0]);
      }
    }
  }

  lemma TailsComparable(a: seq<Value>, b: seq<Value>)
    requires KeysComparable(a, b) && a != [] && a[0] == b[0]
    ensures KeysComparable(a[1..], b[1..])
  {
  }

  // ---- Stable sorting ----

  datatype Keyed = Keyed(keys: seq<Value>, row: Row)

  predicate Aligned(keys: seq<SortKey>, xs: seq<Keyed>) {
    forall x :: x in xs ==> |x.keys| == |keys|
  }

  /** Aligned, and pairwise comparable: what the comparator needs in order never to throw. */
  predicate Uniform(keys: seq<SortKey>, xs: seq<Keyed>) {
    Aligned(keys, xs) && forall x, y :: x in xs && y in xs ==> KeysComparable(x.keys, y.keys)
  }

  predicate Fits(keys: seq<SortKey>, x: Keyed, xs: seq<Keyed>) {
    |x.keys| == |keys| && Aligned(keys, xs)
  }

  /** `x` can be compared with itself and with everything in `xs`. */
  ghost predicate ComparableWith(x: Keyed, xs: seq<Keyed>) {
    KeysComparable(x.keys, x.keys) && forall y :: y in xs ==> KeysComparable(x.keys, y.keys) && KeysComparable(y.keys, x.keys)
  }

  function Insert(keys: seq<SortKey>, x: Keyed, ys: seq<Keyed>): (r: seq<Keyed>)
    requires Fits(keys, x, ys)
    ensures |r| == |ys| + 1 && Aligned(keys, r)
    ensures forall y :: y in r <==> y == x || y in ys
    decreases |ys|
  {
    if ys != [] && KeysLess(keys, ys[0].keys, x.keys) then [ys[0]] + Insert(keys, x, ys[1..]) else [x] + ys
  }

  function StableSort(keys: seq<SortKey>, xs: seq<Keyed>): (ys: seq<Keyed>)
    requires Aligned(keys, xs)
    ensures |ys| == |xs| && Aligned(keys, ys)
    ensures forall y :: y in ys <==> y in xs
    decreases |xs|
  {
    if xs == [] then [] else Insert(keys, xs[0], StableSort(keys, xs[1..]))
  }

  ghost predicate Sorted(keys: seq<SortKey>, ys: seq<Keyed>)
    requires Aligned(keys, ys)
    decreases |ys|
  {
    ys == [] || ((forall y :: y in ys[1..] ==> !KeysLess(keys, y.keys, ys[0].keys)) && Sorted(keys, ys[1..]))
  }

  /** The rows tied with `c`, in order. */
  ghost function TiedWith(keys: seq<SortKey>, c: seq<Value>, xs: seq<Keyed>): seq<Keyed>
    requires |c| == |keys| && Aligned(keys, xs)
    decreases |xs|
  {
    if xs == [] then []
    else if KeysTied(keys, xs[0].keys, c) then [xs[0]] + TiedWith(keys, c, xs[1..])
    else TiedWith(keys, c, xs[1..])
  }

  /** What std::stable_sort promises: a sorted permutation in which tied rows keep their order. */
  ghost predicate IsStableSort(keys: seq<SortKey>, xs: seq<Keyed>, ys: seq<Keyed>)
    requires Aligned(keys, xs)
  {
    && multiset(ys) == multiset(xs)
    && Aligned(keys, ys)
    && Sorted(keys, ys)
    && forall x :: x in xs ==> TiedWith(keys, x.keys, ys) == TiedWith(keys, x.keys, xs)
  }

  lemma NotLessTransitive(keys: seq<SortKey>, a: seq<Value>, b: seq<Value>, c: seq<Value>)
    requires |a| == |b| == |c| == |keys|
    requires KeysComparable(a, b) && KeysComparable(b, c) && KeysComparable(a, c)
    requires !KeysLess(keys, a, b) && !KeysLess(keys, b, c)
    ensures !KeysLess(keys, a, c)
  {
    ComparableBothWays(a, b);
    ComparableBothWays(b, c);
    StrictWeakOrder(keys, b, a, c);
    StrictWeakOrder(keys, a, c, b);
  }

  lemma {:induction false} InsertIsPermutation(keys: seq<SortKey>, x: Keyed, ys: seq<Keyed>)
    requires Fits(keys, x, ys)
    ensures multiset(Insert(keys, x, ys)) == multiset{x} + multiset(ys)
    decreases |ys|
  {
    if ys != [] && KeysLess(keys, ys[0].keys, x.keys) {
      InsertIsPermutation(keys, x, ys[1..]);
      assert ys == [ys[0]] + ys[1..];
    }
  }

  lemma {:induction false} InsertKeepsSorted(keys: seq<SortKey>, x: Keyed, ys: seq<Keyed>)
    requires Fits(keys, x, ys) && Uniform(keys, ys) && ComparableWith(x, ys) && Sorted(keys, ys)
    ensures Sorted(keys, Insert(keys, x, ys))
    decreases |ys|
  {
    if ys != [] {
      if KeysLess(keys, ys[0].keys, x.keys) {
        InsertKeepsSorted(keys, x, ys[1..]);
        StrictWeakOrder(keys, ys[0].keys, x.keys, ys[0].keys);
        assert ([ys[0]] + Insert(keys, x, ys[1..]))[1..] == Insert(keys, x, ys[1..]);
      } else {
        forall y | y in ys ensures !KeysLess(keys, y.keys, x.keys) {
          if y in ys[1..] {
            NotLessTransitive(keys, y.keys, ys[0].keys, x.keys);
          }
        }
        assert ([x] + ys)[1..] == ys;
      }
    }
  }

  lemma TiedStep(keys: seq<SortKey>, c: seq<Value>, x: Keyed, xs: seq<Keyed>)
    requires |c| == |keys| && Fits(keys, x, xs)
    ensures TiedWith(keys, c, [x] + xs)
         == if KeysTied(keys, x.keys, c) then [x] + TiedWith(keys, c, xs) else TiedWith(keys, c, xs)
  {
    assert ([x] + xs)[1..] == xs;
  }

  lemma TiesExclude(keys: seq<SortKey>, a: seq<Value>, b: seq<Value>, c: seq<Value>)
    requires |a| == |b| == |c| == |keys|
    requires KeysComparable(a, b) && KeysComparable(b, c) && KeysComparable(a, c)
    requires KeysLess(keys, a, b)
    ensures !(KeysTied(keys, a, c) && KeysTied(keys, b, c))
  {
    ComparableBothWays(b, c);
    StrictWeakOrder(keys, a, c, b);
  }

  /** Inserting passes only rows of other classes. */
  lemma {:induction false} InsertKeepsTies(keys: seq<SortKey>, x: Keyed, ys: seq<Keyed>, c: Keyed)
    requires Fits(keys, x, ys) && Uniform(keys, ys) && ComparableWith(x, ys)
    requires |c.keys| == |keys| && ComparableWith(c, ys) && KeysComparable(x.keys, c.keys)
    ensures TiedWith(keys, c.keys, Insert(keys, x, ys)) == TiedWith(keys, c.keys, [x] + ys)
    decreases |ys|
  {
    if ys != [] && KeysLess(keys, ys[0].keys, x.keys) {
      var y, tail := ys[0], ys[1..];
      InsertKeepsTies(keys, x, tail, c);
      TiesExclude(keys, y.keys, x.keys, c.keys);
      TiedStep(keys, c.keys, y, Insert(keys, x, tail));
      TiedStep(keys, c.keys, x, tail);
      TiedStep(keys, c.keys, x, ys);
    }
  }

  lemma {:induction false} StableSortKeepsTies(keys: seq<SortKey>, xs: seq<Keyed>, c: Keyed)
    requires Uniform(keys, xs) && |c.keys| == |keys| && ComparableWith(c, xs)
    ensures TiedWith(keys, c.keys, StableSort(keys, xs)) == TiedWith(keys, c.keys, xs)
    decreases |xs|
  {
    if xs != [] {
      StableSortKeepsTies(keys, xs[1..], c);
      InsertKeepsTies(keys, xs[0], StableSort(keys, xs[1..]), c);
      TiedStep(keys, c.keys, xs[0], StableSort(keys, xs[1..]));
    }
  }

  lemma {:induction false} StableSortIsPermutation(keys: seq<SortKey>, xs: seq<Keyed>)
    requires Aligned(keys, xs)
    ensures multiset(StableSort(keys, xs)) == multiset(xs)
    decreases |xs|
  {
    if xs != [] {
      StableSortIsPermutation(keys, xs[1..]);
      InsertIsPermutation(keys, xs[0], StableSort(keys, xs[1..]));
      assert xs == [xs[0]] + xs[1..];
    }
  }

  lemma UniformAlike(keys: seq<SortKey>, xs: seq<Keyed>, ys: seq<Keyed>)
    requires Uniform(keys, xs) && forall y :: y in ys ==> y in xs
    ensures Uniform(keys, ys) && forall x :: x in xs ==> ComparableWith(x, ys)
  {
  }

  lemma {:induction false} StableSortIsSorted(keys: seq<SortKey>, xs: seq<Keyed>)
    requires Uniform(keys, xs)
    ensures Sorted(keys, StableSort(keys, xs))
    decreases |xs|
  {
    if xs != [] {
      StableSortIsSorted(keys, xs[1..]);
      UniformAlike(keys, xs, StableSort(keys, xs[1..]));
      InsertKeepsSorted(keys, xs[0], StableSort(keys, xs[1..]));
    }
  }

  lemma StableSortIsStable(keys: seq<SortKey>, xs: seq<Keyed>)
    requires Uniform(keys, xs)
    ensures IsStableSort(keys, xs, StableSort(keys, xs))
  {
    StableSortIsPermutation(keys, xs);
    StableSortIsSorted(keys, xs);
    forall x | x in xs ensures TiedWith(keys, x.keys, StableSort(keys, xs)) == TiedWith(keys, x.keys, xs) {
      StableSortKeepsTies(keys, xs, x);
    }
  }

  lemma HeadIsMinimal(keys: seq<SortKey>, ys: seq<Keyed>, z: Keyed)
    requires Uniform(keys, ys) && Sorted(keys, ys) && z in ys
    ensures !KeysLess(keys, z.keys, ys[0].keys)
  {
    StrictWeakOrder(keys, z.keys, z.keys, z.keys);
    assert z == ys[0] || z in ys[1..];
  }

  lemma SameMultisetSameMembers(ys: seq<Keyed>, zs: seq<Keyed>)
    requires multiset(ys) == multiset(zs)
    ensures |ys| == |zs| && forall x :: x in ys <==> x in zs
  {
    assert |ys| == |multiset(ys)| && |zs| == |multiset(zs)|;
    assert forall x :: x in ys <==> x in multiset(ys);
    assert forall x :: x in zs <==> x in multiset(zs);
  }

  lemma HeadsAgree(keys: seq<SortKey>, ys: seq<Keyed>, zs: seq<Keyed>)
    requires Uniform(keys, ys) && Uniform(keys, zs) && ys != [] && zs != []
    requires ys[0] in zs && zs[0] in ys
    requires Sorted(keys, ys) && Sorted(keys, zs)
    requires TiedWith(keys, ys[0].keys, ys) == TiedWith(keys, ys[0].keys, zs)
    ensures ys[0] == zs[0]
  {
    HeadIsMinimal(keys, ys, zs[0]);
    HeadIsMinimal(keys, zs, ys[0]);
    StrictWeakOrder(keys, ys[0].keys, ys[0].keys, ys[0].keys);
    assert TiedWith(keys, ys[0].keys, ys)[0] == ys[0];
  }

  /** There is only one stable sort, so every correct library sort gives the same row sequence. */
  lemma {:induction false} StableSortUnique(keys: seq<SortKey>, ys: seq<Keyed>, zs: seq<Keyed>)
    requires Uniform(keys, ys) && Aligned(keys, zs)
    requires multiset(ys) == multiset(zs)
    requires Sorted(keys, ys) && Sorted(keys, zs)
    requires forall x :: x in ys ==> TiedWith(keys, x.keys, ys) == TiedWith(keys, x.keys, zs)
    ensures ys == zs
    decreases |ys|
  {
    SameMultisetSameMembers(ys, zs);
    if ys != [] {
      HeadsAgree(keys, ys, zs);
      var h, t, u := ys[0], ys[1..], zs[1..];
      assert ys == [h] + t && zs == [h] + u;
      assert multiset(t) == multiset(ys) - multiset{h} && multiset(u) == multiset(zs) - multiset{h};
      forall x | x in t ensures TiedWith(keys, x.keys, t) == TiedWith(keys, x.keys, u) {
        assert x in ys;
        TiedStep(keys, x.keys, h, t);
        TiedStep(keys, x.keys, h, u);
        if KeysTied(keys, h.keys, x.keys) {
          assert ([h] + TiedWith(keys, x.keys, t))[1..] == ([h] + TiedWith(keys, x.keys, u))[1..];
        }
      }
      StableSortUnique(keys, t, u);
    }
  }

  /** Any result the library contract allows is the one computed here. */
  lemma LibrarySortAgrees(keys: seq<SortKey>, xs: seq<Keyed>, ys: seq<Keyed>)
    requires Uniform(keys, xs) && IsStableSort(keys, xs, ys)
    ensures ys == StableSort(keys, xs)
  {
    StableSortIsStable(keys, xs);
    SameMultisetSameMembers(ys, xs);
    StableSortUnique(keys, ys, StableSort(keys, xs));
  }

  ghost predicate LessAlike(ks: seq<SortKey>, ks': seq<SortKey>, rel: (Keyed, Keyed) -> bool) {
    forall a, a', b, b' {:trigger LessPair(ks, ks', a, a', b, b')} :: rel(a, a') && rel(b, b') ==>
      LessPair(ks, ks', a, a', b, b')
  }

  predicate LessPair(ks: seq<SortKey>, ks': seq<SortKey>, a: Keyed, a': Keyed, b: Keyed, b': Keyed) {
    |a.keys| == |b.keys| == |ks| && |a'.keys| == |b'.keys| == |ks'|
    && KeysLess(ks, a.keys, b.keys) == KeysLess(ks', a'.keys, b'.keys)
  }

  ghost predicate Related(xs: seq<Keyed>, xs': seq<Keyed>, rel: (Keyed, Keyed) -> bool) {
    |xs| == |xs'| && forall i :: 0 <= i < |xs| ==> rel(xs[i], xs'[i])
  }

  lemma {:induction false} InsertsAlike(ks: seq<SortKey>, x: Keyed, ys: seq<Keyed>, ks': seq<SortKey>, x': Keyed, ys': seq<Keyed>, rel: (Keyed, Keyed) -> bool)
    requires Fits(ks, x, ys) && Fits(ks', x', ys')
    requires rel(x, x') && Related(ys, ys', rel) && LessAlike(ks, ks', rel)
    ensures Related(Insert(ks, x, ys), Insert(ks', x', ys'), rel)
    decreases |ys|
  {
    if ys != [] {
      assert LessPair(ks, ks', ys[0], ys'[0], x, x');
      if KeysLess(ks, ys[0].keys, x.keys) {
        InsertsAlike(ks, x, ys[1..], ks', x', ys'[1..], rel);
      }
    }
  }

  /** Two sequences whose rows compare alike are permuted alike. */
  lemma {:induction false} SortsAlike(ks: seq<SortKey>, xs: seq<Keyed>, ks': seq<SortKey>, xs': seq<Keyed>, rel: (Keyed, Keyed) -> bool)
    requires Aligned(ks, xs) && Aligned(ks', xs')
    requires Related(xs, xs', rel) && LessAlike(ks, ks', rel)
    ensures Related(StableSort(ks, xs), StableSort(ks', xs'), rel)
    decreases |xs|
  {
    if xs != [] {
      SortsAlike(ks, xs[1..], ks', xs'[1..], rel);
      InsertsAlike(ks, xs[0], StableSort(ks, xs[1..]), ks', xs'[0], StableSort(ks', xs'[1..]), rel);
    }
  }

  /** std::stable_sort; an insertion sort stands for the library's. */
  method SortStably(keys: seq<SortKey>, xs: seq<Keyed>) returns (ys: seq<Keyed>)
    requires Aligned(keys, xs)
    ensures ys == StableSort(keys, xs)
  {
    ys := [];
    var i := |xs|;
    while i > 0
      invariant 0 <= i <= |xs|
      invariant ys == StableSort(keys, xs[i..])
    {
      i := i - 1;
      assert xs[i..][1..] == xs[i + 1..];
      ys := Insert(keys, xs[i], ys);
    }
    assert xs[0..] == xs;
  }

  // ---- LIMIT / OFFSET ----

  function DropRows(offset: int, rows: seq<Row>): seq<Row> {
    if offset <= 0 then rows else if offset >= |rows| then [] else rows[offset..]
  }

  /** A negative limit means none. */
  function TakeRows(limit: int, rows: seq<Row>): seq<Row> {
    if 0 <= limit < |rows| then rows[..limit] else rows
  }

  function LimitRows(limit: int, offset: int, rows: seq<Row>): seq<Row> {
    TakeRows(limit, DropRows(offset, rows))
  }
}
