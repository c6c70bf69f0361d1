/** GROUP BY and aggregate functions: the reference meaning, and the hash-table algorithm that computes it. */
module Aggregation {
  import opened Results
  import opened Seqs
  import opened Types
  import opened Ast
  import opened Eval
  import opened RowKeys
  import opened Ordering
  import opened RowOrder

  datatype Agg = Agg(func: string, arg: Option<Expr>, star: bool, distinct: bool, outName: string, outType: DataType)

  /** An input row as aggregation sees it: its hash key, its key values and one argument value an aggregate. */
  datatype Input = Input(key: string, keyValues: Row, args: Row)

  // ---- Grouping ----

  /** The inputs with this key, in order. */
  function WithKey(xs: seq<Input>, key: string): seq<Input> {
    if xs == [] then []
    else
      var n := |xs| - 1;
      if xs[n].key == key then WithKey(xs[..n], key) + [xs[n]] else WithKey(xs[..n], key)
  }

  /** The keys in order of first appearance. */
  function KeysInOrder(xs: seq<Input>): (ks: seq<string>)
    ensures forall x :: x in xs ==> x.key in ks
    ensures forall i, j :: 0 <= i < j < |ks| ==> ks[i] != ks[j]
  {
    if xs == [] then []
    else
      var n := |xs| - 1;
      assert xs == xs[..n] + [xs[n]];
      var before := KeysInOrder(xs[..n]);
      if xs[n].key in before then before else before + [xs[n].key]
  }

  lemma {:induction false} KeysComeFromInputs(xs: seq<Input>)
    ensures forall k :: k in KeysInOrder(xs) ==> WithKey(xs, k) != [] && WithKey(xs, k)[0].key == k && WithKey(xs, k)[0] in xs
    decreases |xs|
  {
    if xs != [] {
      var n := |xs| - 1;
      KeysComeFromInputs(xs[..n]);
      if xs[n].key !in KeysInOrder(xs[..n]) {
        UnseenKey(xs[..n], xs[n].key);
      }
      assert forall k :: k in KeysInOrder(xs) ==> k in KeysInOrder(xs[..n]) || k == xs[n].key;
    }
  }

  lemma UnseenKey(xs: seq<Input>, key: string)
    requires key !in KeysInOrder(xs)
    ensures WithKey(xs, key) == []
  {
    WithKeyMembers(xs, key);
    assert WithKey(xs, key) == [] || WithKey(xs, key)[0] in WithKey(xs, key);
  }

  lemma {:induction false} WithKeyMembers(xs: seq<Input>, key: string)
    ensures forall x :: x in WithKey(xs, key) <==> x in xs && x.key == key
    decreases |xs|
  {
    if xs != [] {
      var n := |xs| - 1;
      WithKeyMembers(xs[..n], key);
      assert xs == xs[..n] + [xs[n]];
    }
  }

  /** The groups: for each key in order of first appearance, the inputs that have it. */
  function Groups(xs: seq<Input>): (gs: seq<seq<Input>>)
    ensures |gs| == |KeysInOrder(xs)|
  {
    var ks := KeysInOrder(xs);
    seq(|ks|, i requires 0 <= i < |ks| => WithKey(xs, ks[i]))
  }

  function TotalSize(gs: seq<seq<Input>>): nat {
    if gs == [] then 0 else |gs[0]| + TotalSize(gs[1..])
  }

  function PositionOf<T(==)>(ks: seq<T>, key: T): (i: nat)
    ensures i <= |ks|
    ensures i < |ks| <==> key in ks
    ensures i < |ks| ==> ks[i] == key
  {
    if ks == [] then 0 else if ks[0] == key then 0 else 1 + PositionOf(ks[1..], key)
  }

  /** One more input extends the group of its key, or opens a new last group. */
  lemma GroupsGrow(xs: seq<Input>, x: Input)
    ensures var ks, gs, gs' := KeysInOrder(xs), Groups(xs), Groups(xs + [x]);
            var p := PositionOf(ks, x.key);
            KeysInOrder(xs + [x]) == (if p < |ks| then ks else ks + [x.key])
            && gs' == if p < |ks| then gs[p := gs[p] + [x]] else gs + [[x]]
  {
    var all := xs + [x];
    DropLast(xs, x);
    var ks, p := KeysInOrder(xs), PositionOf(KeysInOrder(xs), x.key);
    assert forall k :: WithKey(all, k) == if x.key == k then WithKey(xs, k) + [x] else WithKey(xs, k);
    if p == |ks| {
      UnseenKey(xs, x.key);
    }
    var gs := Groups(xs);
    var expected := if p < |ks| then gs[p := gs[p] + [x]] else gs + [[x]];
    forall i | 0 <= i < |expected| ensures Groups(all)[i] == expected[i] {
      if i < |ks| {
        assert (ks[i] == x.key) == (i == p);
      }
    }
  }

  lemma {:induction false} TotalSizeUpdate(gs: seq<seq<Input>>, p: nat, x: Input)
    requires p <= |gs|
    ensures TotalSize(if p < |gs| then gs[p := gs[p] + [x]] else gs + [[x]]) == TotalSize(gs) + 1
    decreases |gs|
  {
    if gs == [] {
      assert ([] + [[x]])[1..] == [];
    } else if p == 0 {
      assert gs[0 := gs[0] + [x]][1..] == gs[1..];
    } else {
      TotalSizeUpdate(gs[1..], p - 1, x);
      if p < |gs| {
        assert gs[p := gs[p] + [x]][1..] == gs[1..][p - 1 := gs[p] + [x]];
      } else {
        assert (gs + [[x]])[1..] == gs[1..] + [[x]];
      }
    }
  }

  lemma {:induction false} GroupSizes(xs: seq<Input>)
    ensures TotalSize(Groups(xs)) == |xs|
    decreases |xs|
  {
    if xs != [] {
      var n := |xs| - 1;
      GroupSizes(xs[..n]);
      GroupsGrow(xs[..n], xs[n]);
      assert xs == xs[..n] + [xs[n]];
      TotalSizeUpdate(Groups(xs[..n]), PositionOf(KeysInOrder(xs[..n]), xs[n].key), xs[n]);
    }
  }

  /**
   The groups split the input: one non-empty group a distinct key, holding exactly the inputs with that key, and
   COUNT(*) summed over the groups is the input row count.
   */
  lemma GroupsPartition(xs: seq<Input>)
    ensures TotalSize(Groups(xs)) == |xs|
    ensures forall i :: 0 <= i < |Groups(xs)| ==> Groups(xs)[i] != []
    ensures forall i, x :: 0 <= i < |Groups(xs)| ==> (x in Groups(xs)[i] <==> x in xs && x.key == KeysInOrder(xs)[i])
  {
    GroupSizes(xs);
    KeysComeFromInputs(xs);
    forall i | 0 <= i < |Groups(xs)|
      ensures forall x :: x in Groups(xs)[i] <==> x in xs && x.key == KeysInOrder(xs)[i]
    {
      WithKeyMembers(xs, KeysInOrder(xs)[i]);
    }
  }

  // ---- Accumulators ----

  datatype AggFunc = COUNT | SUM | AVG | MIN | MAX | OTHER

  /** STDDEV and VARIANCE are recognised as aggregates but have no implementation. */
  function FuncOf(name: string): AggFunc {
    if name == "COUNT" then COUNT
    else if name == "SUM" then SUM
    else if name == "AVG" then AVG
    else if name == "MIN" then MIN
    else if name == "MAX" then MAX
    else OTHER
  }

  datatype Acc = Acc(count: nat, sum: real, minmax: Value, seen: set<string>)

  const EMPTY_ACC: Acc := Acc(0, 0.0, Null, {})

  /** One value into one accumulator. */
  function AccStep(a: Agg, acc: Acc, v: Value): Result<Acc> {
    if a.star then Ok(acc.(count := acc.count + 1))
    else if v.Null? then Ok(acc)
    else if a.distinct && KeyBody(v) in acc.seen then Ok(acc)
    else
      var next := acc.(count := acc.count + 1, seen := if a.distinct then acc.seen + {KeyBody(v)} else acc.seen);
      match FuncOf(a.func)
      case SUM | AVG =>
        var d :- ToDouble(v);
        Ok(next.(sum := acc.sum + d))
      case MIN =>
        var better :- ValueLess(v, acc.minmax);
        Ok(if acc.minmax.Null? || better then next.(minmax := v) else next)
      case MAX =>
        var better :- ValueLess(acc.minmax, v);
        Ok(if acc.minmax.Null? || better then next.(minmax := v) else next)
      case _ => Ok(next)
  }

  function AccFold(a: Agg, vs: Row): Result<Acc> {
    if vs == [] then Ok(EMPTY_ACC)
    else
      var acc :- AccFold(a, vs[..|vs| - 1]);
      AccStep(a, acc, vs[|vs| - 1])
  }

  function AccOut(a: Agg, acc: Acc): Value {
    match FuncOf(a.func)
    case COUNT => Int(W64, acc.count)
    case SUM => if acc.count == 0 then Null else Dbl(acc.sum)
    case AVG => if acc.count == 0 then Null else Dbl(acc.sum / acc.count as real)
    case MIN | MAX => acc.minmax
    case OTHER => Null
  }

  // ---- What the accumulators compute ----

  function NonNull(vs: Row): Row {
    if vs == [] then []
    else
      var n := |vs| - 1;
      if vs[n].Null? then NonNull(vs[..n]) else NonNull(vs[..n]) + [vs[n]]
  }

  function Bodies(vs: Row): set<string> {
    set v | v in vs :: KeyBody(v)
  }

  /** The first value of each distinct key. */
  function Dedup(vs: Row): Row {
    if vs == [] then []
    else
      var n := |vs| - 1;
      if KeyBody(vs[n]) in Bodies(vs[..n]) then Dedup(vs[..n]) else Dedup(vs[..n]) + [vs[n]]
  }

  /** The values an aggregate is about. */
  function Considered(a: Agg, vs: Row): Row {
    if a.star then vs else if a.distinct then Dedup(NonNull(vs)) else NonNull(vs)
  }

  /** Left fold of the sum, in row order. */
  function SumOf(vs: Row): Result<real> {
    if vs == [] then Ok(0.0)
    else
      var before :- SumOf(vs[..|vs| - 1]);
      var d :- ToDouble(vs[|vs| - 1]);
      Ok(before + d)
  }

  /** x comes before y for MIN, after it for MAX. */
  predicate Better(isMin: bool, x: Value, y: Value) {
    SameVariant(x, y) && if isMin then RawLess(x, y) else RawLess(y, x)
  }

  /** m is among the values and none of them is better. */
  predicate IsExtreme(isMin: bool, m: Value, vs: Row) {
    m in vs && forall v :: v in vs ==> SameVariant(v, m) && !Better(isMin, v, m)
  }

  /** The meaning of an aggregate function on the values of one group. */
  ghost predicate IsAggregateOf(a: Agg, vs: Row, out: Value) {
    var cs := Considered(a, vs);
    match FuncOf(a.func)
    case COUNT => out == Int(W64, |cs|)
    case SUM =>
      if cs == [] then out == Null
      else if a.star then out == Dbl(0.0)
      else SumOf(cs).Ok? && out == Dbl(SumOf(cs).value)
    case AVG =>
      if cs == [] then out == Null
      else if a.star then out == Dbl(0.0)
      else SumOf(cs).Ok? && out == Dbl(SumOf(cs).value / |cs| as real)
    case MIN => if cs == [] || a.star then out == Null else IsExtreme(true, out, cs)
    case MAX => if cs == [] || a.star then out == Null else IsExtreme(false, out, cs)
    case OTHER => out == Null
  }

  ghost predicate SumOk(a: Agg, cs: Row, acc: Acc) {
    if !a.star && (FuncOf(a.func) == SUM || FuncOf(a.func) == AVG) then SumOf(cs) == Ok(acc.sum) else acc.sum == 0.0
  }

  ghost predicate ExtremeOk(a: Agg, cs: Row, acc: Acc) {
    if !a.star && (FuncOf(a.func) == MIN || FuncOf(a.func) == MAX) && cs != []
    then !acc.minmax.Null? && IsExtreme(FuncOf(a.func) == MIN, acc.minmax, cs)
    else acc.minmax == Null
  }

  ghost predicate SeenOk(a: Agg, vs: Row, acc: Acc) {
    a.distinct && !a.star ==> acc.seen == Bodies(NonNull(vs))
  }

  ghost predicate AccOk(a: Agg, vs: Row, acc: Acc) {
    var cs := Considered(a, vs);
    acc.count == |cs| && SumOk(a, cs, acc) && ExtremeOk(a, cs, acc) && SeenOk(a, vs, acc)
  }

  lemma BetterLinear(isMin: bool, u: Value, m: Value, v: Value)
    requires SameVariant(u, m) && SameVariant(v, m)
    ensures !Better(isMin, v, v)
    ensures !Better(isMin, u, m) && Better(isMin, v, m) ==> SameVariant(u, v) && !Better(isMin, u, v)
  {
    BeforeIsLinear(v, v, v);
    BeforeIsLinear(u, v, m);
    BeforeIsLinear(m, v, u);
    BeforeIsLinear(u, m, v);
    BeforeIsLinear(v, m, u);
  }

  lemma ExtremeGrows(isMin: bool, m: Value, vs: Row, v: Value)
    requires vs != [] ==> IsExtreme(isMin, m, vs) && SameVariant(v, m)
    ensures IsExtreme(isMin, if vs == [] || Better(isMin, v, m) then v else m, vs + [v])
  {
    if vs == [] {
      BetterLinear(isMin, v, v, v);
    } else {
      forall u | u in vs
        ensures SameVariant(u, m) && !Better(isMin, u, m) && (Better(isMin, v, m) ==> SameVariant(u, v) && !Better(isMin, u, v))
      {
        BetterLinear(isMin, u, m, v);
      }
      BetterLinear(isMin, m, m, v);
    }
  }

  lemma ConsideredGrows(a: Agg, vs: Row, v: Value)
    ensures var skip := !a.star && (v.Null? || (a.distinct && KeyBody(v) in Bodies(NonNull(vs))));
            Considered(a, vs + [v]) == if skip then Considered(a, vs) else Considered(a, vs) + [v]
    ensures NonNull(vs + [v]) == if v.Null? then NonNull(vs) else NonNull(vs) + [v]
  {
    assert (vs + [v])[..|vs|] == vs;
    var nn := NonNull(vs);
    assert (nn + [v])[..|nn|] == nn;
  }

  lemma SumGrows(vs: Row, v: Value)
    ensures SumOf(vs + [v]) == if SumOf(vs).Ok? && ToDouble(v).Ok? then Ok(SumOf(vs).value + ToDouble(v).value) else Err
  {
    assert (vs + [v])[..|vs|] == vs;
  }

  /** The accumulator after a value it takes account of. */
  lemma TakenValue(a: Agg, cs: Row, acc: Acc, v: Value, acc': Acc)
    requires acc.count == |cs| && SumOk(a, cs, acc) && ExtremeOk(a, cs, acc)
    requires AccStep(a, acc, v) == Ok(acc') && (a.star || (!v.Null? && !(a.distinct && KeyBody(v) in acc.seen)))
    ensures acc'.count == |cs + [v]| && SumOk(a, cs + [v], acc') && ExtremeOk(a, cs + [v], acc')
  {
    SumGrows(cs, v);
    if !a.star && (FuncOf(a.func) == MIN || FuncOf(a.func) == MAX) {
      ExtremeGrows(FuncOf(a.func) == MIN, acc.minmax, cs, v);
    }
  }

  lemma StepKeepsAcc(a: Agg, vs: Row, acc: Acc, v: Value)
    requires AccOk(a, vs, acc) && AccStep(a, acc, v).Ok?
    ensures AccOk(a, vs + [v], AccStep(a, acc, v).value)
  {
    ConsideredGrows(a, vs, v);
    StepKeepsSeen(a, vs, acc, v);
    var cs, acc' := Considered(a, vs), AccStep(a, acc, v).value;
    if a.star || (!v.Null? && !(a.distinct && KeyBody(v) in acc.seen)) {
      TakenValue(a, cs, acc, v, acc');
      assert Considered(a, vs + [v]) == cs + [v];
    } else {
      assert Considered(a, vs + [v]) == cs && acc' == acc;
    }
  }

  lemma SeenGrows(a: Agg, acc: Acc, v: Value, acc': Acc)
    requires AccStep(a, acc, v) == Ok(acc') && a.distinct && !a.star
    ensures acc'.seen == if v.Null? then acc.seen else acc.seen + {KeyBody(v)}
  {
  }

  lemma StepKeepsSeen(a: Agg, vs: Row, acc: Acc, v: Value)
    requires SeenOk(a, vs, acc) && AccStep(a, acc, v).Ok?
    ensures SeenOk(a, vs + [v], AccStep(a, acc, v).value)
  {
    if a.distinct && !a.star {
      ConsideredGrows(a, vs, v);
      BodiesGrow(NonNull(vs), v);
      SeenGrows(a, acc, v, AccStep(a, acc, v).value);
    }
  }

  lemma BodiesGrow(vs: Row, v: Value)
    ensures Bodies(vs + [v]) == Bodies(vs) + {KeyBody(v)}
  {
    forall k ensures k in Bodies(vs + [v]) <==> k in Bodies(vs) + {KeyBody(v)} {
      assert v in vs + [v] && forall u :: u in vs ==> u in vs + [v];
    }
  }

  lemma {:induction false} FoldIsRight(a: Agg, vs: Row)
    requires AccFold(a, vs).Ok?
    ensures AccOk(a, vs, AccFold(a, vs).value)
    decreases |vs|
  {
    if vs != [] {
      var n := |vs| - 1;
      FoldIsRight(a, vs[..n]);
      StepKeepsAcc(a, vs[..n], AccFold(a, vs[..n]).value, vs[n]);
      assert vs == vs[..n] + [vs[n]];
    }
  }

  /** Every accumulator ends with the value its aggregate function means. */
  lemma AccumulatorIsAggregate(a: Agg, vs: Row)
    requires AccFold(a, vs).Ok?
    ensures IsAggregateOf(a, vs, AccOut(a, AccFold(a, vs).value))
  {
    FoldIsRight(a, vs);
  }

  // ---- Aggregation over rows ----

  function EvaluateAll(pow: Pow, es: seq<Expr>, schema: Schema, row: Row): (r: Result<Row>)
    ensures r.Ok? ==> |r.value| == |es| && forall i :: 0 <= i < |es| ==> Evaluate(pow, es[i], schema, row) == Ok(r.value[i])
  {
    if es == [] then Ok([])
    else
      var v :- Evaluate(pow, es[0], schema, row);
      var rest :- EvaluateAll(pow, es[1..], schema, row);
      Ok([v] + rest)
  }

  lemma {:induction false} EvaluateAllFrom(pow: Pow, es: seq<Expr>, schema: Schema, row: Row, vals: Row)
    requires |vals| == |es| && forall i :: 0 <= i < |es| ==> Yields(pow, es[i], schema, row, vals[i])
    ensures EvaluateAll(pow, es, schema, row) == Ok(vals)
    decreases |es|
  {
    if es != [] {
      assert forall i :: 0 <= i < |es[1..]| ==> es[1..][i] == es[i + 1] && vals[1..][i] == vals[i + 1];
      EvaluateAllFrom(pow, es[1..], schema, row, vals[1..]);
      assert vals == [vals[0]] + vals[1..];
    }
  }

  /** COUNT(*) has no argument; the placeholder is never looked at. */
  function ArgValue(pow: Pow, a: Agg, schema: Schema, row: Row): Result<Value> {
    if a.star then Ok(Null) else if a.arg.None? then Err else Evaluate(pow, a.arg.value, schema, row)
  }

  function ArgValues(pow: Pow, aggs: seq<Agg>, schema: Schema, row: Row): (r: Result<Row>)
    ensures r.Ok? ==> |r.value| == |aggs| && forall i :: 0 <= i < |aggs| ==> ArgValue(pow, aggs[i], schema, row) == Ok(r.value[i])
  {
    if aggs == [] then Ok([])
    else
      var v :- ArgValue(pow, aggs[0], schema, row);
      var rest :- ArgValues(pow, aggs[1..], schema, row);
      Ok([v] + rest)
  }

  function InputOf(pow: Pow, keys: seq<Expr>, aggs: seq<Agg>, schema: Schema, row: Row): (r: Result<Input>)
    ensures r.Ok? ==> |r.value.args| == |aggs|
  {
    var kv :- EvaluateAll(pow, keys, schema, row);
    var args :- ArgValues(pow, aggs, schema, row);
    Ok(Input(RowKey(kv), kv, args))
  }

  function InputsOf(pow: Pow, keys: seq<Expr>, aggs: seq<Agg>, schema: Schema, rows: seq<Row>): (r: Result<seq<Input>>)
    ensures r.Ok? ==> |r.value| == |rows|
    ensures r.Ok? ==> forall i :: 0 <= i < |rows| ==> InputOf(pow, keys, aggs, schema, rows[i]) == Ok(r.value[i])
  {
    if rows == [] then Ok([])
    else
      var n := |rows| - 1;
      var before :- InputsOf(pow, keys, aggs, schema, rows[..n]);
      var x :- InputOf(pow, keys, aggs, schema, rows[n]);
      Ok(before + [x])
  }

  lemma InputsSnoc(pow: Pow, keys: seq<Expr>, aggs: seq<Agg>, schema: Schema, rows: seq<Row>, row: Row)
    ensures var before, x := InputsOf(pow, keys, aggs, schema, rows), InputOf(pow, keys, aggs, schema, row);
            InputsOf(pow, keys, aggs, schema, rows + [row]) == if before.Ok? && x.Ok? then Ok(before.value + [x.value]) else Err
  {
    assert (rows + [row])[..|rows|] == rows;
  }

  lemma {:induction false} InputsPrefix(pow: Pow, keys: seq<Expr>, aggs: seq<Agg>, schema: Schema, rows: seq<Row>, n: nat)
    requires n <= |rows| && InputsOf(pow, keys, aggs, schema, rows).Ok?
    ensures InputsOf(pow, keys, aggs, schema, rows[..n]) == Ok(InputsOf(pow, keys, aggs, schema, rows).value[..n])
    decreases |rows|
  {
    if n < |rows| {
      InputsPrefix(pow, keys, aggs, schema, rows[..|rows| - 1], n);
      assert rows[..|rows| - 1][..n] == rows[..n];
      var all := InputsOf(pow, keys, aggs, schema, rows).value;
      assert all[..|rows| - 1][..n] == all[..n];
    } else {
      var all := InputsOf(pow, keys, aggs, schema, rows).value;
      assert rows[..n] == rows && all[..n] == all;
    }
  }

  function ArgAt(x: Input, j: nat): Value {
    if j < |x.args| then x.args[j] else Null
  }

  function ArgsOf(xs: seq<Input>, j: nat): (r: Row)
    ensures |r| == |xs|
  {
    seq(|xs|, i requires 0 <= i < |xs| => ArgAt(xs[i], j))
  }

  /** The first j accumulators of one group. */
  function GroupAccs(aggs: seq<Agg>, xs: seq<Input>, j: nat): (r: Result<seq<Acc>>)
    requires j <= |aggs|
    ensures r.Ok? ==> |r.value| == j
  {
    if j == 0 then Ok([])
    else
      var before :- GroupAccs(aggs, xs, j - 1);
      var acc :- AccFold(aggs[j - 1], ArgsOf(xs, j - 1));
      Ok(before + [acc])
  }

  lemma {:induction false} GroupAccsAt(aggs: seq<Agg>, xs: seq<Input>, j: nat, i: nat)
    requires i < j <= |aggs|
    ensures GroupAccs(aggs, xs, j).Ok? ==> AccFold(aggs[i], ArgsOf(xs, i)) == Ok(GroupAccs(aggs, xs, j).value[i])
  {
    if i < j - 1 {
      GroupAccsAt(aggs, xs, j - 1, i);
    }
  }

  function Outputs(aggs: seq<Agg>, accs: seq<Acc>): (r: Row)
    requires |accs| == |aggs|
    ensures |r| == |aggs|
  {
    seq(|aggs|, i requires 0 <= i < |aggs| => AccOut(aggs[i], accs[i]))
  }

  function NewAccs(aggs: seq<Agg>): (r: seq<Acc>)
    ensures |r| == |aggs|
  {
    seq(|aggs|, _ => EMPTY_ACC)
  }

  function GroupRow(aggs: seq<Agg>, g: seq<Input>): Result<Row> {
    if g == [] then Err
    else
      var accs :- GroupAccs(aggs, g, |aggs|);
      Ok(g[0].keyValues + Outputs(aggs, accs))
  }

  function GroupRows(aggs: seq<Agg>, gs: seq<seq<Input>>): (r: Result<seq<Row>>)
    ensures r.Ok? ==> |r.value| == |gs| && forall i :: 0 <= i < |gs| ==> GroupRow(aggs, gs[i]) == Ok(r.value[i])
    ensures r.Ok? <==> forall i :: 0 <= i < |gs| ==> GroupRow(aggs, gs[i]).Ok?
  {
    if gs == [] then Ok([])
    else
      assert forall i :: 0 < i < |gs| ==> gs[i] == gs[1..][i - 1];
      assert forall i :: 0 <= i < |gs| - 1 ==> gs[1..][i] == gs[i + 1];
      var row :- GroupRow(aggs, gs[0]);
      var rest :- GroupRows(aggs, gs[1..]);
      Ok([row] + rest)
  }

  /** HashAggregate's output: one row a group; with no keys and no input, one row of empty aggregates. */
  function AggregateRows(pow: Pow, keys: seq<Expr>, aggs: seq<Agg>, schema: Schema, rows: seq<Row>): Result<seq<Row>> {
    var xs :- InputsOf(pow, keys, aggs, schema, rows);
    if keys == [] && rows == [] then Ok([Outputs(aggs, NewAccs(aggs))])
    else GroupRows(aggs, Groups(xs))
  }

  // ---- The hash table ----

  datatype Slot = Slot(accs: seq<Acc>, keyValues: Row)

  type HashTable = map<string, Slot>

  function StepAccs(aggs: seq<Agg>, accs: seq<Acc>, x: Input, j: nat): (r: Result<seq<Acc>>)
    requires |accs| == |aggs| && j <= |aggs|
    ensures r.Ok? ==> |r.value| == |aggs| && r.value[j..] == accs[j..]
  {
    if j == 0 then Ok(accs)
    else
      var before :- StepAccs(aggs, accs, x, j - 1);
      var acc :- AccStep(aggs[j - 1], accs[j - 1], ArgAt(x, j - 1));
      Ok(before[j - 1 := acc])
  }

  ghost predicate HoldsSlot(aggs: seq<Agg>, g: seq<Input>, slot: Slot) {
    g != [] && slot.keyValues == g[0].keyValues && GroupAccs(aggs, g, |aggs|) == Ok(slot.accs)
  }

  /** What the table and the key order hold after the inputs `xs`. */
  ghost predicate Holds(aggs: seq<Agg>, xs: seq<Input>, table: HashTable, order: seq<string>) {
    && order == KeysInOrder(xs)
    && (forall k :: k in table <==> k in order)
    && forall k :: k in order ==> HoldsSlot(aggs, WithKey(xs, k), table[k])
  }

  lemma FoldStep(a: Agg, g: seq<Input>, x: Input, i: nat)
    ensures AccFold(a, ArgsOf(g + [x], i))
         == if AccFold(a, ArgsOf(g, i)).Ok? then AccStep(a, AccFold(a, ArgsOf(g, i)).value, ArgAt(x, i)) else Err
  {
    assert ArgsOf(g + [x], i)[..|g|] == ArgsOf(g, i);
  }

  lemma {:induction false} StepIsFold(aggs: seq<Agg>, g: seq<Input>, x: Input, accs: seq<Acc>, j: nat)
    requires j <= |aggs| == |accs| && GroupAccs(aggs, g, |aggs|) == Ok(accs)
    ensures StepAccs(aggs, accs, x, j).Ok? <==> GroupAccs(aggs, g + [x], j).Ok?
    ensures StepAccs(aggs, accs, x, j).Ok? ==> GroupAccs(aggs, g + [x], j).value == StepAccs(aggs, accs, x, j).value[..j]
  {
    if j > 0 {
      StepIsFold(aggs, g, x, accs, j - 1);
      FoldStep(aggs[j - 1], g, x, j - 1);
      GroupAccsAt(aggs, g, |aggs|, j - 1);
      var before := StepAccs(aggs, accs, x, j - 1);
      if before.Ok? {
        assert before.value[j - 1..][0] == accs[j - 1..][0];
      }
    }
  }

  lemma {:induction false} StepErrorStays(aggs: seq<Agg>, accs: seq<Acc>, x: Input, i: nat, j: nat)
    requires |accs| == |aggs| && i <= j <= |aggs| && StepAccs(aggs, accs, x, i).Err?
    ensures StepAccs(aggs, accs, x, j).Err?
    decreases j
  {
    if i < j {
      StepErrorStays(aggs, accs, x, i, j - 1);
    }
  }

  lemma NewAccsHold(aggs: seq<Agg>)
    ensures GroupAccs(aggs, [], |aggs|) == Ok(NewAccs(aggs))
  {
    NewAccsHoldUpTo(aggs, |aggs|);
    assert NewAccs(aggs)[..|aggs|] == NewAccs(aggs);
  }

  lemma {:induction false} NewAccsHoldUpTo(aggs: seq<Agg>, j: nat)
    requires j <= |aggs|
    ensures GroupAccs(aggs, [], j) == Ok(NewAccs(aggs)[..j])
  {
    if j > 0 {
      NewAccsHoldUpTo(aggs, j - 1);
      assert ArgsOf([], j - 1) == [];
      assert NewAccs(aggs)[..j] == NewAccs(aggs)[..j - 1] + [EMPTY_ACC];
    }
  }

  lemma WithKeyStep(xs: seq<Input>, x: Input, k: string)
    ensures WithKey(xs + [x], k) == if x.key == k then WithKey(xs, k) + [x] else WithKey(xs, k)
  {
    assert (xs + [x])[..|xs|] == xs;
  }

  /** The accumulators that the slot of this key starts from. */
  function SlotFor(aggs: seq<Agg>, x: Input, table: HashTable): Slot {
    if x.key in table then table[x.key] else Slot(NewAccs(aggs), x.keyValues)
  }

  lemma SlotForHolds(aggs: seq<Agg>, xs: seq<Input>, x: Input, table: HashTable, order: seq<string>)
    requires Holds(aggs, xs, table, order)
    ensures GroupAccs(aggs, WithKey(xs, x.key), |aggs|) == Ok(SlotFor(aggs, x, table).accs)
    ensures (WithKey(xs, x.key) + [x])[0].keyValues == SlotFor(aggs, x, table).keyValues
  {
    if x.key !in table {
      UnseenKey(xs, x.key);
      NewAccsHold(aggs);
    } else {
      assert HoldsSlot(aggs, WithKey(xs, x.key), table[x.key]);
    }
  }

  lemma SlotStays(aggs: seq<Agg>, xs: seq<Input>, x: Input, k: string, slot: Slot)
    requires HoldsSlot(aggs, WithKey(xs, k), slot) && x.key != k
    ensures HoldsSlot(aggs, WithKey(xs + [x], k), slot)
  {
    WithKeyStep(xs, x, k);
  }

  lemma HoldsGrows(aggs: seq<Agg>, xs: seq<Input>, x: Input, table: HashTable, order: seq<string>, slot: Slot)
    requires Holds(aggs, xs, table, order)
    requires HoldsSlot(aggs, WithKey(xs + [x], x.key), slot)
    ensures Holds(aggs, xs + [x], table[x.key := slot], if x.key in table then order else order + [x.key])
  {
    GroupsGrow(xs, x);
    var order', table' := if x.key in table then order else order + [x.key], table[x.key := slot];
    forall k | k in order' ensures HoldsSlot(aggs, WithKey(xs + [x], k), table'[k]) {
      if k != x.key {
        SlotStays(aggs, xs, x, k, table[k]);
      }
    }
  }

  lemma AddedInput(aggs: seq<Agg>, xs: seq<Input>, x: Input, table: HashTable, order: seq<string>)
    requires Holds(aggs, xs, table, order)
    ensures |SlotFor(aggs, x, table).accs| == |aggs|
    ensures var slot := SlotFor(aggs, x, table);
            var fed := StepAccs(aggs, slot.accs, x, |aggs|);
            (fed.Ok? <==> GroupAccs(aggs, WithKey(xs + [x], x.key), |aggs|).Ok?)
            && (fed.Ok? ==> Holds(aggs, xs + [x], table[x.key := slot.(accs := fed.value)], if x.key in table then order else order + [x.key]))
  {
    SlotForHolds(aggs, xs, x, table, order);
    WithKeyStep(xs, x, x.key);
    var slot := SlotFor(aggs, x, table);
    StepIsFold(aggs, WithKey(xs, x.key), x, slot.accs, |aggs|);
    var fed := StepAccs(aggs, slot.accs, x, |aggs|);
    if fed.Ok? {
      assert fed.value[..|aggs|] == fed.value;
      HoldsGrows(aggs, xs, x, table, order, slot.(accs := fed.value));
    }
  }

  /** Feeds one input to every accumulator in turn; stops at the first that cannot take its value. */
  method FeedAccs(aggs: seq<Agg>, start: seq<Acc>, x: Input) returns (r: Result<seq<Acc>>)
    requires |start| == |aggs|
    ensures r == StepAccs(aggs, start, x, |aggs|)
  {
    var accs := start;
    for j := 0 to |aggs|
      invariant StepAccs(aggs, start, x, j) == Ok(accs)
    {
      var next := AccStep(aggs[j], accs[j], ArgAt(x, j));
      assert accs[j] == accs[j..][0] == start[j..][0];
      if next.Err? {
        StepErrorStays(aggs, start, x, j + 1, |aggs|);
        return Err;
      }
      accs := accs[j := next.value];
    }
    r := Ok(accs);
  }

  /**
   Adds one input row: finds or makes the slot of its key and feeds its accumulators.
   It fails exactly when some accumulator of the key's group cannot take its value.
   */
  method AddInput(aggs: seq<Agg>, x: Input, table: HashTable, order: seq<string>, ghost xs: seq<Input>)
    returns (ok: bool, table': HashTable, order': seq<string>)
    requires Holds(aggs, xs, table, order)
    ensures ok <==> GroupAccs(aggs, WithKey(xs + [x], x.key), |aggs|).Ok?
    ensures ok ==> Holds(aggs, xs + [x], table', order')
  {
    AddedInput(aggs, xs, x, table, order);
    table', order' := table, order;
    if x.key !in table {
      order' := order + [x.key];
    }
    var slot := SlotFor(aggs, x, table);
    var fed := FeedAccs(aggs, slot.accs, x);
    ok := fed.Ok?;
    if ok {
      table' := table[x.key := slot.(accs := fed.value)];
    }
  }

  function SlotRow(aggs: seq<Agg>, slot: Slot): Row {
    if |slot.accs| == |aggs| then slot.keyValues + Outputs(aggs, slot.accs) else slot.keyValues
  }

  /** The rows emitted from the table in key order are the reference output. */
  lemma EmittedRows(aggs: seq<Agg>, xs: seq<Input>, table: HashTable, order: seq<string>, rows: seq<Row>)
    requires Holds(aggs, xs, table, order)
    requires |rows| == |order| && forall i :: 0 <= i < |order| ==> rows[i] == SlotRow(aggs, table[order[i]])
    ensures GroupRows(aggs, Groups(xs)) == Ok(rows)
  {
    forall i | 0 <= i < |order| ensures GroupRow(aggs, Groups(xs)[i]) == Ok(rows[i]) {
      assert HoldsSlot(aggs, WithKey(xs, order[i]), table[order[i]]);
    }
    assert GroupRows(aggs, Groups(xs)).value == rows;
  }

  // ---- Errors are not lost ----

  lemma {:induction false} FoldErrorStays(a: Agg, vs: Row, n: nat)
    requires n <= |vs| && AccFold(a, vs[..n]).Err?
    ensures AccFold(a, vs).Err?
    decreases |vs|
  {
    if n < |vs| {
      assert vs[..|vs| - 1][..n] == vs[..n];
      FoldErrorStays(a, vs[..|vs| - 1], n);
    } else {
      assert vs[..n] == vs;
    }
  }

  lemma {:induction false} WithKeyPrefix(xs: seq<Input>, n: nat, k: string)
    requires n <= |xs|
    ensures WithKey(xs[..n], k) <= WithKey(xs, k)
    decreases |xs|
  {
    if n < |xs| {
      WithKeyPrefix(xs[..|xs| - 1], n, k);
      assert xs[..|xs| - 1][..n] == xs[..n];
    } else {
      assert xs[..n] == xs;
    }
  }

  /** If the accumulators of some key fail on a prefix of the input, the whole aggregation fails. */
  lemma PrefixErrorIsError(aggs: seq<Agg>, xs: seq<Input>, n: nat, k: string)
    requires n <= |xs| && k in KeysInOrder(xs)
    requires GroupAccs(aggs, WithKey(xs[..n], k), |aggs|).Err?
    ensures GroupRows(aggs, Groups(xs)).Err?
  {
    WithKeyPrefix(xs, n, k);
    var g, h := WithKey(xs[..n], k), WithKey(xs, k);
    GroupErrorStays(aggs, g, h, |aggs|);
    var p := PositionOf(KeysInOrder(xs), k);
    assert Groups(xs)[p] == h && GroupRow(aggs, h).Err?;
  }

  lemma {:induction false} GroupErrorStays(aggs: seq<Agg>, g: seq<Input>, h: seq<Input>, j: nat)
    requires g <= h && j <= |aggs| && GroupAccs(aggs, g, j).Err?
    ensures GroupAccs(aggs, h, j).Err?
  {
    if GroupAccs(aggs, g, j - 1).Err? {
      GroupErrorStays(aggs, g, h, j - 1);
    } else {
      assert ArgsOf(h, j - 1)[..|g|] == ArgsOf(g, j - 1);
      FoldErrorStays(aggs[j - 1], ArgsOf(h, j - 1), |g|);
    }
  }
}
