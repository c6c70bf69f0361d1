/** Rewriting keeps the meaning: a rewritten expression on an aggregate output row has the value of the original on the group. */
module RewriteMeaning {
  import opened Results
  import opened Types
  import opened Ast
  import opened Eval
  import opened RowKeys
  import opened Aggregation
  import opened Plans
  import opened Names
  import opened Rewrite

  // ---- The rows of a group ----

  /** The rows whose group key is k, in order. */
  function RowsWithKey(pow: Pow, keys: seq<Expr>, schema: Schema, rows: seq<Row>, k: string): seq<Row> {
    if rows == [] then []
    else
      var n := |rows| - 1;
      var kv := EvaluateAll(pow, keys, schema, rows[n]);
      if kv.Ok? && RowKey(kv.value) == k then RowsWithKey(pow, keys, schema, rows[..n], k) + [rows[n]]
      else RowsWithKey(pow, keys, schema, rows[..n], k)
  }

  lemma {:induction false} InputsOfGroup(pow: Pow, keys: seq<Expr>, aggs: seq<Agg>, schema: Schema, rows: seq<Row>, k: string)
    requires InputsOf(pow, keys, aggs, schema, rows).Ok?
    ensures InputsOf(pow, keys, aggs, schema, RowsWithKey(pow, keys, schema, rows, k))
         == Ok(WithKey(InputsOf(pow, keys, aggs, schema, rows).value, k))
    decreases |rows|
  {
    if rows != [] {
      var n := |rows| - 1;
      InputsOfGroup(pow, keys, aggs, schema, rows[..n], k);
      var xs := InputsOf(pow, keys, aggs, schema, rows[..n]).value;
      var x := InputOf(pow, keys, aggs, schema, rows[n]).value;
      WithKeyStep(xs, x, k);
      InputsSnoc(pow, keys, aggs, schema, RowsWithKey(pow, keys, schema, rows[..n], k), rows[n]);
    }
  }

  /** The group behind output row i of an aggregation. */
  ghost function GroupOf(pow: Pow, keys: seq<Expr>, aggs: seq<Agg>, schema: Schema, rows: seq<Row>, i: nat): seq<Row> {
    var xs := InputsOf(pow, keys, aggs, schema, rows);
    if xs.Ok? && i < |KeysInOrder(xs.value)| then RowsWithKey(pow, keys, schema, rows, KeysInOrder(xs.value)[i]) else []
  }

  // ---- The value of an aggregate call on a group ----

  function ArgColumn(pow: Pow, a: Agg, schema: Schema, rows: seq<Row>): Result<Row> {
    if rows == [] then Ok([])
    else
      var n := |rows| - 1;
      var before :- ArgColumn(pow, a, schema, rows[..n]);
      var v :- ArgValue(pow, a, schema, rows[n]);
      Ok(before + [v])
  }

  /** The call computed over the rows of one group, on its own. */
  function AggregateValue(pow: Pow, f: Expr, schema: Schema, rows: seq<Row>): Result<Value>
    requires f.FunctionCall?
  {
    var a := AggOf(f, 0);
    var vs :- ArgColumn(pow, a, schema, rows);
    var acc :- AccFold(a, vs);
    Ok(AccOut(a, acc))
  }

  lemma {:induction false} SlotNumberIsIrrelevant(f: Expr, i: nat, vs: Row)
    requires f.FunctionCall?
    ensures AccFold(AggOf(f, i), vs) == AccFold(AggOf(f, 0), vs)
    decreases |vs|
  {
    if vs != [] {
      SlotNumberIsIrrelevant(f, i, vs[..|vs| - 1]);
    }
  }

  lemma ArgsSnoc(xs: seq<Input>, x: Input, j: nat)
    ensures ArgsOf(xs + [x], j) == ArgsOf(xs, j) + [ArgAt(x, j)]
  {
  }

  lemma {:induction false} ColumnOfInputs(pow: Pow, keys: seq<Expr>, aggs: seq<Agg>, schema: Schema, rows: seq<Row>, j: nat)
    requires j < |aggs| && InputsOf(pow, keys, aggs, schema, rows).Ok?
    ensures ArgColumn(pow, aggs[j], schema, rows) == Ok(ArgsOf(InputsOf(pow, keys, aggs, schema, rows).value, j))
    decreases |rows|
  {
    if rows == [] {
      assert ArgsOf([], j) == [];
    } else {
      var n := |rows| - 1;
      var before, x := InputsOf(pow, keys, aggs, schema, rows[..n]).value, InputOf(pow, keys, aggs, schema, rows[n]).value;
      ColumnOfInputs(pow, keys, aggs, schema, rows[..n], j);
      ArgOfInput(pow, keys, aggs, schema, rows[n], j);
      ArgsSnoc(before, x, j);
    }
  }

  lemma ArgOfInput(pow: Pow, keys: seq<Expr>, aggs: seq<Agg>, schema: Schema, row: Row, j: nat)
    requires j < |aggs| && InputOf(pow, keys, aggs, schema, row).Ok?
    ensures ArgValue(pow, aggs[j], schema, row) == Ok(ArgAt(InputOf(pow, keys, aggs, schema, row).value, j))
  {
  }

  lemma {:induction false} ColumnIgnoresNumber(pow: Pow, f: Expr, j: nat, schema: Schema, rows: seq<Row>)
    requires f.FunctionCall?
    ensures ArgColumn(pow, AggOf(f, j), schema, rows) == ArgColumn(pow, AggOf(f, 0), schema, rows)
    decreases |rows|
  {
    if rows != [] {
      ColumnIgnoresNumber(pow, f, j, schema, rows[..|rows| - 1]);
    }
  }

  lemma FoldIsAggregateValue(pow: Pow, f: Expr, j: nat, schema: Schema, rows: seq<Row>, vs: Row, acc: Acc)
    requires f.FunctionCall? && ArgColumn(pow, AggOf(f, 0), schema, rows) == Ok(vs) && AccFold(AggOf(f, j), vs) == Ok(acc)
    ensures AggregateValue(pow, f, schema, rows) == Ok(AccOut(AggOf(f, j), acc))
  {
    SlotNumberIsIrrelevant(f, j, vs);
  }

  /** Slot j of a group's accumulators is the j-th call computed over the group's rows. */
  lemma SlotValue(pow: Pow, keys: seq<Expr>, slots: seq<Expr>, schema: Schema, rows: seq<Row>, xs: seq<Input>, accs: seq<Acc>, j: nat)
    requires AllCalls(slots) && j < |slots| && InputsOf(pow, keys, SlotAggs(slots), schema, rows) == Ok(xs)
    requires GroupAccs(SlotAggs(slots), xs, |slots|) == Ok(accs)
    ensures AggregateValue(pow, slots[j], schema, rows) == Ok(AccOut(AggOf(slots[j], j), accs[j]))
  {
    ColumnOfInputs(pow, keys, SlotAggs(slots), schema, rows, j);
    ColumnIgnoresNumber(pow, slots[j], j, schema, rows);
    GroupAccsAt(SlotAggs(slots), xs, |slots|, j);
    FoldIsAggregateValue(pow, slots[j], j, schema, rows, ArgsOf(xs, j), accs[j]);
  }

  // ---- Calls that share a slot have one value ----

  /** A column reference as the parser makes it: names as the tokenizer leaves them, a schema only with a table. */
  predicate LexedRef(e: Expr) {
    e.ColumnRef? ==>
      && LexedName(e.column) && (e.table.Some? ==> LexedName(e.table.value)) && (e.schema.Some? ==> LexedName(e.schema.value))
      && (e.schema.Some? ==> e.table.Some?)
  }

  function JoinDots(parts: seq<string>): string {
    if parts == [] then "" else if |parts| == 1 then parts[0] else parts[0] + ("." + JoinDots(parts[1..]))
  }

  lemma {:induction false} JoinDotsInjective(p: seq<string>, q: seq<string>)
    requires p != [] && q != [] && (forall s :: s in p || s in q ==> LexedName(s)) && JoinDots(p) == JoinDots(q)
    ensures p == q
    decreases |p|
  {
    if |p| > 1 && |q| > 1 {
      SplitName(p[0], JoinDots(p[1..]), q[0], JoinDots(q[1..]));
      JoinDotsInjective(p[1..], q[1..]);
      assert p == [p[0]] + p[1..] && q == [q[0]] + q[1..];
    } else if |p| > 1 {
      SplitName(q[0], "", p[0], JoinDots(p[1..]));
    } else if |q| > 1 {
      SplitName(p[0], "", q[0], JoinDots(q[1..]));
    }
  }

  function RefParts(e: Expr): seq<string>
    requires e.ColumnRef?
  {
    (if e.schema.Some? then [e.schema.value] else []) + (if e.table.Some? then [e.table.value] else []) + [e.column]
  }

  lemma RefStringIsJoin(e: Expr)
    requires e.ColumnRef?
    ensures RefToString(e) == JoinDots(RefParts(e))
  {
    var parts := RefParts(e);
    assert |parts| > 1 ==> JoinDots(parts) == parts[0] + "." + JoinDots(parts[1..]);
    assert |parts| > 2 ==> JoinDots(parts[1..]) == parts[1] + "." + parts[2];
  }

  lemma RefStringInjective(a: Expr, b: Expr)
    requires a.ColumnRef? && b.ColumnRef? && LexedRef(a) && LexedRef(b) && RefToString(a) == RefToString(b)
    ensures a == b
  {
    RefStringIsJoin(a);
    RefStringIsJoin(b);
    JoinDotsInjective(RefParts(a), RefParts(b));
    var p, q := RefParts(a), RefParts(b);
    assert p[|p| - 1] == a.column && q[|q| - 1] == b.column;
    assert |p| > 1 ==> p[|p| - 2] == a.table.value && q[|q| - 2] == b.table.value;
    assert |p| > 2 ==> p[0] == a.schema.value && q[0] == b.schema.value;
  }

  predicate LexedCall(f: Expr) {
    f.FunctionCall? && forall a :: a in f.args ==> LexedRef(a)
  }

  predicate LexedCalls(slots: seq<Expr>)
    ensures LexedCalls(slots) ==> AllCalls(slots)
  {
    forall f :: f in slots ==> LexedCall(f)
  }

  lemma SharedSlotSharedValue(pow: Pow, f: Expr, slot: Expr, schema: Schema, rows: seq<Row>)
    requires LexedCall(f) && LexedCall(slot) && ServedBy(f, slot)
    ensures AggregateValue(pow, f, schema, rows) == AggregateValue(pow, slot, schema, rows)
  {
    if f != slot {
      if !f.star {
        RefStringInjective(slot.args[0], f.args[0]);
      }
      assert AggOf(f, 0) == AggOf(slot, 0);
    }
  }

  // ---- Names ----

  lemma DigitsKeepCase(n: nat)
    ensures Lower(NatToString(n)) == NatToString(n)
  {
    NatRoundTrip(n);
    var s := NatToString(n);
    forall k | 0 <= k < |s| ensures Lower(s)[k] == s[k] {
      assert s[k] in s;
    }
  }

  lemma SlotNamesDistinct(i: nat, j: nat)
    requires SameName(SlotName(i), SlotName(j))
    ensures i == j
  {
    DigitsKeepCase(i);
    DigitsKeepCase(j);
    NatRoundTrip(i);
    NatRoundTrip(j);
    var a, b := SlotName(i), SlotName(j);
    assert Lower(a)[5..] == Lower(NatToString(i)) && Lower(b)[5..] == Lower(NatToString(j));
  }

  /** No name is one of the first n slot names, in any case. */
  predicate NoSlotName(names: seq<string>, n: nat) {
    forall i, j :: 0 <= i < |names| && 0 <= j < n ==> !SameName(names[i], SlotName(j))
  }

  /** Group keys are columns with distinct names, none of them the name of one of the n slots. */
  ghost predicate KeysOk(keys: seq<Expr>, names: seq<string>, n: nat) {
    && |names| == |keys| && NoSlotName(names, n)
    && (forall i :: 0 <= i < |keys| ==> keys[i].ColumnRef? && LexedRef(keys[i]) && keys[i].column != "*" && names[i] == keys[i].column)
    && (forall i, j :: 0 <= i < j < |names| ==> !SameName(names[i], names[j]))
  }

  lemma SlotPosition(names: seq<string>, aggs: seq<Agg>, j: nat)
    requires j < |aggs| && (forall i :: 0 <= i < |aggs| ==> aggs[i].outName == SlotName(i))
    requires NoSlotName(names, |aggs|)
    ensures IndexOf(AggregateSchema(names, aggs), SlotName(j)) == |names| + j
  {
    var s := AggregateSchema(names, aggs);
    var p := IndexOf(s, SlotName(j));
    assert s[|names| + j].name == SlotName(j);
    if p >= |names| {
      SlotNamesDistinct(p - |names|, j);
    }
  }

  lemma KeyPosition(names: seq<string>, aggs: seq<Agg>, i: nat)
    requires i < |names| && forall a, b :: 0 <= a < b < |names| ==> !SameName(names[a], names[b])
    ensures IndexOf(AggregateSchema(names, aggs), names[i]) == i
  {
    var s := AggregateSchema(names, aggs);
    assert s[i].name == names[i];
    var p := IndexOf(s, names[i]);
    assert p <= i && s[p].name == names[p];
  }

  /** A qualified name is no column of an aggregate's output. */
  lemma QualifiedIsAbsent(names: seq<string>, aggs: seq<Agg>, t: string, c: string)
    requires LexedName(t) && forall i :: 0 <= i < |names| ==> LexedName(names[i])
    requires forall i :: 0 <= i < |aggs| ==> aggs[i].outName == SlotName(i)
    ensures IndexOf(AggregateSchema(names, aggs), t + "." + c) == -1
  {
    var s := AggregateSchema(names, aggs);
    var p := IndexOf(s, t + "." + c);
    if 0 <= p < |names| {
      NameIsNotQualified(names[p], t, c);
    } else if p >= |names| {
      SlotNameIsLexed(p - |names|);
      NameIsNotQualified(SlotName(p - |names|), t, c);
    }
  }

  lemma SlotNameIsLexed(n: nat)
    ensures LexedName(SlotName(n))
  {
    NatRoundTrip(n);
  }

  // ---- Output rows ----

  predicate GroupOutput(keys: seq<Expr>, aggs: seq<Agg>, kv: Row, accs: seq<Acc>, out: Row) {
    |kv| == |keys| && |accs| == |aggs| && out == kv + Outputs(aggs, accs)
  }

  /** The output row of one non-empty group of inputs. */
  lemma GroupRowParts(aggs: seq<Agg>, keys: seq<Expr>, g: seq<Input>, out: Row) returns (accs: seq<Acc>)
    requires GroupRow(aggs, g) == Ok(out) && |g[0].keyValues| == |keys|
    ensures GroupAccs(aggs, g, |aggs|) == Ok(accs) && GroupOutput(keys, aggs, g[0].keyValues, accs, out)
  {
    accs := GroupAccs(aggs, g, |aggs|).value;
  }

  /** The inputs behind output row i are those of the rows of its group. */
  lemma GroupInputs(pow: Pow, keys: seq<Expr>, aggs: seq<Agg>, schema: Schema, rows: seq<Row>, xs: seq<Input>, i: nat)
    returns (g: seq<Input>)
    requires InputsOf(pow, keys, aggs, schema, rows) == Ok(xs) && i < |KeysInOrder(xs)|
    ensures var rg := GroupOf(pow, keys, aggs, schema, rows, i);
            g == Groups(xs)[i] && InputsOf(pow, keys, aggs, schema, rg) == Ok(g) && g != [] && |rg| == |g|
            && EvaluateAll(pow, keys, schema, rg[0]) == Ok(g[0].keyValues)
  {
    var k := KeysInOrder(xs)[i];
    g := WithKey(xs, k);
    InputsOfGroup(pow, keys, aggs, schema, rows, k);
    GroupIsInhabited(xs, i);
    FirstInput(pow, keys, aggs, schema, RowsWithKey(pow, keys, schema, rows, k), g);
  }

  lemma GroupIsInhabited(xs: seq<Input>, i: nat)
    requires i < |KeysInOrder(xs)|
    ensures WithKey(xs, KeysInOrder(xs)[i]) != [] && Groups(xs)[i] == WithKey(xs, KeysInOrder(xs)[i])
  {
    KeysComeFromInputs(xs);
    assert KeysInOrder(xs)[i] in KeysInOrder(xs);
  }

  lemma FirstInput(pow: Pow, keys: seq<Expr>, aggs: seq<Agg>, schema: Schema, rows: seq<Row>, g: seq<Input>)
    requires InputsOf(pow, keys, aggs, schema, rows) == Ok(g) && g != []
    ensures |rows| == |g| && EvaluateAll(pow, keys, schema, rows[0]) == Ok(g[0].keyValues)
  {
    assert InputOf(pow, keys, aggs, schema, rows[0]) == Ok(g[0]);
  }

  /** Output row i shows the keys of its group's first row and the accumulators of its group. */
  lemma OutputRow(pow: Pow, keys: seq<Expr>, aggs: seq<Agg>, schema: Schema, rows: seq<Row>, out: seq<Row>, i: nat)
    returns (kv: Row, xs: seq<Input>, accs: seq<Acc>)
    requires AggregateRows(pow, keys, aggs, schema, rows) == Ok(out) && i < |out|
    ensures var g := GroupOf(pow, keys, aggs, schema, rows, i);
            GroupOutput(keys, aggs, kv, accs, out[i])
            && InputsOf(pow, keys, aggs, schema, g) == Ok(xs) && GroupAccs(aggs, xs, |aggs|) == Ok(accs)
            && (keys != [] ==> g != [])
            && (g != [] ==> EvaluateAll(pow, keys, schema, g[0]) == Ok(kv))
  {
    var all := InputsOf(pow, keys, aggs, schema, rows).value;
    if keys == [] && rows == [] {
      kv, xs, accs := [], [], NewAccs(aggs);
      NewAccsHold(aggs);
    } else {
      xs := GroupInputs(pow, keys, aggs, schema, rows, all, i);
      kv := xs[0].keyValues;
      accs := GroupRowParts(aggs, keys, xs, out[i]);
    }
  }

  // ---- The theorem ----

  /** The original expression on a group: aggregate calls computed over its rows, columns read from its first row. */
  ghost function GroupWorld(pow: Pow, schema: Schema, g: seq<Row>): World {
    World(schema, if g == [] then [] else g[0],
          (f: Expr) => if f.FunctionCall? && AggregateValue(pow, f, schema, g).Ok? then Literal(AggregateValue(pow, f, schema, g).value) else f)
  }

  function OutputWorld(names: seq<string>, slots: seq<Expr>, out: Row): World
    requires AllCalls(slots)
  {
    World(AggregateSchema(names, SlotAggs(slots)), out, (f: Expr) => Column(SlotName(FindSlot(slots, f))))
  }

  ghost predicate ExprOk(e: Expr, keys: seq<Expr>, slots: seq<Expr>) {
    && Covered(e, slots)
    && (forall f :: f in CollectAggs(e) ==> LexedCall(f))
    && forall c :: c in CollectRefs(e) ==> c in keys
  }

  /**
   For column group keys with distinct names: the rewritten SELECT, HAVING or ORDER BY expression evaluated on an
   output row of the aggregation equals the original evaluated on that row's group.
   */
  lemma RewritePreservesMeaning(pow: Pow, e: Expr, keys: seq<Expr>, names: seq<string>, slots: seq<Expr>, schema: Schema, rows: seq<Row>, out: seq<Row>, i: nat)
    requires KeysOk(keys, names, |slots|) && LexedCalls(slots) && ExprOk(e, keys, slots)
    requires AggregateRows(pow, keys, SlotAggs(slots), schema, rows) == Ok(out) && i < |out|
    ensures Evaluate(pow, CloneSubstAggs(e, slots), AggregateSchema(names, SlotAggs(slots)), out[i])
         == In_(pow, GroupWorld(pow, schema, GroupOf(pow, keys, SlotAggs(slots), schema, rows, i)), e)
  {
    var aggs := SlotAggs(slots);
    var g := GroupOf(pow, keys, aggs, schema, rows, i);
    var kv, xs, accs := OutputRow(pow, keys, aggs, schema, rows, out, i);
    LeavesAlike(pow, e, keys, names, slots, schema, g, kv, xs, accs, out[i]);
    SubstEvaluatesAlike(pow, e, OutputWorld(names, slots, out[i]), GroupWorld(pow, schema, g));
  }

  /** Calls and column references have the same values on the output row and on the group. */
  lemma LeavesAlike(pow: Pow, e: Expr, keys: seq<Expr>, names: seq<string>, slots: seq<Expr>, schema: Schema, g: seq<Row>, kv: Row, xs: seq<Input>, accs: seq<Acc>, out: Row)
    requires KeysOk(keys, names, |slots|) && LexedCalls(slots) && ExprOk(e, keys, slots)
    requires GroupOutput(keys, SlotAggs(slots), kv, accs, out) && (keys != [] ==> g != [])
    requires InputsOf(pow, keys, SlotAggs(slots), schema, g) == Ok(xs) && GroupAccs(SlotAggs(slots), xs, |slots|) == Ok(accs)
    requires g != [] ==> EvaluateAll(pow, keys, schema, g[0]) == Ok(kv)
    ensures SameLeaves(pow, CollectAggs(e), CollectRefs(e), OutputWorld(names, slots, out), GroupWorld(pow, schema, g))
  {
    var w1, w2 := OutputWorld(names, slots, out), GroupWorld(pow, schema, g);
    forall f | f in CollectAggs(e) ensures Evaluate(pow, w1.m(f), w1.schema, w1.row) == Evaluate(pow, w2.m(f), w2.schema, w2.row) {
      SlotReference(pow, keys, names, slots, schema, g, kv, xs, accs, out, f);
    }
    forall c | c in CollectRefs(e) ensures Evaluate(pow, c, w1.schema, w1.row) == Evaluate(pow, c, w2.schema, w2.row) {
      KeyReference(pow, keys, names, SlotAggs(slots), schema, g, kv, accs, out, c);
    }
  }

  lemma SlotReference(pow: Pow, keys: seq<Expr>, names: seq<string>, slots: seq<Expr>, schema: Schema, g: seq<Row>, kv: Row, xs: seq<Input>, accs: seq<Acc>, out: Row, f: Expr)
    requires KeysOk(keys, names, |slots|) && LexedCalls(slots) && LexedCall(f) && FindSlot(slots, f) < |slots|
    requires GroupOutput(keys, SlotAggs(slots), kv, accs, out)
    requires InputsOf(pow, keys, SlotAggs(slots), schema, g) == Ok(xs) && GroupAccs(SlotAggs(slots), xs, |slots|) == Ok(accs)
    ensures var w1, w2 := OutputWorld(names, slots, out), GroupWorld(pow, schema, g);
            Evaluate(pow, w1.m(f), w1.schema, w1.row) == Evaluate(pow, w2.m(f), w2.schema, w2.row)
  {
    var j := FindSlot(slots, f);
    var v := AccOut(AggOf(slots[j], j), accs[j]);
    assert AggregateValue(pow, f, schema, g) == Ok(v) by {
      SharedSlotSharedValue(pow, f, slots[j], schema, g);
      SlotValue(pow, keys, slots, schema, g, xs, accs, j);
    }
    SlotLookup(pow, names, slots, out, j);
  }

  lemma SlotLookup(pow: Pow, names: seq<string>, slots: seq<Expr>, out: Row, j: nat)
    requires AllCalls(slots) && j < |slots| && |out| == |names| + |slots|
    requires NoSlotName(names, |slots|)
    ensures Yields(pow, Column(SlotName(j)), AggregateSchema(names, SlotAggs(slots)), out, out[|names| + j])
  {
    SlotPosition(names, SlotAggs(slots), j);
    PlainColumn(pow, SlotName(j), AggregateSchema(names, SlotAggs(slots)), out);
  }

  lemma PlainColumn(pow: Pow, name: string, schema: Schema, row: Row)
    requires name != "*" && 0 <= IndexOf(schema, name) < |row|
    ensures Evaluate(pow, Column(name), schema, row) == Ok(row[IndexOf(schema, name)])
  {
  }

  lemma KeyReference(pow: Pow, keys: seq<Expr>, names: seq<string>, aggs: seq<Agg>, schema: Schema, g: seq<Row>, kv: Row, accs: seq<Acc>, out: Row, c: Expr)
    requires KeysOk(keys, names, 0) && c in keys && g != [] && (forall i :: 0 <= i < |aggs| ==> aggs[i].outName == SlotName(i))
    requires GroupOutput(keys, aggs, kv, accs, out)
    requires EvaluateAll(pow, keys, schema, g[0]) == Ok(kv)
    ensures Evaluate(pow, c, AggregateSchema(names, aggs), out) == Evaluate(pow, c, schema, g[0])
  {
    var i :| 0 <= i < |keys| && keys[i] == c;
    KeyPosition(names, aggs, i);
    if c.table.Some? {
      QualifiedIsAbsent(names, aggs, c.table.value, c.column);
    }
    assert out[i] == kv[i];
  }
}
