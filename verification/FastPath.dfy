/** SELECT through either path: the typed fast path and the operator tree agree. */
module FastPath {
  import opened Results
  import opened Seqs
  import opened Types
  import opened Ast
  import opened Eval
  import opened Tables
  import opened Ordering
  import opened RowOrder
  import opened Aggregation
  import opened Plans
  import opened Operators
  import opened Rewrite
  import opened RewriteMeaning
  import opened Planner
  import opened FastPredicate
  import opened FastAggregate
  import opened FastGrouping
  import opened FastAgreement

  /**
   When the two paths agree on a statement that the gate accepts: references find the columns of their bare names, the
   group column is not named like a slot in use, atoms compare a column with a constant of its kind, the cells that are
   read are exact, and sort names mean one column to both paths.
   */
  ghost predicate Agreeable(stmt: SelectStmt, t: TableData, shape: Shape)
    requires TableOk(t) && ShapeOk(t, shape)
  {
    && NamesFound(stmt, t) && Followed(t, shape)
    && (stmt.where.Some? ==> AtomsTyped(stmt.where.value, t))
    && CellsExact(t, shape)
    && OrderAgrees(stmt, shape, FastSchema(t, shape))
  }

  // ---- The general plan of an accepted statement ----

  function InputPlan(stmt: SelectStmt, t: TableData): Plan {
    FilterBy(SeqScan(t, t.schema), stmt.where)
  }

  function BodyPlan(stmt: SelectStmt, t: TableData): Plan {
    OverAggregate(stmt, AggregatePlan(stmt, InputPlan(stmt, t)))
  }

  lemma PlanOfAccepted(pow: Pow, stmt: SelectStmt, cat: Catalog, t: TableData, shape: Shape)
    requires FastTable(stmt, cat) == Some(t) && |t.cols| == |t.schema| && ReadShape(stmt, t) == Some(shape)
    ensures BuildSelect(pow, stmt, cat) == ApplyLimit(pow, BodyPlan(stmt, t), stmt)
  {
    var first := SeqScan(t, ScanSchema(t.schema, ""));
    assert ScanSchema(t.schema, "") == t.schema;
    assert stmt.from[1..] == [];
    assert BuildFrom(pow, stmt.from, cat) == Ok(first);
    AcceptedIsAggregate(stmt, t, shape);
  }

  lemma AcceptedIsAggregate(stmt: SelectStmt, t: TableData, shape: Shape)
    requires |t.cols| == |t.schema| && ReadShape(stmt, t) == Some(shape)
    ensures IsAggregateQuery(stmt)
  {
    ItemsRead(stmt.selectList, t, shape.groupCol, shape.groupName);
    var f := Calls(stmt.selectList)[0];
    assert CallRead(t, f, shape.specs[0]);
    var _ := CallsAreItems(stmt.selectList, f);
    CallIsAggregate(f);
  }

  // ---- Streams ----

  lemma FilteredSnoc(pow: Pow, e: Expr, schema: Schema, before: seq<Row>, row: Row, kept: seq<Row>, pass: bool)
    requires StepRows(pow, KeepIf(e), schema, before) == Stream(kept, false)
    requires EvaluatePredicate(pow, e, schema, row) == Ok(pass)
    ensures StepRows(pow, KeepIf(e), schema, before + [row]) == Stream(if pass then kept + [row] else kept, false)
  {
    StepRowsConcat(pow, KeepIf(e), schema, before, [row]);
    StepOne(pow, KeepIf(e), schema, row);
    AddNothing(kept);
  }

  predicate SelectsAlike(pow: Pow, e: Expr, t: TableData, preds: seq<PredAtom>, r: nat)
    requires TableOk(t) && AllReadable(t, preds) && r < RowCount(t)
  {
    EvaluatePredicate(pow, e, t.schema, RowAt(t, r)) == Ok(AllHold(t, preds, r))
  }

  lemma FilteredStep(pow: Pow, e: Expr, t: TableData, preds: seq<PredAtom>, n: nat)
    requires TableOk(t) && AllReadable(t, preds) && n < RowCount(t) && SelectsAlike(pow, e, t, preds, n)
    requires StepRows(pow, KeepIf(e), t.schema, TableRows(t)[..n]) == Stream(PassingRows(t, preds, n), false)
    ensures StepRows(pow, KeepIf(e), t.schema, TableRows(t)[..n + 1]) == Stream(PassingRows(t, preds, n + 1), false)
  {
    var rows := TableRows(t);
    PrefixSnoc(rows, n);
    assert rows[n] == RowAt(t, n);
    FilteredSnoc(pow, e, t.schema, rows[..n], RowAt(t, n), PassingRows(t, preds, n), AllHold(t, preds, n));
  }

  lemma {:induction false} FilteredPrefix(pow: Pow, e: Expr, t: TableData, preds: seq<PredAtom>, n: nat)
    requires TableOk(t) && AllReadable(t, preds) && n <= RowCount(t)
    requires forall r :: 0 <= r < n ==> SelectsAlike(pow, e, t, preds, r)
    ensures StepRows(pow, KeepIf(e), t.schema, TableRows(t)[..n]) == Stream(PassingRows(t, preds, n), false)
  {
    if n > 0 {
      var k: nat := n - 1;
      FilteredPrefix(pow, e, t, preds, k);
      FilteredStep(pow, e, t, preds, k);
    }
  }

  lemma {:induction false} AllRowsPass(t: TableData, n: nat)
    requires TableOk(t) && n <= RowCount(t)
    ensures PassingRows(t, [], n) == TableRows(t)[..n]
  {
    if n > 0 {
      AllRowsPass(t, n - 1);
      assert TableRows(t)[..n] == TableRows(t)[..n - 1] + [RowAt(t, n - 1)];
    }
  }

  /** WHERE keeps exactly the rows that pass the flattened predicate. */
  lemma InputStream(pow: Pow, stmt: SelectStmt, t: TableData, shape: Shape)
    requires TableOk(t) && ShapeOk(t, shape) && ReadShape(stmt, t) == Some(shape) && Agreeable(stmt, t, shape)
    ensures PlanOk(InputPlan(stmt, t))
    ensures StreamOf(pow, InputPlan(stmt, t)) == Stream(PassingRows(t, shape.preds, RowCount(t)), false)
  {
    var n := RowCount(t);
    assert TableRows(t)[..n] == TableRows(t);
    if stmt.where.None? {
      AllRowsPass(t, n);
    } else {
      forall r | 0 <= r < n ensures SelectsAlike(pow, stmt.where.value, t, shape.preds, r) {
        RowPassesIffTrue(pow, stmt.where.value, t, r);
      }
      FilteredPrefix(pow, stmt.where.value, t, shape.preds, n);
    }
  }

  lemma AggregateStream(pow: Pow, stmt: SelectStmt, t: TableData, shape: Shape) returns (out: seq<Row>)
    requires TableOk(t) && ShapeOk(t, shape) && Ready(stmt, t, shape) && Agreeable(stmt, t, shape)
    ensures PlanOk(AggregatePlan(stmt, InputPlan(stmt, t)))
    ensures StreamOf(pow, AggregatePlan(stmt, InputPlan(stmt, t))) == Stream(out, false)
    ensures OutsPair(SettingOf(stmt, t, shape), out, FastGroups(t, shape))
  {
    InputStream(pow, stmt, t, shape);
    SettingIsSet(stmt, t, shape);
    out := AggregationsAgree(pow, SettingOf(stmt, t, shape));
    SlotsAreCalls(stmt);
    assert PlanSchema(InputPlan(stmt, t)) == t.schema;
    AggregateOver(pow, stmt, InputPlan(stmt, t), PassingRows(t, shape.preds, RowCount(t)), out);
  }

  lemma AggregateOver(pow: Pow, stmt: SelectStmt, input: Plan, rows: seq<Row>, out: seq<Row>)
    requires AllCalls(SlotsOf(stmt)) && PlanOk(input) && StreamOf(pow, input) == Stream(rows, false)
    requires AggregateRows(pow, GroupKeys(stmt), SlotAggs(SlotsOf(stmt)), PlanSchema(input), rows) == Ok(out)
    ensures PlanOk(AggregatePlan(stmt, input)) && StreamOf(pow, AggregatePlan(stmt, input)) == Stream(out, false)
  {
    hide SlotsOf, SlotAggs, KeyNames, PlanSchema, AggregateRows;
  }

  // ---- ORDER BY and projection ----

  function SortedPlan(stmt: SelectStmt, agg: Plan): Plan {
    if stmt.orderBy.Some? then Sort(agg, GeneralKeys(stmt)) else agg
  }

  lemma BodyPlanIs(stmt: SelectStmt, t: TableData)
    requires stmt.having.None?
    ensures BodyPlan(stmt, t) == Project(SortedPlan(stmt, AggregatePlan(stmt, InputPlan(stmt, t))), GeneralItems(stmt))
    ensures PlanSchema(SortedPlan(stmt, AggregatePlan(stmt, InputPlan(stmt, t)))) == OutSchema(stmt)
  {
    assert PlanSchema(AggregatePlan(stmt, InputPlan(stmt, t))) == OutSchema(stmt);
  }

  /** The fast rows after ORDER BY, in the order of the general path. */
  lemma SortedStream(pow: Pow, stmt: SelectStmt, t: TableData, shape: Shape, out: seq<Row>, fs: seq<Row>) returns (sorted: seq<Row>)
    requires TableOk(t) && ShapeOk(t, shape) && Ready(stmt, t, shape) && Agreeable(stmt, t, shape)
    requires OutsPair(SettingOf(stmt, t, shape), out, FastGroups(t, shape))
    requires forall g :: g in FastGroups(t, shape) ==> GroupShowable(shape, g)
    requires FastOrder(FastSchema(t, shape), stmt.orderBy, FastRows(shape, FastGroups(t, shape))) == Some(fs)
    requires PlanOk(AggregatePlan(stmt, InputPlan(stmt, t))) && StreamOf(pow, AggregatePlan(stmt, InputPlan(stmt, t))) == Stream(out, false)
    ensures PlanOk(SortedPlan(stmt, AggregatePlan(stmt, InputPlan(stmt, t))))
    ensures StreamOf(pow, SortedPlan(stmt, AggregatePlan(stmt, InputPlan(stmt, t)))) == Stream(sorted, false)
    ensures RowsPair(SettingOf(stmt, t, shape), sorted, fs)
  {
    var agg := AggregatePlan(stmt, InputPlan(stmt, t));
    assert PlanSchema(agg) == OutSchema(stmt);
    if stmt.orderBy.Some? {
      var cols := ResolveKeys(FastSchema(t, shape), stmt.orderBy.value).value;
      sorted := SortsAgree(pow, stmt, t, shape, cols, out, FastGroups(t, shape));
    } else {
      sorted := out;
      forall i | 0 <= i < |out| ensures RowPair(SettingOf(stmt, t, shape), out[i], fs[i]) {
        assert OutPair(SettingOf(stmt, t, shape), out[i], FastGroups(t, shape)[i]);
      }
    }
  }

  /** Everything before LIMIT. */
  lemma BodyStream(pow: Pow, stmt: SelectStmt, t: TableData, shape: Shape, fs: seq<Row>) returns (rows: seq<Row>)
    requires TableOk(t) && ShapeOk(t, shape) && Ready(stmt, t, shape) && Agreeable(stmt, t, shape)
    requires forall g :: g in FastGroups(t, shape) ==> GroupShowable(shape, g)
    requires FastOrder(FastSchema(t, shape), stmt.orderBy, FastRows(shape, FastGroups(t, shape))) == Some(fs)
    ensures PlanOk(BodyPlan(stmt, t)) && StreamOf(pow, BodyPlan(stmt, t)) == Stream(rows, false)
    ensures AllAgree(stmt.selectList, shape.hasKey, rows, fs)
  {
    var out := AggregateStream(pow, stmt, t, shape);
    var sorted := SortedStream(pow, stmt, t, shape, out, fs);
    BodyPlanIs(stmt, t);
    rows := RowsProject(pow, stmt, t, shape, sorted, fs);
  }

  // ---- LIMIT ----

  lemma LiteralIsEvaluated(pow: Pow, e: Option<Expr>, default: int)
    requires LiteralBound(e, default) != Ok(None)
    ensures LimitValue(pow, e, default) == match LiteralBound(e, default) case Err => Err case Ok(n) => Ok(n.value)
  {
  }

  /** The plan q puts the LIMIT over p that turns the rows fs into gs. */
  predicate LimitedAlike(limited: bool, p: Plan, q: Plan, fs: seq<Row>, gs: seq<Row>) {
    if limited then q.Limit? && q.child == p && gs == LimitRows(q.limit, q.offset, fs) else q == p && gs == fs
  }

  /** A fast tail that throws does so on a LIMIT or OFFSET that building the general plan also rejects. */
  lemma LimitAgrees(pow: Pow, stmt: SelectStmt, p: Plan, fs: seq<Row>)
    requires FastLimit(stmt.limit, fs) != Ok(None)
    ensures FastLimit(stmt.limit, fs).Err? ==> ApplyLimit(pow, p, stmt).Err?
    ensures FastLimit(stmt.limit, fs).Ok? ==>
      ApplyLimit(pow, p, stmt).Ok? && LimitedAlike(stmt.limit.Some?, p, ApplyLimit(pow, p, stmt).value, fs, FastLimit(stmt.limit, fs).value.value)
  {
    if stmt.limit.Some? {
      var count, offset := LiteralBound(stmt.limit.value.limit, -1), LiteralBound(stmt.limit.value.offset, 0);
      LiteralIsEvaluated(pow, stmt.limit.value.offset, 0);
      if offset.Ok? {
        LiteralIsEvaluated(pow, stmt.limit.value.limit, -1);
        if count.Ok? {
          assert ApplyLimit(pow, p, stmt) == Ok(Limit(p, count.value.value, offset.value.value));
        }
      }
    }
  }

  lemma LimitKeepsAgreement(items: seq<SelectItem>, hasKey: bool, rows: seq<Row>, fs: seq<Row>, limit: int, offset: int)
    requires AllAgree(items, hasKey, rows, fs)
    ensures AllAgree(items, hasKey, LimitRows(limit, offset, rows), LimitRows(limit, offset, fs))
  {
    var a, b := DropRows(offset, rows), DropRows(offset, fs);
    forall i | 0 <= i < |a| ensures RowAgrees(items, hasKey, a[i], b[i]) {
      var k := if offset <= 0 then i else offset + i;
      assert a[i] == rows[k] && b[i] == fs[k];
    }
    assert AllAgree(items, hasKey, a, b);
    forall i | 0 <= i < |TakeRows(limit, a)| ensures RowAgrees(items, hasKey, TakeRows(limit, a)[i], TakeRows(limit, b)[i]) {
      assert TakeRows(limit, a)[i] == a[i] && TakeRows(limit, b)[i] == b[i];
    }
  }

  // ---- The theorem ----

  /**
   The typed fast path agrees with the operator tree. On every statement the gate takes, under the stated
   conditions: if it answers, the tree evaluates without error to the same number of rows in the same order, each
   with the same key, counts, sums and averages and numerically equal extremes, the fast columns being the key
   first and then the calls; if it throws, building the tree throws.
   */
  lemma FastPathAgrees(pow: Pow, stmt: SelectStmt, cat: Catalog, t: TableData, shape: Shape)
    requires FastModelled(stmt, cat) && FastTable(stmt, cat) == Some(t) && ReadShape(stmt, t) == Some(shape)
    requires ShapeOk(t, shape) && Agreeable(stmt, t, shape) && FastResult(stmt, cat) != Ok(None)
    ensures FastResult(stmt, cat).Err? ==> BuildSelect(pow, stmt, cat).Err?
    ensures FastResult(stmt, cat).Ok? ==>
      var p := BuildSelect(pow, stmt, cat);
      p.Ok? && PlanOk(p.value) && !StreamOf(pow, p.value).mayFail
      && AllAgree(stmt.selectList, shape.hasKey, StreamOf(pow, p.value).rows, FastResult(stmt, cat).value.value.rows)
  {
    PlanOfAccepted(pow, stmt, cat, t, shape);
    GroupsAreShowable(t, shape);
    var schema, input := FastSchema(t, shape), FastRows(shape, FastGroups(t, shape));
    var fs := FastOrder(schema, stmt.orderBy, input).value;
    TailOf(stmt, schema, input);
    assert Gated(stmt, t, shape) by {
      KeysAreRefs(stmt, schema);
    }
    var rows := BodyStream(pow, stmt, t, shape, fs);
    LimitAgrees(pow, stmt, BodyPlan(stmt, t), fs);
    if FastResult(stmt, cat).Ok? {
      FinishAgreement(pow, stmt, BodyPlan(stmt, t), shape.hasKey, rows, fs);
    }
  }

  lemma TailOf(stmt: SelectStmt, schema: Schema, rows: seq<Row>)
    requires FastTail(stmt, schema, rows) != Ok(None)
    ensures FastOrder(schema, stmt.orderBy, rows).Some?
    ensures var out := FastLimit(stmt.limit, FastOrder(schema, stmt.orderBy, rows).value);
            out != Ok(None)
            && FastTail(stmt, schema, rows) == match out case Err => Err case Ok(fs) => Ok(Some(Answer(schema, fs.value)))
  {
  }

  lemma KeysAreRefs(stmt: SelectStmt, schema: Schema)
    requires stmt.orderBy.Some? ==> ResolveKeys(schema, stmt.orderBy.value).Some?
    ensures forall k :: k in OrderBy(stmt) ==> k.expr.ColumnRef?
  {
  }

  lemma FinishAgreement(pow: Pow, stmt: SelectStmt, body: Plan, hasKey: bool, rows: seq<Row>, fs: seq<Row>)
    requires PlanOk(body) && StreamOf(pow, body) == Stream(rows, false) && AllAgree(stmt.selectList, hasKey, rows, fs)
    requires FastLimit(stmt.limit, fs).Ok? && FastLimit(stmt.limit, fs).value.Some? && ApplyLimit(pow, body, stmt).Ok?
    requires LimitedAlike(stmt.limit.Some?, body, ApplyLimit(pow, body, stmt).value, fs, FastLimit(stmt.limit, fs).value.value)
    ensures var p := ApplyLimit(pow, body, stmt).value;
            PlanOk(p) && !StreamOf(pow, p).mayFail
            && AllAgree(stmt.selectList, hasKey, StreamOf(pow, p).rows, FastLimit(stmt.limit, fs).value.value)
  {
    var p := ApplyLimit(pow, body, stmt).value;
    if stmt.limit.Some? {
      LimitKeepsAgreement(stmt.selectList, hasKey, rows, fs, p.limit, p.offset);
    }
  }

  // ---- The column layout ----

  /** The key is selected first or not at all. */
  predicate KeyLeads(items: seq<SelectItem>) {
    forall i :: 0 < i < |items| ==> !items[i].expr.ColumnRef?
  }

  /** Fast columns stand where the general path puts them exactly when the key leads. */
  lemma LayoutsAgreeIffKeyLeads(items: seq<SelectItem>, hasKey: bool)
    requires forall i :: 0 <= i < |items| ==> items[i].expr.ColumnRef? || items[i].expr.FunctionCall?
    requires hasKey <==> exists i :: 0 <= i < |items| && items[i].expr.ColumnRef?
    ensures (forall i :: 0 <= i < |items| ==> OutputColumn(items, hasKey, i) == i) <==> KeyLeads(items)
  {
    if KeyLeads(items) {
      forall i | 0 <= i < |items| ensures OutputColumn(items, hasKey, i) == i {
        if i > 0 {
          CallsAfterKey(items, i);
        }
      }
    } else {
      var i :| 0 < i < |items| && items[i].expr.ColumnRef?;
      assert OutputColumn(items, hasKey, i) == 0;
    }
  }

  lemma {:induction false} CallsAfterKey(items: seq<SelectItem>, n: nat)
    requires KeyLeads(items) && 0 < n <= |items|
    requires forall i :: 0 <= i < |items| ==> items[i].expr.ColumnRef? || items[i].expr.FunctionCall?
    ensures |Calls(items[..n])| == if items[0].expr.ColumnRef? then n - 1 else n
  {
    assert items[..n][..n - 1] == items[..n - 1];
    if n > 1 {
      CallsAfterKey(items, n - 1);
    } else {
      assert Calls(items[..0]) == [];
    }
  }

  // ---- runSelect ----

  /**
   What a SELECT may answer: the fast path's answer if it takes the statement, the rows of its plan otherwise.
   An error is possible only where one of them says so, and certain there unless a LIMIT may stop before it.
   */
  ghost predicate SelectYields(pow: Pow, stmt: SelectStmt, cat: Catalog, r: Result<Answer>)
    requires FastModelled(stmt, cat)
  {
    var fast := FastResult(stmt, cat);
    var plan := BuildSelect(pow, stmt, cat);
    if fast.Err? then r.Err?
    else if fast.value.Some? then r == Ok(fast.value.value)
    else if plan.Err? then r.Err?
    else
      SelectPlanOk(pow, stmt, cat);
      var out := StreamOf(pow, plan.value);
      if r.Err? then out.mayFail
      else r.value == Answer(PlanSchema(plan.value), out.rows) && (ReadsAll(plan.value) ==> !out.mayFail)
  }

  method RunSelect(pow: Pow, batchSize: nat, stmt: SelectStmt, cat: Catalog) returns (r: Result<Answer>)
    requires batchSize >= 1 && FastModelled(stmt, cat)
    ensures SelectYields(pow, stmt, cat, r)
  {
    var fast :- TryFastAggregate(stmt, cat);
    if fast.Some? {
      return Ok(fast.value);
    }
    SelectPlanOk(pow, stmt, cat);
    var plan :- BuildSelect(pow, stmt, cat);
    var rows :- Execute(pow, batchSize, plan);
    r := Ok(Answer(PlanSchema(plan), rows));
  }

  // ---- Where NULLs go ----

  lemma {:induction false} SamePlacement(keys: seq<SortKey>, a: seq<Value>, b: seq<Value>)
    requires |a| == |b| == |keys| && forall i :: 0 <= i < |keys| ==> NullsFirst(keys[i]) == keys[i].asc
    ensures KeysLess(keys, a, b) == KeysLess(Directions(keys), a, b)
    decreases |keys|
  {
    if keys != [] {
      SamePlacement(keys[1..], a[1..], b[1..]);
      assert Directions(keys)[1..] == Directions(keys[1..]);
    }
  }

  /** Two key vectors that the comparators order differently because of key i. */
  lemma {:induction false} OtherPlacement(keys: seq<SortKey>, i: nat) returns (a: seq<Value>, b: seq<Value>)
    requires i < |keys| && NullsFirst(keys[i]) != keys[i].asc
    ensures |a| == |b| == |keys| && KeysComparable(a, b) && KeysLess(keys, a, b) != KeysLess(Directions(keys), a, b)
    decreases i
  {
    assert Directions(keys)[1..] == Directions(keys[1..]);
    if i == 0 {
      var rest := seq(|keys| - 1, _ => Null);
      a, b := [Int(W64, 0)] + rest, [Null] + rest;
    } else {
      var x, y := OtherPlacement(keys[1..], i - 1);
      a, b := [Null] + x, [Null] + y;
      assert a[1..] == x && b[1..] == y;
    }
  }

  /** Ignoring NULLS FIRST and NULLS LAST changes no comparison exactly when every key puts NULLs where its direction does. */
  lemma DirectionsSufficeIff(keys: seq<SortKey>)
    ensures (forall a, b :: |a| == |b| == |keys| && KeysComparable(a, b) ==> KeysLess(keys, a, b) == KeysLess(Directions(keys), a, b))
            <==> forall i :: 0 <= i < |keys| ==> NullsFirst(keys[i]) == keys[i].asc
  {
    if i :| 0 <= i < |keys| && NullsFirst(keys[i]) != keys[i].asc {
      var a, b := OtherPlacement(keys, i);
    } else {
      forall a: seq<Value>, b: seq<Value> | |a| == |b| == |keys| && KeysComparable(a, b)
        ensures KeysLess(keys, a, b) == KeysLess(Directions(keys), a, b)
      {
        SamePlacement(keys, a, b);
      }
    }
  }
}
