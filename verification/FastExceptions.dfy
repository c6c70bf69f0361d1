/** Statements on which the two paths part, one for each condition of Agreeable, and when exactly single conditions matter. */
module FastExceptions {
  import opened Results
  import opened Seqs
  import opened Types
  import opened Doubles
  import opened Ast
  import opened Eval
  import opened Tables
  import opened Ordering
  import opened RowOrder
  import opened RowKeys
  import opened Aggregation
  import opened Plans
  import opened Names
  import opened Rewrite
  import opened RewriteMeaning
  import opened Planner
  import opened FastPredicate
  import opened FastAggregate
  import opened FastGrouping
  import opened FastAgreement
  import opened FastPath
  import opened Operators

  // ---- Counting queries ----

  const COUNT_ALL: Expr := FunctionCall("COUNT", [], false, true)

  /** SELECT [g,] COUNT(*) [AS alias] FROM t [WHERE ..] [GROUP BY g] [ORDER BY ..] */
  function CountQuery(g: Option<Expr>, alias: Option<string>, where: Option<Expr>, orderBy: Option<seq<SortKey>>): SelectStmt {
    SelectStmt(false, (if g.Some? then [SelectItem(g.value, None)] else []) + [SelectItem(COUNT_ALL, alias)], [TableRef("t")],
               where, if g.Some? then Some([g.value]) else None, None, orderBy, None, None)
  }

  function Holding(t: TableData): Catalog {
    map["t" := t]
  }

  function CountSpec(alias: Option<string>): AggSpec {
    AggSpec(FnCount, true, -1, if alias.Some? then alias.value else "COUNT", SimpleType(INT64))
  }

  lemma ReadCount(alias: Option<string>, t: TableData)
    requires |t.cols| == |t.schema|
    ensures ReadSpec(SelectItem(COUNT_ALL, alias), t) == Some(CountSpec(alias))
  {
  }

  /** The gate takes the counting query without GROUP BY. */
  lemma CountShape(t: TableData, alias: Option<string>, where: Option<Expr>, orderBy: Option<seq<SortKey>>)
    requires |t.cols| == |t.schema| && ReadWhere(where, t).Some?
    ensures ReadShape(CountQuery(None, alias, where, orderBy), t)
         == Some(Shape(-1, "", false, [CountSpec(alias)], ReadWhere(where, t).value))
    ensures FastTable(CountQuery(None, alias, where, orderBy), Holding(t)) == Some(t)
  {
    var q, item := CountQuery(None, alias, where, orderBy), SelectItem(COUNT_ALL, alias);
    ReadCount(alias, t);
    AddNothing([item]);
    assert q.selectList == [item];
    OneItemRead(item, t, CountSpec(alias));
  }

  lemma OneItemRead(item: SelectItem, t: TableData, spec: AggSpec)
    requires |t.cols| == |t.schema| && item.expr.FunctionCall? && ReadSpec(item, t) == Some(spec)
    ensures ReadItems([item], t, -1, "") == Some((false, [spec]))
  {
    var none: seq<SelectItem> := [];
    assert [item][..0] == none && ReadItems(none, t, -1, "") == Some((false, []));
    AddNothing([spec]);
  }

  lemma CountSlots(g: Option<Expr>, alias: Option<string>, where: Option<Expr>, orderBy: Option<seq<SortKey>>)
    requires g.Some? ==> g.value.ColumnRef?
    requires orderBy.Some? ==> |orderBy.value| == 1 && orderBy.value[0].expr.ColumnRef?
    ensures SlotsOf(CountQuery(g, alias, where, orderBy)) == [COUNT_ALL]
  {
    var q := CountQuery(g, alias, where, orderBy);
    var items, keys := ItemExpressions(q.selectList), SortExpressions(OrderBy(q));
    assert CollectAggs(COUNT_ALL) == [COUNT_ALL];
    assert AddSlots([], [COUNT_ALL]) == [COUNT_ALL];
    assert items == (if g.Some? then [g.value] else []) + [COUNT_ALL];
    var all := AggregateSources(q);
    assert all == (if g.Some? then [g.value] else []) + [COUNT_ALL] + keys;
    if g.Some? {
      assert all[1..] == [COUNT_ALL] + keys;
      assert CollectInto([], all) == CollectInto([], all[1..]);
    }
    AfterCount(keys);
  }

  lemma AfterCount(keys: seq<Expr>)
    requires keys == [] || (|keys| == 1 && keys[0].ColumnRef?)
    ensures CollectInto([], [COUNT_ALL] + keys) == [COUNT_ALL]
  {
    assert CollectAggs(COUNT_ALL) == [COUNT_ALL];
    assert AddSlots([], [COUNT_ALL]) == [COUNT_ALL];
    assert ([COUNT_ALL] + keys)[1..] == keys;
    if keys != [] {
      assert keys[1..] == [];
    }
  }

  // ---- One group ----

  lemma OneGroupOf(x: Input)
    ensures Groups([x]) == [[x]]
  {
    GroupsGrow([], x);
    AddNothing([x]);
  }

  lemma CountedGroup(x: Input)
    ensures GroupRow([AggOf(COUNT_ALL, 0)], [x]) == Ok(x.keyValues + [Int(W64, 1)])
  {
    var aggs := [AggOf(COUNT_ALL, 0)];
    var vs := ArgsOf([x], 0);
    assert vs[..0] == [];
    var acc := EMPTY_ACC.(count := 1);
    assert AccFold(aggs[0], vs) == Ok(acc);
    assert GroupAccs(aggs, [x], 0) == Ok([]);
    AddNothing([acc]);
    assert GroupAccs(aggs, [x], 1) == Ok([acc]);
    assert Outputs(aggs, [EMPTY_ACC.(count := 1)]) == [Int(W64, 1)];
  }

  lemma CountedNothing()
    ensures Outputs([AggOf(COUNT_ALL, 0)], NewAccs([AggOf(COUNT_ALL, 0)])) == [Int(W64, 0)]
  {
  }

  // ---- One row, counted under a WHERE clause ----

  lemma FilteredOne(pow: Pow, p: Expr, t: TableData)
    requires TableOk(t) && RowCount(t) == 1
    ensures var s := StreamOf(pow, Filter(SeqScan(t, t.schema), p));
            match EvaluatePredicate(pow, p, t.schema, RowAt(t, 0))
            case Err => s == Stream([], true)
            case Ok(keep) => s == Stream(if keep then [RowAt(t, 0)] else [], false)
  {
    var rows := TableRows(t);
    assert rows == [RowAt(t, 0)];
    StepOne(pow, KeepIf(p), t.schema, RowAt(t, 0));
  }

  /** The input of a counting aggregate. */
  lemma CountInput(pow: Pow, keys: seq<Expr>, schema: Schema, row: Row, kv: Row)
    requires EvaluateAll(pow, keys, schema, row) == Ok(kv)
    ensures InputOf(pow, keys, [AggOf(COUNT_ALL, 0)], schema, row) == Ok(Input(RowKey(kv), kv, [Null]))
  {
    var aggs := [AggOf(COUNT_ALL, 0)];
    var none: seq<Agg> := [];
    assert aggs[1..] == none && ArgValues(pow, none, schema, row) == Ok([]);
    AddNothing([Null]);
    assert ArgValues(pow, aggs, schema, row) == Ok([Null]);
  }

  lemma OneInput(pow: Pow, keys: seq<Expr>, schema: Schema, row: Row, kv: Row)
    requires EvaluateAll(pow, keys, schema, row) == Ok(kv)
    ensures InputsOf(pow, keys, [AggOf(COUNT_ALL, 0)], schema, [row]) == Ok([Input(RowKey(kv), kv, [Null])])
  {
    CountInput(pow, keys, schema, row, kv);
    var aggs, x := [AggOf(COUNT_ALL, 0)], Input(RowKey(kv), kv, [Null]);
    AddNothing([row]);
    AddNothing([x]);
    assert InputsOf(pow, keys, aggs, schema, []) == Ok([]);
    InputsSnoc(pow, keys, aggs, schema, [], row);
  }

  lemma CountOfRows(pow: Pow, schema: Schema, rows: seq<Row>)
    requires |rows| <= 1
    ensures AggregateRows(pow, [], [AggOf(COUNT_ALL, 0)], schema, rows) == Ok([[Int(W64, |rows|)]])
  {
    var aggs := [AggOf(COUNT_ALL, 0)];
    CountedNothing();
    if |rows| == 1 {
      assert EvaluateAll(pow, [], schema, rows[0]) == Ok([]);
      OneInput(pow, [], schema, rows[0], []);
      assert rows == [rows[0]];
      var x := Input(RowKey([]), [], [Null]);
      OneGroupOf(x);
      CountedGroup(x);
      AddNothing([Int(W64, 1)]);
      assert x.keyValues + [Int(W64, 1)] == [Int(W64, 1)];
      OneGroupRow(aggs, [x], [Int(W64, 1)]);
    }
  }

  lemma OneGroupRow(aggs: seq<Agg>, g: seq<Input>, row: Row)
    requires GroupRow(aggs, g) == Ok(row)
    ensures GroupRows(aggs, [g]) == Ok([row])
  {
    AddNothing([row]);
    assert [g][0] == g;
  }

  lemma CountPlan(pow: Pow, p: Expr, t: TableData)
    requires |t.cols| == |t.schema| && ParsePredicate(p, t).Some?
    ensures var q := CountQuery(None, None, Some(p), None);
            && BuildSelect(pow, q, Holding(t)) == Ok(BodyPlan(q, t))
            && BodyPlan(q, t) == Project(AggregatePlan(q, InputPlan(q, t)), GeneralItems(q))
            && PlanSchema(AggregatePlan(q, InputPlan(q, t))) == OutSchema(q)
  {
    var q := CountQuery(None, None, Some(p), None);
    CountShape(t, None, Some(p), None);
    PlanOfAccepted(pow, q, Holding(t), t, ReadShape(q, t).value);
    BodyPlanIs(q, t);
  }

  /** The operator tree counts the row if the evaluator accepts it, and fails if the evaluator fails. */
  lemma GeneralCount(pow: Pow, p: Expr, t: TableData)
    requires TableOk(t) && RowCount(t) == 1 && ParsePredicate(p, t).Some?
    ensures var q := CountQuery(None, None, Some(p), None);
            && BuildSelect(pow, q, Holding(t)) == Ok(BodyPlan(q, t)) && PlanOk(BodyPlan(q, t))
            && match EvaluatePredicate(pow, p, t.schema, RowAt(t, 0))
               case Err => StreamOf(pow, BodyPlan(q, t)).mayFail
               case Ok(keep) => StreamOf(pow, BodyPlan(q, t)) == Stream([[Int(W64, if keep then 1 else 0)]], false)
  {
    var q := CountQuery(None, None, Some(p), None);
    CountPlan(pow, p, t);
    FilteredOne(pow, p, t);
    var keep := EvaluatePredicate(pow, p, t.schema, RowAt(t, 0));
    CountedInput(pow, q, t, keep);
    if keep.Ok? {
      ShownCount(pow, q, t, if keep.value then 1 else 0);
    }
  }

  /** The hash aggregation over the filtered row. */
  lemma CountedInput(pow: Pow, q: SelectStmt, t: TableData, keep: Result<bool>)
    requires q == CountQuery(None, None, q.where, None) && q.where.Some? && TableOk(t) && RowCount(t) == 1
    requires StreamOf(pow, Filter(SeqScan(t, t.schema), q.where.value))
          == match keep case Err => Stream([], true) case Ok(k) => Stream(if k then [RowAt(t, 0)] else [], false)
    ensures SlotsOf(q) == [COUNT_ALL] && PlanOk(AggregatePlan(q, InputPlan(q, t)))
    ensures var s := StreamOf(pow, AggregatePlan(q, InputPlan(q, t)));
            match keep case Err => s.mayFail case Ok(k) => s == Stream([[Int(W64, if k then 1 else 0)]], false)
  {
    CountSlots(None, None, q.where, None);
    var input := InputPlan(q, t);
    var agg := AggregatePlan(q, input);
    assert SlotAggs([COUNT_ALL]) == [AggOf(COUNT_ALL, 0)];
    assert agg == HashAggregate(input, [], [], [AggOf(COUNT_ALL, 0)]);
    assert PlanOk(SeqScan(t, t.schema)) && PlanOk(input);
    if keep.Ok? {
      CountOfRows(pow, t.schema, if keep.value then [RowAt(t, 0)] else []);
    }
  }

  lemma ShownCount(pow: Pow, q: SelectStmt, t: TableData, n: nat)
    requires q == CountQuery(None, None, q.where, None)
    ensures StepRows(pow, Compute(ItemExprs(GeneralItems(q))), OutSchema(q), [[Int(W64, n)]]) == Stream([[Int(W64, n)]], false)
  {
    CountSlots(None, None, q.where, None);
    CloneOfCall(COUNT_ALL, [COUNT_ALL]);
    var e := Column("__agg0");
    assert NatToString(0) == "0";
    assert CloneSubstAggs(COUNT_ALL, [COUNT_ALL]) == e;
    assert ItemExprs(GeneralItems(q)) == [e];
    assert OutSchema(q) == [ColumnDef("__agg0", SimpleType(INT64))];
    PlainColumn(pow, "__agg0", OutSchema(q), [Int(W64, n)]);
    OneKeyEvaluates(pow, e, OutSchema(q), [Int(W64, n)], Int(W64, n));
    StepOne(pow, Compute([e]), OutSchema(q), [Int(W64, n)]);
  }

  lemma OneRowGroup(t: TableData, shape: Shape)
    requires TableOk(t) && RowCount(t) == 1 && ShapeOk(t, shape) && AllReadable(t, shape.preds)
    requires shape.groupCol < 0 && shape.specs == [CountSpec(None)]
    ensures |FastGroups(t, shape)| == 1
    ensures FastGroups(t, shape)[0].aggs == [NEW_STATE.(count := if AllHold(t, shape.preds, 0) then 1 else 0)]
  {
    var specs, xs := [CountSpec(None)], FastInputs(t, shape, 1);
    assert FastInputs(t, shape, 0) == [];
    if AllHold(t, shape.preds, 0) {
      assert xs == [FastInput(t, shape, 0)];
      OneGroupOf(xs[0]);
      CountedStates(specs[0], [xs[0]]);
    } else {
      CountedStates(specs[0], []);
    }
  }

  /** The fast path counts the row if the typed atoms hold. */
  lemma FastCount(p: Expr, t: TableData)
    requires TableOk(t) && RowCount(t) == 1 && ParsePredicate(p, t).Some? && AllReadable(t, ParsePredicate(p, t).value)
    ensures var q := CountQuery(None, None, Some(p), None);
            FastModelled(q, Holding(t)) && FastResult(q, Holding(t)).Ok? && FastResult(q, Holding(t)).value.Some?
            && FastResult(q, Holding(t)).value.value.rows == [[Int(W64, if AllHold(t, ParsePredicate(p, t).value, 0) then 1 else 0)]]
  {
    var q := CountQuery(None, None, Some(p), None);
    CountShape(t, None, Some(p), None);
    var shape := ReadShape(q, t).value;
    GateIsOk(q, t);
    OneRowGroup(t, shape);
    ShownStates(shape, FastGroups(t, shape), if AllHold(t, shape.preds, 0) then 1 else 0);
  }

  lemma ShownStates(shape: Shape, gs: seq<Group>, n: nat)
    requires |gs| == 1 && gs[0].aggs == [NEW_STATE.(count := n)] && !shape.hasKey && shape.specs == [CountSpec(None)]
    ensures (forall g :: g in gs ==> GroupShowable(shape, g)) && FastRows(shape, gs) == [[Int(W64, n)]]
  {
    assert GroupShowable(shape, gs[0]);
    assert Shown(shape, gs[0]) == [Int(W64, n)];
    AddNothing([Int(W64, n)]);
    assert FastRow(shape, gs[0]) == [Int(W64, n)];
  }

  lemma CountedStates(s: AggSpec, g: seq<Input>)
    requires s.star && s.fn == FnCount && |g| <= 1
    ensures StatesOf([s], g) == [NEW_STATE.(count := |g|)]
  {
    var vs := ArgsOf(g, 0);
    if |g| == 1 {
      assert vs[..0] == [];
    }
    assert Fold(s, vs) == NEW_STATE.(count := |g|);
  }

  /** The fast path takes the statement and answers it. */
  ghost predicate FastAnswers(q: SelectStmt, cat: Catalog) {
    FastModelled(q, cat) && FastResult(q, cat).Ok? && FastResult(q, cat).value.Some?
  }

  /** Both paths answer the query with the same rows, the operator tree without error. */
  ghost predicate PathsAgree(pow: Pow, q: SelectStmt, cat: Catalog) {
    FastAnswers(q, cat) && var p := BuildSelect(pow, q, cat);
    p.Ok? && PlanOk(p.value) && !StreamOf(pow, p.value).mayFail && StreamOf(pow, p.value).rows == FastResult(q, cat).value.value.rows
  }

  /** SELECT COUNT(*) FROM t WHERE p */
  function WhereQuery(p: Expr): SelectStmt {
    CountQuery(None, None, Some(p), None)
  }

  /** On a table of one row, counting it agrees exactly when the evaluator decides the clause as the typed atoms do. */
  lemma CountAgreesIff(pow: Pow, p: Expr, t: TableData)
    requires TableOk(t) && RowCount(t) == 1 && ParsePredicate(p, t).Some? && AllReadable(t, ParsePredicate(p, t).value)
    ensures FastAnswers(WhereQuery(p), Holding(t))
    ensures PathsAgree(pow, WhereQuery(p), Holding(t)) <==>
            EvaluatePredicate(pow, p, t.schema, RowAt(t, 0)) == Ok(AllHold(t, ParsePredicate(p, t).value, 0))
  {
    GeneralCount(pow, p, t);
    FastCount(p, t);
    var one, zero := [[Int(W64, 1)]], [[Int(W64, 0)]];
    assert one[0][0] != zero[0][0];
  }

  lemma OneAtom(e: Expr, t: TableData)
    requires TableOk(t) && RowCount(t) == 1 && ParseAtom(e, t).Some? && Readable(t, ParseAtom(e, t).value)
    ensures ParsePredicate(e, t).Some? && AllReadable(t, ParsePredicate(e, t).value)
    ensures AllHold(t, ParsePredicate(e, t).value, 0) <==> AtomHolds(t, ParseAtom(e, t).value, 0)
  {
    var a := ParseAtom(e, t).value;
    assert ParsePredicate(e, t) == Some([a]);
    assert [a][0] == a;
  }

  /** For one comparison, read in terms of the comparison. */
  lemma AtomCountIff(pow: Pow, e: Expr, t: TableData)
    requires TableOk(t) && RowCount(t) == 1 && ParseAtom(e, t).Some? && Readable(t, ParseAtom(e, t).value)
    ensures FastAnswers(WhereQuery(e), Holding(t))
    ensures PathsAgree(pow, WhereQuery(e), Holding(t)) <==> AtomAgrees(pow, e, t, 0)
  {
    OneAtom(e, t);
    CountAgreesIff(pow, e, t);
  }

  lemma AtomOverCounted(pow: Pow, e: Expr, ref: Expr, lit: Value, t: TableData)
    requires TableOk(t) && RowCount(t) == 1 && AtomOver(e, ref, lit) && IndexOf(t.schema, ref.column) >= 0
    requires lit.Str? || (IsNumeric(lit) && KindOf(t.cols[IndexOf(t.schema, ref.column)].ty.id) != String)
    ensures FastAnswers(WhereQuery(e), Holding(t))
    ensures PathsAgree(pow, WhereQuery(e), Holding(t)) <==> AtomAgrees(pow, e, t, 0)
  {
    AtomShape(e, ref, lit, t);
    AtomCountIff(pow, e, t);
  }

  // ---- When single conditions matter, over whole queries ----

  /** Against a column of one non-NULL exact cell, all numeric constants are compared alike exactly when it is no boolean. */
  lemma NumberQueriesAgreeIff(pow: Pow, ref: Expr, t: TableData)
    requires TableOk(t) && RowCount(t) == 1 && ref.ColumnRef? && IndexOf(t.schema, ref.column) >= 0 && RefResolves(t.schema, ref)
    requires var c := t.cols[IndexOf(t.schema, ref.column)]; c.valid[0] && CellExact(c, 0) && KindOf(c.ty.id) != String
    ensures (forall e: Expr, lit: Value :: AtomOver(e, ref, lit) && IsNumeric(lit) && SmallNumber(lit) ==>
              FastAnswers(WhereQuery(e), Holding(t)))
    ensures (forall e: Expr, lit: Value :: AtomOver(e, ref, lit) && IsNumeric(lit) && SmallNumber(lit) ==>
              PathsAgree(pow, WhereQuery(e), Holding(t)))
            <==> TakesKind(t.cols[IndexOf(t.schema, ref.column)].ty, true)
  {
    NumbersDecidedIff(pow, ref, t, 0);
    forall e: Expr, lit: Value | AtomOver(e, ref, lit) && IsNumeric(lit) && SmallNumber(lit)
      ensures FastAnswers(WhereQuery(e), Holding(t)) && (PathsAgree(pow, WhereQuery(e), Holding(t)) <==> AtomAgrees(pow, e, t, 0))
    {
      AtomOverCounted(pow, e, ref, lit, t);
    }
  }

  /** Against a column of one non-NULL cell, all string constants are compared alike exactly when it is a string. */
  lemma StringQueriesAgreeIff(pow: Pow, ref: Expr, t: TableData)
    requires TableOk(t) && RowCount(t) == 1 && ref.ColumnRef? && IndexOf(t.schema, ref.column) >= 0 && RefResolves(t.schema, ref)
    requires t.cols[IndexOf(t.schema, ref.column)].valid[0]
    ensures (forall e: Expr, lit: Value :: AtomOver(e, ref, lit) && lit.Str? ==> FastAnswers(WhereQuery(e), Holding(t)))
    ensures (forall e: Expr, lit: Value :: AtomOver(e, ref, lit) && lit.Str? ==> PathsAgree(pow, WhereQuery(e), Holding(t)))
            <==> TakesKind(t.cols[IndexOf(t.schema, ref.column)].ty, false)
  {
    StringsDecidedIff(pow, ref, t, 0);
    forall e: Expr, lit: Value | AtomOver(e, ref, lit) && lit.Str?
      ensures FastAnswers(WhereQuery(e), Holding(t)) && (PathsAgree(pow, WhereQuery(e), Holding(t)) <==> AtomAgrees(pow, e, t, 0))
    {
      AtomOverCounted(pow, e, ref, lit, t);
    }
  }

  lemma OneCellCounted(pow: Pow, ty: TypeId, i: int, k: int)
    requires KindOf(ty) == Int64 && ty != BOOLEAN
    ensures FastAnswers(WhereQuery(ColumnIs(k)), Holding(OneCell(ty, i)))
    ensures PathsAgree(pow, WhereQuery(ColumnIs(k)), Holding(OneCell(ty, i))) <==> EqualityAgrees(pow, ty, i, k)
  {
    OneCellQuery(pow, ty, i, k);
    CountAgreesIff(pow, ColumnIs(k), OneCell(ty, i));
  }

  /** SELECT COUNT(*) FROM t WHERE c = k agrees for all small constants exactly when the stored integer fits its subtype. */
  lemma EqualityQueriesAgreeIff(pow: Pow, ty: TypeId, i: int)
    requires KindOf(ty) == Int64 && ty != BOOLEAN && Small(i)
    ensures (forall k: int | Small(k) :: PathsAgree(pow, WhereQuery(ColumnIs(k)), Holding(OneCell(ty, i)))) <==> FitsType(SimpleType(ty), i)
  {
    EqualityAgreesIffFits(pow, ty, i);
    forall k: int | Small(k)
      ensures PathsAgree(pow, WhereQuery(ColumnIs(k)), Holding(OneCell(ty, i))) <==> EqualityAgrees(pow, ty, i, k)
    {
      OneCellCounted(pow, ty, i, k);
    }
  }

  /** SELECT COUNT(*) FROM t WHERE c = 9007199254740992 counts the row of 9007199254740993 on the fast path only. */
  lemma LargeIntegerParts(pow: Pow)
    ensures var q, cat := WhereQuery(ColumnIs(EXACT_LIMIT)), Holding(OneCell(INT64, EXACT_LIMIT + 1));
            FastAnswers(q, cat) && !PathsAgree(pow, q, cat)
  {
    LargeIntegersCollide(pow);
    OneCellCounted(pow, INT64, EXACT_LIMIT + 1, EXACT_LIMIT);
  }

  /** A table with the columns b and a.b. */
  function DottedTable(): TableData {
    var ty := SimpleType(INT64);
    TableData("t", [ColumnDef("b", ty), ColumnDef("a.b", ty)], [ColumnData(ty, [true], [1], [], []), ColumnData(ty, [true], [2], [], [])])
  }

  lemma DottedLookup()
    ensures var t := DottedTable();
            TableOk(t) && RowCount(t) == 1 && IndexOf(t.schema, "b") == 0
            && Lookup(Some("a"), "b", t.schema, RowAt(t, 0)) == Ok(Int(W64, 2))
  {
    var t := DottedTable();
    assert Lower("b") == "b" && |Lower("a.b")| == 3;
    assert "a" + "." + "b" == "a.b";
    assert IndexOf(t.schema, "a.b") == 1;
    assert ValueAt(t.cols[1], 0) == Int(W64, 2);
  }

  function DottedClause(): Expr {
    Binary(EQ, ColumnRef(None, Some("a"), "b"), Literal(Int(W64, 1)))
  }

  lemma DottedAtom(pow: Pow)
    ensures var t, e := DottedTable(), DottedClause();
            TableOk(t) && RowCount(t) == 1 && ParseAtom(e, t).Some? && Readable(t, ParseAtom(e, t).value) && !AtomAgrees(pow, e, t, 0)
  {
    var t, ref := DottedTable(), ColumnRef(None, Some("a"), "b");
    DottedLookup();
    EvaluateAtom(pow, DottedClause(), ref, Int(W64, 1), false, t.schema, RowAt(t, 0), Int(W64, 2));
    CastIsExact(1);
  }

  /** SELECT COUNT(*) FROM t WHERE a.b = 1 reads column b on the fast path and column a.b on the general one. */
  lemma DottedColumnParts(pow: Pow)
    ensures FastAnswers(WhereQuery(DottedClause()), Holding(DottedTable()))
    ensures !PathsAgree(pow, WhereQuery(DottedClause()), Holding(DottedTable()))
  {
    DottedAtom(pow);
    AtomCountIff(pow, DottedClause(), DottedTable());
  }
}
