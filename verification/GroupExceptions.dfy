/** Grouped counting queries: when slot names, the placement of NULLs and the case of an alias part the two paths. */
module GroupExceptions {
  import opened Results
  import opened Seqs
  import opened Types
  import opened Ast
  import opened Eval
  import opened Tables
  import opened Ordering
  import opened RowOrder
  import opened RowKeys
  import opened Aggregation
  import opened Plans
  import opened Operators
  import opened Rewrite
  import opened RewriteMeaning
  import opened Planner
  import opened FastPredicate
  import opened FastAggregate
  import opened FastGrouping
  import opened FastAgreement
  import opened FastPath
  import opened FastExceptions

  /** SELECT g, COUNT(*) [AS alias] FROM t GROUP BY g [ORDER BY ..] */
  function GroupQuery(g: string, alias: Option<string>, orderBy: Option<seq<SortKey>>): SelectStmt {
    CountQuery(Some(Column(g)), alias, None, orderBy)
  }

  // ---- A table of one integer column with distinct cells ----

  function IntColumn(name: string, cells: seq<Option<int>>): TableData {
    var valid := seq(|cells|, i requires 0 <= i < |cells| => cells[i].Some?);
    var ints := seq(|cells|, i requires 0 <= i < |cells| => if cells[i].Some? then cells[i].value else 0);
    TableData("t", [ColumnDef(name, SimpleType(INT64))], [ColumnData(SimpleType(INT64), valid, ints, [], [])])
  }

  function CellValue(c: Option<int>): Value {
    if c.Some? then Int(W64, c.value) else Null
  }

  function CountedRow(c: Option<int>): Row {
    [CellValue(c), Int(W64, 1)]
  }

  function CountedRows(cells: seq<Option<int>>): (r: seq<Row>)
    ensures |r| == |cells|
  {
    seq(|cells|, i requires 0 <= i < |cells| => CountedRow(cells[i]))
  }

  predicate AllDifferent(cells: seq<Option<int>>) {
    forall i, j :: 0 <= i < j < |cells| ==> cells[i] != cells[j]
  }

  lemma IntRows(name: string, cells: seq<Option<int>>)
    ensures var t := IntColumn(name, cells);
            TableOk(t) && RowCount(t) == |cells| && TableRows(t) == CellRows(cells)
  {
    var t := IntColumn(name, cells);
    forall i | 0 <= i < |cells| ensures RowAt(t, i) == [CellValue(cells[i])] {
      assert ValueAt(t.cols[0], i) == CellValue(cells[i]);
    }
  }

  // ---- One group a row ----

  function Singles(xs: seq<Input>): (gs: seq<seq<Input>>)
    ensures |gs| == |xs|
  {
    seq(|xs|, i requires 0 <= i < |xs| => [xs[i]])
  }

  lemma {:induction false} SingleGroups(xs: seq<Input>)
    requires forall i, j :: 0 <= i < j < |xs| ==> xs[i].key != xs[j].key
    ensures Groups(xs) == Singles(xs)
    ensures KeysInOrder(xs) == seq(|xs|, i requires 0 <= i < |xs| => xs[i].key)
    decreases |xs|
  {
    hide Groups, KeysInOrder, PositionOf;
    if xs == [] {
      NoKeys(xs);
    } else {
      var n := |xs| - 1;
      SingleGroups(xs[..n]);
      GroupsGrow(xs[..n], xs[n]);
      SnocOf(xs);
      assert Singles(xs) == Singles(xs[..n]) + [[xs[n]]];
    }
  }

  lemma NoKeys(xs: seq<Input>)
    requires xs == []
    ensures KeysInOrder(xs) == []
  {
  }

  lemma SnocOf(xs: seq<Input>)
    requires xs != []
    ensures xs == xs[..|xs| - 1] + [xs[|xs| - 1]]
  {
  }

  /** The inputs of the general path, with the row keys of DISTINCT. */
  function GeneralInput(c: Option<int>): Input {
    Input(RowKey([CellValue(c)]), [CellValue(c)], [Null])
  }

  function GeneralInputs(cells: seq<Option<int>>): seq<Input> {
    seq(|cells|, i requires 0 <= i < |cells| => GeneralInput(cells[i]))
  }

  function CellRows(cells: seq<Option<int>>): (r: seq<Row>)
    ensures |r| == |cells|
  {
    seq(|cells|, i requires 0 <= i < |cells| => [CellValue(cells[i])])
  }

  lemma OneCellInput(pow: Pow, g: string, schema: Schema, c: Option<int>)
    requires g != "*" && |schema| == 1 && schema[0].name == g
    ensures InputOf(pow, [Column(g)], [AggOf(COUNT_ALL, 0)], schema, [CellValue(c)]) == Ok(GeneralInput(c))
  {
    OneKeyEvaluates(pow, Column(g), schema, [CellValue(c)], CellValue(c));
    CountInput(pow, [Column(g)], schema, [CellValue(c)], [CellValue(c)]);
  }

  lemma CellsSnoc(cells: seq<Option<int>>)
    requires cells != []
    ensures var n := |cells| - 1;
            && CellRows(cells) == CellRows(cells[..n]) + [[CellValue(cells[n])]]
            && GeneralInputs(cells) == GeneralInputs(cells[..n]) + [GeneralInput(cells[n])]
  {
  }

  lemma {:induction false} InputsAre(pow: Pow, g: string, schema: Schema, cells: seq<Option<int>>)
    requires g != "*" && |schema| == 1 && schema[0].name == g
    ensures InputsOf(pow, [Column(g)], [AggOf(COUNT_ALL, 0)], schema, CellRows(cells)) == Ok(GeneralInputs(cells))
    decreases |cells|
  {
    if cells == [] {
      assert CellRows(cells) == [] && GeneralInputs(cells) == [];
    } else {
      var n := |cells| - 1;
      InputsAre(pow, g, schema, cells[..n]);
      OneCellInput(pow, g, schema, cells[n]);
      InputsSnoc(pow, [Column(g)], [AggOf(COUNT_ALL, 0)], schema, CellRows(cells[..n]), [CellValue(cells[n])]);
      CellsSnoc(cells);
    }
  }

  lemma KeysDiffer(a: Option<int>, b: Option<int>)
    requires a != b
    ensures GeneralInput(a).key != GeneralInput(b).key
  {
    RowKeyInjective([CellValue(a)], [CellValue(b)]);
    assert [CellValue(a)][0] != [CellValue(b)][0];
  }

  lemma CountedSingle(c: Option<int>)
    ensures GroupRow([AggOf(COUNT_ALL, 0)], [GeneralInput(c)]) == Ok(CountedRow(c))
  {
    CountedGroup(GeneralInput(c));
    assert [CellValue(c)] + [Int(W64, 1)] == CountedRow(c);
  }

  /** Hash aggregation gives each cell with the count one. */
  lemma GeneralGroups(pow: Pow, g: string, cells: seq<Option<int>>)
    requires g != "*" && AllDifferent(cells)
    ensures AggregateRows(pow, [Column(g)], [AggOf(COUNT_ALL, 0)], IntColumn(g, cells).schema, TableRows(IntColumn(g, cells)))
         == Ok(CountedRows(cells))
  {
    IntRows(g, cells);
    InputsAre(pow, g, IntColumn(g, cells).schema, cells);
    var xs, aggs := GeneralInputs(cells), [AggOf(COUNT_ALL, 0)];
    forall i, j | 0 <= i < j < |xs| ensures xs[i].key != xs[j].key {
      KeysDiffer(cells[i], cells[j]);
    }
    SingleGroups(xs);
    forall i | 0 <= i < |xs| ensures GroupRow(aggs, Singles(xs)[i]) == Ok(CountedRows(cells)[i]) {
      CountedSingle(cells[i]);
    }
    assert GroupRows(aggs, Singles(xs)).value == CountedRows(cells);
  }

  // ---- The same on the fast path ----

  function GroupShape(g: string, alias: Option<string>): Shape {
    Shape(0, g, true, [CountSpec(alias)], [])
  }

  lemma GroupShapeRead(g: string, alias: Option<string>, orderBy: Option<seq<SortKey>>, cells: seq<Option<int>>)
    ensures var q, t := GroupQuery(g, alias, orderBy), IntColumn(g, cells);
            ReadShape(q, t) == Some(GroupShape(g, alias)) && FastTable(q, Holding(t)) == Some(t)
            && ShapeOk(t, GroupShape(g, alias)) && Followed(t, GroupShape(g, alias)) && CatalogOk(Holding(t))
  {
    IntRows(g, cells);
    var q, t := GroupQuery(g, alias, orderBy), IntColumn(g, cells);
    var items := q.selectList;
    assert items == [SelectItem(Column(g), None), SelectItem(COUNT_ALL, alias)];
    assert items[..1] == [SelectItem(Column(g), None)] && items[..1][..0] == [];
    assert ReadItems(items[..1][..0], t, 0, g) == Some((false, []));
    assert ReadItems(items[..1], t, 0, g) == Some((true, []));
    ReadCount(alias, t);
    AddNothing([CountSpec(alias)]);
    assert ReadItems(items, t, 0, g) == Some((true, [CountSpec(alias)]));
  }

  lemma FastKeysDiffer(g: string, cells: seq<Option<int>>, i: nat, j: nat)
    requires i < j < |cells| && AllDifferent(cells) && TableOk(IntColumn(g, cells)) && RowCount(IntColumn(g, cells)) == |cells|
    ensures KeyAtRow(IntColumn(g, cells), 0, i) != KeyAtRow(IntColumn(g, cells), 0, j)
  {
    var a, b := cells[i], cells[j];
    assert a != b;
    if a.Some? && b.Some? && IntToString(a.value) == IntToString(b.value) {
      IntToStringInjective(a.value, b.value);
    } else if a.Some? && b.Some? {
      assert IntToString(a.value) == ("I" + IntToString(a.value))[1..];
    }
  }

  lemma {:induction false} FastInputsAre(t: TableData, shape: Shape, n: nat)
    requires TableOk(t) && ShapeOk(t, shape) && shape.preds == [] && n <= RowCount(t)
    ensures FastInputs(t, shape, n) == seq(n, i requires 0 <= i < n => FastInput(t, shape, i))
  {
    if n > 0 {
      FastInputsAre(t, shape, n - 1);
    }
  }

  lemma FastSingle(g: string, alias: Option<string>, x: Input, c: Option<int>)
    requires x.keyValues == [CellValue(c)]
    ensures var h := GroupFrom([CountSpec(alias)], [x]);
            GroupShowable(GroupShape(g, alias), h) && FastRow(GroupShape(g, alias), h) == CountedRow(c)
  {
    CountedStates(CountSpec(alias), [x]);
    var h := GroupFrom([CountSpec(alias)], [x]);
    assert h.key == CellValue(c);
    assert Shown(GroupShape(g, alias), h) == [Int(W64, 1)];
    assert [CellValue(c)] + [Int(W64, 1)] == CountedRow(c);
  }

  lemma FastGroupRows(g: string, alias: Option<string>, cells: seq<Option<int>>)
    requires AllDifferent(cells)
    ensures var t, shape := IntColumn(g, cells), GroupShape(g, alias);
            TableOk(t) && ShapeOk(t, shape) && (forall h :: h in FastGroups(t, shape) ==> GroupShowable(shape, h))
            && FastRows(shape, FastGroups(t, shape)) == CountedRows(cells)
  {
    IntRows(g, cells);
    var t, shape := IntColumn(g, cells), GroupShape(g, alias);
    var xs := seq(|cells|, i requires 0 <= i < |cells| => FastInput(t, shape, i));
    FastInputsAre(t, shape, |cells|);
    forall i, j | 0 <= i < j < |xs| ensures xs[i].key != xs[j].key {
      FastKeysDiffer(g, cells, i, j);
    }
    SingleGroups(xs);
    var gs := FastGroups(t, shape);
    forall i | 0 <= i < |cells| ensures GroupShowable(shape, gs[i]) && FastRow(shape, gs[i]) == CountedRow(cells[i]) {
      assert TableRows(t)[i] == [CellValue(cells[i])];
      FastSingle(g, alias, xs[i], cells[i]);
    }
  }

  // ---- Both answers ----

  predicate OneColumnKey(orderBy: Option<seq<SortKey>>) {
    orderBy.Some? ==> |orderBy.value| == 1 && orderBy.value[0].expr.ColumnRef?
  }

  /** The fast path returns the counted rows, sorted by its own column of the sort name. */
  lemma FastGroupAnswer(g: string, alias: Option<string>, orderBy: Option<seq<SortKey>>, cells: seq<Option<int>>)
    requires AllDifferent(cells)
    requires FastOrder(FastSchema(IntColumn(g, cells), GroupShape(g, alias)), orderBy, CountedRows(cells)).Some?
    ensures var q, t := GroupQuery(g, alias, orderBy), IntColumn(g, cells);
            FastAnswers(q, Holding(t)) && FastResult(q, Holding(t)).value.value.rows == FastOrder(FastSchema(t, GroupShape(g, alias)), orderBy, CountedRows(cells)).value
  {
    GroupShapeRead(g, alias, orderBy, cells);
    FastGroupRows(g, alias, cells);
  }

  /** The hash aggregation of the general path returns the counted rows. */
  lemma GroupStream(pow: Pow, g: string, alias: Option<string>, orderBy: Option<seq<SortKey>>, cells: seq<Option<int>>)
    requires AllDifferent(cells) && g != "*" && OneColumnKey(orderBy)
    ensures var q, t := GroupQuery(g, alias, orderBy), IntColumn(g, cells);
            var agg := AggregatePlan(q, InputPlan(q, t));
            PlanOk(agg) && StreamOf(pow, agg) == Stream(CountedRows(cells), false)
  {
    var q, t := GroupQuery(g, alias, orderBy), IntColumn(g, cells);
    IntRows(g, cells);
    CountSlots(Some(Column(g)), alias, None, orderBy);
    assert SlotAggs([COUNT_ALL]) == [AggOf(COUNT_ALL, 0)];
    assert GroupKeys(q) == [Column(g)];
    assert InputPlan(q, t) == SeqScan(t, t.schema) && PlanOk(InputPlan(q, t));
    assert StreamOf(pow, InputPlan(q, t)) == Stream(TableRows(t), false);
    GeneralGroups(pow, g, cells);
    AggregateOver(pow, q, InputPlan(q, t), TableRows(t), CountedRows(cells));
  }

  /** The general path sorts and projects them. */
  lemma GroupPlan(pow: Pow, g: string, alias: Option<string>, orderBy: Option<seq<SortKey>>, cells: seq<Option<int>>)
    ensures var q, t := GroupQuery(g, alias, orderBy), IntColumn(g, cells);
            var agg := AggregatePlan(q, InputPlan(q, t));
            && BuildSelect(pow, q, Holding(t)) == Ok(Project(SortedPlan(q, agg), GeneralItems(q)))
            && PlanSchema(SortedPlan(q, agg)) == PlanSchema(agg) == OutSchema(q)
  {
    var q, t := GroupQuery(g, alias, orderBy), IntColumn(g, cells);
    GroupShapeRead(g, alias, orderBy, cells);
    hide ReadShape, BuildSelect, OutSchema, GeneralItems, GeneralKeys, InputPlan, AggregatePlan, FastTable;
    PlanOfAccepted(pow, q, Holding(t), t, GroupShape(g, alias));
    BodyPlanIs(q, t);
  }

  lemma GroupOutSchema(g: string, alias: Option<string>, orderBy: Option<seq<SortKey>>)
    requires OneColumnKey(orderBy)
    ensures var q := GroupQuery(g, alias, orderBy);
            OutSchema(q) == [ColumnDef(g, NullableDouble()), ColumnDef("__agg0", SimpleType(INT64))]
            && SlotsOf(q) == [COUNT_ALL] && ItemExprs(GeneralItems(q)) == [Column(g), Column("__agg0")]
  {
    var q := GroupQuery(g, alias, orderBy);
    CountSlots(Some(Column(g)), alias, None, orderBy);
    CloneOfCall(COUNT_ALL, [COUNT_ALL]);
    assert NatToString(0) == "0";
    assert KeyNames(GroupKeys(q)) == [g];
    assert CloneSubstAggs(COUNT_ALL, [COUNT_ALL]) == Column("__agg0");
    assert ItemExprs(GeneralItems(q)) == [Column(g), Column("__agg0")];
  }

  const AGG_SCHEMA_TAIL: ColumnDef := ColumnDef("__agg0", SimpleType(INT64))

  /** Both items over a counted row; a key named like the slot hides the count. */
  lemma ProjectCounted(pow: Pow, g: string, c: Option<int>)
    requires g != "*"
    ensures var schema := [ColumnDef(g, NullableDouble()), AGG_SCHEMA_TAIL];
            EvaluateAll(pow, [Column(g), Column("__agg0")], schema, CountedRow(c))
            == Ok([CellValue(c), if SameName(g, "__agg0") then CellValue(c) else Int(W64, 1)])
  {
    var schema := [ColumnDef(g, NullableDouble()), AGG_SCHEMA_TAIL];
    var vals := [CellValue(c), if SameName(g, "__agg0") then CellValue(c) else Int(W64, 1)];
    assert IndexOf(schema, "__agg0") == if SameName(g, "__agg0") then 0 else 1;
    PlainColumn(pow, g, schema, CountedRow(c));
    PlainColumn(pow, "__agg0", schema, CountedRow(c));
    EvaluateAllFrom(pow, [Column(g), Column("__agg0")], schema, CountedRow(c), vals);
  }

  lemma OverSorted(pow: Pow, agg: Plan, sort: bool, keys: seq<SortKey>, items: seq<ProjectItem>, rows: seq<Row>)
    requires PlanOk(agg) && StreamOf(pow, agg) == Stream(rows, false)
    ensures var p := Project(if sort then Sort(agg, keys) else agg, items);
            var sorted := SortRows(pow, keys, PlanSchema(agg), rows);
            && PlanOk(p)
            && (sort && sorted.Err? ==> StreamOf(pow, p).mayFail)
            && (sort && sorted.Ok? ==> StreamOf(pow, p) == StepRows(pow, Compute(ItemExprs(items)), PlanSchema(agg), sorted.value))
            && (!sort ==> StreamOf(pow, p) == StepRows(pow, Compute(ItemExprs(items)), PlanSchema(agg), rows))
  {
  }

  /** What the general path answers, once the counted rows are sorted. */
  lemma GroupAnswer(pow: Pow, g: string, alias: Option<string>, orderBy: Option<seq<SortKey>>, cells: seq<Option<int>>, sorted: seq<Row>)
    requires AllDifferent(cells) && g != "*" && OneColumnKey(orderBy)
    requires var q := GroupQuery(g, alias, orderBy);
             orderBy.Some? ==> SortRows(pow, GeneralKeys(q), OutSchema(q), CountedRows(cells)) == Ok(sorted)
    requires orderBy.None? ==> sorted == CountedRows(cells)
    ensures var q, cat := GroupQuery(g, alias, orderBy), Holding(IntColumn(g, cells));
            var p := BuildSelect(pow, q, cat);
            p.Ok? && PlanOk(p.value) && StreamOf(pow, p.value)
            == StepRows(pow, Compute([Column(g), Column("__agg0")]), [ColumnDef(g, NullableDouble()), AGG_SCHEMA_TAIL], sorted)
  {
    GroupPlan(pow, g, alias, orderBy, cells);
    GroupStream(pow, g, alias, orderBy, cells);
    GroupOutSchema(g, alias, orderBy);
    var q, t := GroupQuery(g, alias, orderBy), IntColumn(g, cells);
    var agg := AggregatePlan(q, InputPlan(q, t));
    OverSorted(pow, agg, orderBy.Some?, GeneralKeys(q), GeneralItems(q), CountedRows(cells));
  }

  /** If the comparator throws on the counted rows, the query fails. */
  lemma GroupFails(pow: Pow, g: string, alias: Option<string>, orderBy: Option<seq<SortKey>>, cells: seq<Option<int>>)
    requires AllDifferent(cells) && g != "*" && OneColumnKey(orderBy) && orderBy.Some?
    requires var q := GroupQuery(g, alias, orderBy); SortRows(pow, GeneralKeys(q), OutSchema(q), CountedRows(cells)).Err?
    ensures var q, cat := GroupQuery(g, alias, orderBy), Holding(IntColumn(g, cells));
            var p := BuildSelect(pow, q, cat);
            p.Ok? && PlanOk(p.value) && StreamOf(pow, p.value).mayFail
  {
    GroupPlan(pow, g, alias, orderBy, cells);
    GroupStream(pow, g, alias, orderBy, cells);
    var q, t := GroupQuery(g, alias, orderBy), IntColumn(g, cells);
    var agg := AggregatePlan(q, InputPlan(q, t));
    OverSorted(pow, agg, true, GeneralKeys(q), GeneralItems(q), CountedRows(cells));
  }

  // ---- A group column named like a slot ----

  /**
   SELECT g, COUNT(*) FROM t GROUP BY g over one row agrees exactly when g is not named like the first slot, or the
   key happens to be the count.
   */
  lemma SlotNameAgreesIff(pow: Pow, g: string, c: Option<int>)
    requires g != "*"
    ensures var q, cat := GroupQuery(g, None, None), Holding(IntColumn(g, [c]));
            FastAnswers(q, cat) && (PathsAgree(pow, q, cat) <==> !SameName(g, "__agg0") || CellValue(c) == Int(W64, 1))
  {
    FastGroupAnswer(g, None, None, [c]);
    GroupAnswer(pow, g, None, None, [c], CountedRows([c]));
    assert CountedRows([c]) == [CountedRow(c)];
    ProjectCounted(pow, g, c);
    var row := [CellValue(c), if SameName(g, "__agg0") then CellValue(c) else Int(W64, 1)];
    StepOne(pow, Compute([Column(g), Column("__agg0")]), [ColumnDef(g, NullableDouble()), AGG_SCHEMA_TAIL], CountedRow(c));
    assert [row][0][1] == row[1] && [CountedRow(c)][0][1] == Int(W64, 1);
  }

  // ---- Two rows in order ----

  lemma StableTwo(keys: seq<SortKey>, x: Keyed, y: Keyed)
    requires |x.keys| == |y.keys| == |keys|
    ensures StableSort(keys, [x, y]) == if KeysLess(keys, y.keys, x.keys) then [y, x] else [x, y]
  {
    assert [x, y][1..] == [y] && [y][1..] == [];
    assert StableSort(keys, [y]) == [y];
    assert Insert(keys, x, []) == [x];
    assert Insert(keys, x, [y]) == if KeysLess(keys, y.keys, x.keys) then [y] + [x] else [x] + [y];
  }

  /** ORDER BY one key over two rows. */
  lemma SortTwo(pow: Pow, k: SortKey, schema: Schema, a: Row, b: Row, x: Value, y: Value)
    requires Evaluate(pow, k.expr, schema, a) == Ok(x) && Evaluate(pow, k.expr, schema, b) == Ok(y) && Comparable(x, y)
    ensures SortRows(pow, [k], schema, [a, b]) == Ok(if KeysLess([k], [y], [x]) then [b, a] else [a, b])
  {
    assert [k][1..] == [];
    assert CompareRows(pow, [k], schema, a, b).Ok?;
    var rows := [a, b];
    assert NoThrow(pow, [k], schema, rows);
    assert KeyVector(pow, [k], schema, a) == [x] && KeyVector(pow, [k], schema, b) == [y];
    assert Decorate(pow, [k], schema, rows) == [Keyed([x], a), Keyed([y], b)];
    StableTwo([k], Keyed([x], a), Keyed([y], b));
    assert Undecorate([Keyed([x], a), Keyed([y], b)]) == [a, b] && Undecorate([Keyed([y], b), Keyed([x], a)]) == [b, a];
  }

  lemma SortTwoFails(pow: Pow, k: SortKey, schema: Schema, a: Row, b: Row)
    requires Evaluate(pow, k.expr, schema, a).Err?
    ensures SortRows(pow, [k], schema, [a, b]).Err?
  {
    var rows := [a, b];
    assert CompareRows(pow, [k], schema, rows[0], rows[1]).Err?;
    assert !NoThrow(pow, [k], schema, rows);
  }

  lemma FastSortTwo(k: SortKey, col: nat, a: Row, b: Row)
    requires col < |a| && col < |b|
    ensures FastSort([k], [col], [a, b]) == if KeysLess(Directions([k]), [b[col]], [a[col]]) then [b, a] else [a, b]
  {
    assert Pick([col], a) == [a[col]] && Pick([col], b) == [b[col]];
    assert PickAll([col], [a, b]) == [Keyed([a[col]], a), Keyed([b[col]], b)];
    StableTwo(Directions([k]), Keyed([a[col]], a), Keyed([b[col]], b));
  }

  lemma ProjectTwo(pow: Pow, g: string, a: Option<int>, b: Option<int>)
    requires g != "*" && !SameName(g, "__agg0")
    ensures StepRows(pow, Compute([Column(g), Column("__agg0")]), [ColumnDef(g, NullableDouble()), AGG_SCHEMA_TAIL], [CountedRow(a), CountedRow(b)])
         == Stream([CountedRow(a), CountedRow(b)], false)
  {
    ProjectCounted(pow, g, a);
    ProjectCounted(pow, g, b);
    var step, schema := Compute([Column(g), Column("__agg0")]), [ColumnDef(g, NullableDouble()), AGG_SCHEMA_TAIL];
    StepOne(pow, step, schema, CountedRow(a));
    StepOne(pow, step, schema, CountedRow(b));
    StepRowsConcat(pow, step, schema, [CountedRow(a)], [CountedRow(b)]);
    assert [CountedRow(a)] + [CountedRow(b)] == [CountedRow(a), CountedRow(b)];
  }

  // ---- The placement of NULLs ----

  lemma KeyItself(g: string, k: SortKey)
    requires k.expr == Column(g)
    ensures var q := GroupQuery(g, None, Some([k]));
            GeneralKeys(q) == [k] && OutSchema(q) == [ColumnDef(g, NullableDouble()), AGG_SCHEMA_TAIL]
  {
    var q := GroupQuery(g, None, Some([k]));
    GroupOutSchema(g, None, Some([k]));
    assert KeySource(k.expr, q.selectList) == k.expr;
    assert k.(expr := k.expr) == k;
  }

  lemma NullFirstOrLast(k: SortKey, i: int)
    ensures KeysLess([k], [Int(W64, i)], [Null]) <==> !NullsFirst(k)
    ensures KeysLess(Directions([k]), [Int(W64, i)], [Null]) <==> !k.asc
  {
    assert Directions([k]) == [k.(nulls := UNSPECIFIED)];
  }

  /** A NULL and a number in the order asked for. */
  function NullAndNumber(nullFirst: bool, i: int): seq<Row> {
    if nullFirst then [CountedRow(None), CountedRow(Some(i))] else [CountedRow(Some(i)), CountedRow(None)]
  }

  lemma GeneralNulls(pow: Pow, g: string, k: SortKey, i: int)
    requires g != "*" && !SameName(g, "__agg0") && k.expr == Column(g)
    ensures var p := BuildSelect(pow, GroupQuery(g, None, Some([k])), Holding(IntColumn(g, [None, Some(i)])));
            p.Ok? && PlanOk(p.value) && StreamOf(pow, p.value) == Stream(NullAndNumber(NullsFirst(k), i), false)
  {
    NullsSorted(pow, g, k, i);
    ProjectTwo(pow, g, None, Some(i));
    ProjectTwo(pow, g, Some(i), None);
    GroupAnswer(pow, g, None, Some([k]), [None, Some(i)], NullAndNumber(NullsFirst(k), i));
  }

  lemma NullsSorted(pow: Pow, g: string, k: SortKey, i: int)
    requires g != "*" && k.expr == Column(g)
    ensures var q := GroupQuery(g, None, Some([k]));
            SortRows(pow, GeneralKeys(q), OutSchema(q), CountedRows([None, Some(i)])) == Ok(NullAndNumber(NullsFirst(k), i))
  {
    var a, b, schema := CountedRow(None), CountedRow(Some(i)), [ColumnDef(g, NullableDouble()), AGG_SCHEMA_TAIL];
    assert CountedRows([None, Some(i)]) == [a, b];
    KeyItself(g, k);
    NullFirstOrLast(k, i);
    PlainColumn(pow, g, schema, a);
    PlainColumn(pow, g, schema, b);
    SortTwo(pow, k, schema, a, b, Null, Int(W64, i));
  }

  lemma FastNulls(g: string, k: SortKey, i: int)
    requires k.expr == Column(g)
    ensures var q, cat := GroupQuery(g, None, Some([k])), Holding(IntColumn(g, [None, Some(i)]));
            FastAnswers(q, cat) && FastResult(q, cat).value.value.rows == NullAndNumber(k.asc, i)
  {
    var cells := [None, Some(i)];
    assert CountedRows(cells) == [CountedRow(None), CountedRow(Some(i))];
    NullFirstOrLast(k, i);
    FastSortTwo(k, 0, CountedRow(None), CountedRow(Some(i)));
    FastKeyColumn(g, k, cells);
    FastGroupAnswer(g, None, Some([k]), cells);
  }

  /**
   SELECT g, COUNT(*) FROM t GROUP BY g ORDER BY g [ASC | DESC] [NULLS FIRST | NULLS LAST] over a NULL and a number
   agrees exactly when the key puts NULLs where its direction does.
   */
  lemma NullPlacementAgreesIff(pow: Pow, g: string, asc: bool, nulls: NullsOrder, i: int)
    requires g != "*" && !SameName(g, "__agg0")
    ensures var k := SortKey(Column(g), asc, nulls);
            var q, cat := GroupQuery(g, None, Some([k])), Holding(IntColumn(g, [None, Some(i)]));
            FastAnswers(q, cat) && (PathsAgree(pow, q, cat) <==> NullsFirst(k) == k.asc)
  {
    var k := SortKey(Column(g), asc, nulls);
    GeneralNulls(pow, g, k, i);
    FastNulls(g, k, i);
    assert NullAndNumber(true, i)[0][0] == Null && NullAndNumber(false, i)[0][0] == Int(W64, i);
  }

  lemma ResolveOne(schema: Schema, k: SortKey)
    requires k.expr.ColumnRef? && IndexOf(schema, k.expr.column) >= 0
    ensures ResolveKeys(schema, [k]) == Some([IndexOf(schema, k.expr.column)])
  {
    var none: seq<SortKey> := [];
    assert [k][1..] == none && ResolveKeys(schema, none) == Some([]);
    AddNothing([IndexOf(schema, k.expr.column)]);
  }

  lemma FastKeyColumn(g: string, k: SortKey, cells: seq<Option<int>>)
    requires k.expr == Column(g)
    ensures ResolveKeys(FastSchema(IntColumn(g, cells), GroupShape(g, None)), [k]) == Some([0])
  {
    var schema := FastSchema(IntColumn(g, cells), GroupShape(g, None));
    assert schema[0].name == g;
    ResolveOne(schema, k);
  }

  // ---- The case of an alias ----

  lemma FastAliasColumn(g: string, alias: string, k: SortKey, cells: seq<Option<int>>)
    requires k.expr.ColumnRef? && SameName(alias, k.expr.column) && !SameName(g, k.expr.column)
    ensures ResolveKeys(FastSchema(IntColumn(g, cells), GroupShape(g, Some(alias))), [k]) == Some([1])
  {
    var schema := FastSchema(IntColumn(g, cells), GroupShape(g, Some(alias)));
    assert schema[0].name == g && schema[1].name == alias;
    ResolveOne(schema, k);
  }

  /** What the general path sorts by: the count if the name is the alias, letter by letter. */
  lemma AliasKey(g: string, alias: string, k: SortKey)
    requires k.expr.ColumnRef? && k.expr == Column(k.expr.column)
    ensures var q := GroupQuery(g, Some(alias), Some([k]));
            GeneralKeys(q) == [k.(expr := Column(if k.expr.column == alias then "__agg0" else k.expr.column))]
  {
    var q := GroupQuery(g, Some(alias), Some([k]));
    GroupOutSchema(g, Some(alias), Some([k]));
    assert q.selectList == [SelectItem(Column(g), None), SelectItem(COUNT_ALL, Some(alias))];
    CloneOfCall(COUNT_ALL, [COUNT_ALL]);
    assert NatToString(0) == "0";
    var i := AliasedItem(q.selectList, k.expr.column);
    assert q.selectList[0].alias == None && q.selectList[1].alias == Some(alias);
    assert i < 2 <==> k.expr.column == alias;
    assert KeySource(k.expr, q.selectList) == if k.expr.column == alias then COUNT_ALL else k.expr;
    assert FindSlot([COUNT_ALL], COUNT_ALL) == 0;
    assert OrderBy(q) == [k];
    assert GeneralKeys(q)[0] == k.(expr := Column(if k.expr.column == alias then "__agg0" else k.expr.column));
  }

  /**
   SELECT g, COUNT(*) AS alias FROM t GROUP BY g ORDER BY name over two numbers, where name is the alias in any case:
   the operator tree finds the column only for the very alias, or for the name of the slot. Otherwise it fails.
   */
  lemma AliasCaseAgreesIff(pow: Pow, g: string, alias: string, name: string, i: int, j: int)
    requires i != j && SameName(alias, name) && !SameName(g, name) && !SameName(g, "__agg0") && g != "*" && name != "*"
    ensures var k := SortKey(Column(name), true, UNSPECIFIED);
            var q, cat := GroupQuery(g, Some(alias), Some([k])), Holding(IntColumn(g, [Some(i), Some(j)]));
            FastAnswers(q, cat) && (PathsAgree(pow, q, cat) <==> name == alias || SameName("__agg0", name))
  {
    var k, cells := SortKey(Column(name), true, UNSPECIFIED), [Some(i), Some(j)];
    FastAliasAnswer(g, alias, k, cells);
    if name == alias || SameName("__agg0", name) {
      AliasSorts(pow, g, alias, k, cells);
    } else {
      AliasFails(pow, g, alias, k, cells);
    }
  }

  lemma FastAliasAnswer(g: string, alias: string, k: SortKey, cells: seq<Option<int>>)
    requires |cells| == 2 && AllDifferent(cells) && k.expr.ColumnRef? && SameName(alias, k.expr.column) && !SameName(g, k.expr.column)
    ensures var q, cat := GroupQuery(g, Some(alias), Some([k])), Holding(IntColumn(g, cells));
            FastAnswers(q, cat) && FastResult(q, cat).value.value.rows == CountedRows(cells)
  {
    var a, b := CountedRow(cells[0]), CountedRow(cells[1]);
    assert CountedRows(cells) == [a, b];
    FastAliasColumn(g, alias, k, cells);
    FastSortTwo(k, 1, a, b);
    assert !KeysLess(Directions([k]), [Int(W64, 1)], [Int(W64, 1)]);
    FastGroupAnswer(g, Some(alias), Some([k]), cells);
  }

  lemma CountsTie(pow: Pow, g: string, alias: string, k: SortKey, cells: seq<Option<int>>)
    requires |cells| == 2
    requires k.expr.ColumnRef? && k.expr == Column(k.expr.column) && k.expr.column != "*" && !SameName(g, k.expr.column) && !SameName(g, "__agg0")
    requires k.expr.column == alias || SameName("__agg0", k.expr.column)
    ensures var q := GroupQuery(g, Some(alias), Some([k])); SortRows(pow, GeneralKeys(q), OutSchema(q), CountedRows(cells)) == Ok(CountedRows(cells))
  {
    var a, b, one := CountedRow(cells[0]), CountedRow(cells[1]), Int(W64, 1);
    assert CountedRows(cells) == [a, b];
    AliasKey(g, alias, k);
    GroupOutSchema(g, Some(alias), Some([k]));
    var k' := k.(expr := Column(if k.expr.column == alias then "__agg0" else k.expr.column));
    SlotLookedUp(pow, g, k'.expr.column, cells[0]);
    SlotLookedUp(pow, g, k'.expr.column, cells[1]);
    TwoTied(pow, k', [ColumnDef(g, NullableDouble()), AGG_SCHEMA_TAIL], a, b, one);
  }

  lemma TwoTied(pow: Pow, k: SortKey, schema: Schema, a: Row, b: Row, x: Value)
    requires Evaluate(pow, k.expr, schema, a) == Ok(x) && Evaluate(pow, k.expr, schema, b) == Ok(x) && x.Int?
    ensures SortRows(pow, [k], schema, [a, b]) == Ok([a, b])
  {
    assert !KeysLess([k], [x], [x]);
    SortTwo(pow, k, schema, a, b, x, x);
  }

  lemma AliasSorts(pow: Pow, g: string, alias: string, k: SortKey, cells: seq<Option<int>>)
    requires |cells| == 2 && AllDifferent(cells) && g != "*" && !SameName(g, "__agg0")
    requires k.expr.ColumnRef? && k.expr == Column(k.expr.column) && k.expr.column != "*" && !SameName(g, k.expr.column)
    requires k.expr.column == alias || SameName("__agg0", k.expr.column)
    ensures var p := BuildSelect(pow, GroupQuery(g, Some(alias), Some([k])), Holding(IntColumn(g, cells)));
            p.Ok? && PlanOk(p.value) && StreamOf(pow, p.value) == Stream(CountedRows(cells), false)
  {
    CountsTie(pow, g, alias, k, cells);
    assert CountedRows(cells) == [CountedRow(cells[0]), CountedRow(cells[1])];
    ProjectTwo(pow, g, cells[0], cells[1]);
    GroupAnswer(pow, g, Some(alias), Some([k]), cells, CountedRows(cells));
  }

  lemma AliasFails(pow: Pow, g: string, alias: string, k: SortKey, cells: seq<Option<int>>)
    requires |cells| == 2 && AllDifferent(cells) && g != "*"
    requires k.expr.ColumnRef? && k.expr == Column(k.expr.column) && k.expr.column != "*" && !SameName(g, k.expr.column)
    requires k.expr.column != alias && !SameName("__agg0", k.expr.column)
    ensures var p := BuildSelect(pow, GroupQuery(g, Some(alias), Some([k])), Holding(IntColumn(g, cells)));
            p.Ok? && PlanOk(p.value) && StreamOf(pow, p.value).mayFail
  {
    var a, b := CountedRow(cells[0]), CountedRow(cells[1]);
    assert CountedRows(cells) == [a, b];
    AliasKey(g, alias, k);
    GroupOutSchema(g, Some(alias), Some([k]));
    SlotLookedUp(pow, g, k.expr.column, cells[0]);
    SortTwoFails(pow, k, [ColumnDef(g, NullableDouble()), AGG_SCHEMA_TAIL], a, b);
    GroupFails(pow, g, Some(alias), Some([k]), cells);
  }

  lemma SlotLookedUp(pow: Pow, g: string, name: string, c: Option<int>)
    requires name != "*" && !SameName(g, name)
    ensures Evaluate(pow, Column(name), [ColumnDef(g, NullableDouble()), AGG_SCHEMA_TAIL], CountedRow(c))
         == if SameName("__agg0", name) then Ok(Int(W64, 1)) else Err
  {
    var schema := [ColumnDef(g, NullableDouble()), AGG_SCHEMA_TAIL];
    assert IndexOf(schema, name) == if SameName("__agg0", name) then 1 else -1;
  }
}
