/** Query plans and the row sequence each of them stands for. */
module Plans {
  import opened Results
  import opened Types
  import opened Ast
  import opened Eval
  import opened Tables
  import opened Ordering
  import opened RowOrder
  import opened RowKeys
  import opened Aggregation
  import opened Joins

  datatype ProjectItem = ProjectItem(expr: Expr, name: string, ty: DataType)

  datatype Plan =
    | SeqScan(table: TableData, scanSchema: Schema)
    | Filter(child: Plan, predicate_: Expr)
    | Project(child: Plan, items: seq<ProjectItem>)
    | Limit(child: Plan, limit: int, offset: int)
    | Sort(child: Plan, keys: seq<SortKey>)
    | Distinct(child: Plan)
    | HashAggregate(child: Plan, groupKeys: seq<Expr>, keyNames: seq<string>, aggs: seq<Agg>)
    | HashJoin(left: Plan, right: Plan, jtype: JoinType, condition: Option<Expr>, joinSchema: Schema)
    | Append(left: Plan, right: Plan)
    | Values(valuesSchema: Schema, rows: seq<Row>)

  function NullableDouble(): DataType {
    SimpleType(FLOAT64)
  }

  function AggregateSchema(keyNames: seq<string>, aggs: seq<Agg>): Schema {
    seq(|keyNames|, i requires 0 <= i < |keyNames| => ColumnDef(keyNames[i], NullableDouble()))
    + seq(|aggs|, i requires 0 <= i < |aggs| => ColumnDef(aggs[i].outName, aggs[i].outType))
  }

  function PlanSchema(p: Plan): Schema {
    match p
    case SeqScan(_, schema) => schema
    case Filter(c, _) => PlanSchema(c)
    case Project(_, items) => seq(|items|, i requires 0 <= i < |items| => ColumnDef(items[i].name, items[i].ty))
    case Limit(c, _, _) => PlanSchema(c)
    case Sort(c, _) => PlanSchema(c)
    case Distinct(c) => PlanSchema(c)
    case HashAggregate(_, _, names, aggs) => AggregateSchema(names, aggs)
    case HashJoin(_, _, _, _, schema) => schema
    case Append(l, _) => PlanSchema(l)
    case Values(schema, _) => schema
  }

  /** Scanned tables are well formed: the one thing an operator tree takes for granted. */
  predicate PlanOk(p: Plan) {
    match p
    case SeqScan(t, _) => TableOk(t)
    case Filter(c, _) => PlanOk(c)
    case Project(c, _) => PlanOk(c)
    case Limit(c, _, _) => PlanOk(c)
    case Sort(c, _) => PlanOk(c)
    case Distinct(c) => PlanOk(c)
    case HashAggregate(c, _, _, _) => PlanOk(c)
    case HashJoin(l, r, _, _, _) => PlanOk(l) && PlanOk(r)
    case Append(l, r) => PlanOk(l) && PlanOk(r)
    case Values(_, _) => true
  }

  /** The rows a plan stands for, up to the first evaluation error if `mayFail`. */
  datatype Stream = Stream(rows: seq<Row>, mayFail: bool)

  function FromResult(r: Result<seq<Row>>, mayFail: bool): Stream {
    if r.Ok? then Stream(r.value, mayFail) else Stream([], true)
  }

  // ---- Row-wise operators ----

  datatype RowStep = KeepIf(condition: Expr) | Compute(exprs: seq<Expr>)

  function ItemExprs(items: seq<ProjectItem>): seq<Expr> {
    seq(|items|, i requires 0 <= i < |items| => items[i].expr)
  }

  function StepRow(pow: Pow, step: RowStep, schema: Schema, row: Row): Result<seq<Row>> {
    match step
    case KeepIf(cond) =>
      var keep :- EvaluatePredicate(pow, cond, schema, row);
      Ok(if keep then [row] else [])
    case Compute(exprs) =>
      var out :- EvaluateAll(pow, exprs, schema, row);
      Ok([out])
  }

  function StepRows(pow: Pow, step: RowStep, schema: Schema, rows: seq<Row>): Stream {
    if rows == [] then Stream([], false)
    else match StepRow(pow, step, schema, rows[0])
      case Err => Stream([], true)
      case Ok(out) =>
        var rest := StepRows(pow, step, schema, rows[1..]);
        Stream(out + rest.rows, rest.mayFail)
  }

  function StepStream(pow: Pow, step: RowStep, schema: Schema, s: Stream): Stream {
    var r := StepRows(pow, step, schema, s.rows);
    Stream(r.rows, r.mayFail || s.mayFail)
  }

  lemma {:induction false} StepRowsConcat(pow: Pow, step: RowStep, schema: Schema, a: seq<Row>, b: seq<Row>)
    ensures var x, y := StepRows(pow, step, schema, a), StepRows(pow, step, schema, b);
            StepRows(pow, step, schema, a + b) == if x.mayFail then x else Stream(x.rows + y.rows, y.mayFail)
    decreases |a|
  {
    if a == [] {
      assert a + b == b;
    } else {
      StepRowsConcat(pow, step, schema, a[1..], b);
      assert (a + b)[1..] == a[1..] + b;
      var first := StepRow(pow, step, schema, a[0]);
      if first.Ok? {
        var x, y := StepRows(pow, step, schema, a[1..]), StepRows(pow, step, schema, b);
        assert first.value + (x.rows + y.rows) == first.value + x.rows + y.rows;
      }
    }
  }

  // ---- The meaning of a plan ----

  predicate IsRowwise(p: Plan) {
    p.Filter? || p.Project?
  }

  function StepOf(p: Plan): RowStep
    requires IsRowwise(p)
  {
    if p.Filter? then KeepIf(p.predicate_) else Compute(ItemExprs(p.items))
  }

  function StreamOf(pow: Pow, p: Plan): Stream
    requires PlanOk(p)
  {
    match p
    case SeqScan(t, _) => Stream(TableRows(t), false)
    case Values(_, rows) => Stream(rows, false)
    case Filter(c, _) => StepStream(pow, StepOf(p), PlanSchema(c), StreamOf(pow, c))
    case Project(c, _) => StepStream(pow, StepOf(p), PlanSchema(c), StreamOf(pow, c))
    case Limit(c, limit, offset) => LimitStream(limit, offset, StreamOf(pow, c))
    case Append(l, r) => AppendStream(StreamOf(pow, l), StreamOf(pow, r))
    case HashJoin(l, r, _, _, _) => JoinStream(pow, p, StreamOf(pow, l), StreamOf(pow, r))
    case Sort(c, _) => BlockingStream(pow, p, StreamOf(pow, c))
    case Distinct(c) => BlockingStream(pow, p, StreamOf(pow, c))
    case HashAggregate(c, _, _, _) => BlockingStream(pow, p, StreamOf(pow, c))
  }

  function LimitStream(limit: int, offset: int, s: Stream): Stream {
    Stream(LimitRows(limit, offset, s.rows), s.mayFail)
  }

  function AppendStream(a: Stream, b: Stream): Stream {
    Stream(a.rows + b.rows, a.mayFail || b.mayFail)
  }

  function JoinStream(pow: Pow, p: Plan, a: Stream, b: Stream): Stream
    requires p.HashJoin?
  {
    FromResult(JoinInputs(pow, p, a.rows, b.rows), a.mayFail || b.mayFail)
  }

  function BlockingStream(pow: Pow, p: Plan, s: Stream): Stream
    requires IsBlocking(p)
  {
    FromResult(Blocking(pow, p, s.rows), s.mayFail)
  }

  function JoinInputs(pow: Pow, p: Plan, ls: seq<Row>, rs: seq<Row>): Result<seq<Row>>
    requires p.HashJoin?
  {
    JoinRows(pow, p.jtype, p.condition, ls, rs, PlanSchema(p.left), PlanSchema(p.right))
  }

  predicate IsBlocking(p: Plan) {
    p.Sort? || p.Distinct? || p.HashAggregate?
  }

  /** The output of an operator that reads all its input first. */
  function Blocking(pow: Pow, p: Plan, rows: seq<Row>): Result<seq<Row>>
    requires IsBlocking(p)
  {
    match p
    case Sort(c, keys) => SortRows(pow, keys, PlanSchema(c), rows)
    case Distinct(_) => Ok(DistinctRows(rows))
    case HashAggregate(c, keys, _, aggs) => AggregateRows(pow, keys, aggs, PlanSchema(c), rows)
  }

  // ---- Limit, batch by batch ----

  /** What is still to come after `skipped` rows were skipped and `emitted` were emitted. */
  function LimitRest(limit: int, offset: int, emitted: int, skipped: int, rows: seq<Row>): seq<Row>
    decreases |rows|
  {
    if rows == [] then []
    else if skipped < offset then LimitRest(limit, offset, emitted, skipped + 1, rows[1..])
    else if limit >= 0 && emitted >= limit then []
    else [rows[0]] + LimitRest(limit, offset, emitted + 1, skipped, rows[1..])
  }

  /** Row by row, LIMIT and OFFSET cut out one slice. */
  lemma {:induction false} LimitRestIsSlice(limit: int, offset: int, emitted: int, skipped: int, rows: seq<Row>)
    requires limit < 0 || emitted <= limit
    ensures LimitRest(limit, offset, emitted, skipped, rows)
         == LimitRows(if limit < 0 then -1 else limit - emitted, offset - skipped, rows)
    decreases |rows|
  {
    if rows != [] {
      if skipped < offset {
        LimitRestIsSlice(limit, offset, emitted, skipped + 1, rows[1..]);
      } else if limit < 0 || emitted < limit {
        LimitRestIsSlice(limit, offset, emitted + 1, skipped, rows[1..]);
      }
    }
  }
}
