/** From a SELECT statement to a query plan, and what the plan of an aggregate query means. */
module Planner {
  import opened Results
  import opened Types
  import opened Ast
  import opened Eval
  import opened Tables
  import opened Aggregation
  import opened Plans
  import opened Rewrite
  import opened RewriteMeaning

  /** Tables by name. */
  type Catalog = map<string, TableData>

  ghost predicate CatalogOk(cat: Catalog) {
    forall name :: name in cat ==> TableOk(cat[name])
  }

  // ---- FROM ----

  /** An aliased table exposes "alias.column", an unaliased one its bare column names. */
  function ScanSchema(schema: Schema, alias: string): Schema {
    seq(|schema|, i requires 0 <= i < |schema| =>
      ColumnDef(if alias == "" then schema[i].name else alias + "." + schema[i].name, schema[i].ty))
  }

  /** An alias around a subquery or a join is not applied. */
  function BuildTableRef(pow: Pow, ref: TableRefNode, cat: Catalog, alias: string): Result<Plan>
    decreases ref, 0
  {
    match ref
    case TableRef(name) => if name in cat then Ok(SeqScan(cat[name], ScanSchema(cat[name].schema, alias))) else Err
    case AliasedRef(inner, a) => BuildTableRef(pow, inner, cat, a)
    case JoinRef(jtype, l, r, condition) =>
      var left :- BuildTableRef(pow, l, cat, "");
      var right :- BuildTableRef(pow, r, cat, "");
      Ok(HashJoin(left, right, jtype, condition, PlanSchema(left) + PlanSchema(right)))
    case SubqueryRef(q) => BuildSelect(pow, q, cat)
  }

  /** The comma-separated tables, as CROSS joins from left to right. */
  function BuildTables(pow: Pow, tables: seq<TableRefNode>, left: Plan, cat: Catalog): Result<Plan>
    decreases tables, 0
  {
    if tables == [] then Ok(left)
    else
      var right :- BuildTableRef(pow, tables[0], cat, "");
      BuildTables(pow, tables[1..], HashJoin(left, right, CROSS, None, PlanSchema(left) + PlanSchema(right)), cat)
  }

  const DUAL: Plan := Values([ColumnDef("__dual__", DataType(INT32, false, 0, 0, -1))], [[Int(W32, 0)]])

  function BuildFrom(pow: Pow, tables: seq<TableRefNode>, cat: Catalog): Result<Plan>
    decreases tables, 1
  {
    if tables == [] then Ok(DUAL)
    else
      var first :- BuildTableRef(pow, tables[0], cat, "");
      BuildTables(pow, tables[1..], first, cat)
  }

  // ---- The pieces of an aggregate query ----

  predicate IsAggregateQuery(stmt: SelectStmt) {
    stmt.groupBy.Some? || stmt.having.Some?
    || exists i :: 0 <= i < |stmt.selectList| && CollectAggs(stmt.selectList[i].expr) != []
  }

  function GroupKeys(stmt: SelectStmt): seq<Expr> {
    if stmt.groupBy.Some? then stmt.groupBy.value else []
  }

  function KeyName(key: Expr, i: nat): string {
    if key.ColumnRef? then key.column else "__gk" + NatToString(i)
  }

  function KeyNames(keys: seq<Expr>): (r: seq<string>)
    ensures |r| == |keys|
  {
    seq(|keys|, i requires 0 <= i < |keys| => KeyName(keys[i], i))
  }

  function ItemExpressions(items: seq<SelectItem>): seq<Expr> {
    seq(|items|, i requires 0 <= i < |items| => items[i].expr)
  }

  function SortExpressions(keys: seq<SortKey>): seq<Expr> {
    seq(|keys|, i requires 0 <= i < |keys| => keys[i].expr)
  }

  function OrderBy(stmt: SelectStmt): seq<SortKey> {
    if stmt.orderBy.Some? then stmt.orderBy.value else []
  }

  /** Every expression that may hold aggregate calls, in the order in which they are collected. */
  function AggregateSources(stmt: SelectStmt): seq<Expr> {
    ItemExpressions(stmt.selectList) + (if stmt.having.Some? then [stmt.having.value] else []) + SortExpressions(OrderBy(stmt))
  }

  function SlotsOf(stmt: SelectStmt): seq<Expr> {
    CollectInto([], AggregateSources(stmt))
  }

  lemma SlotsAreCalls(stmt: SelectStmt)
    ensures AllCalls(SlotsOf(stmt))
  {
    SlotsAreAggregates([], AggregateSources(stmt));
  }

  function ItemName(item: SelectItem, i: nat): string {
    if item.alias.Some? then item.alias.value
    else match item.expr
      case ColumnRef(_, _, c) => c
      case FunctionCall(name, _, _, _) => name
      case _ => "col" + NatToString(i + 1)
  }

  /** Column references inherit the type of the column they find, anything else is a nullable double. */
  function ItemType(e: Expr, schema: Schema, qualified: bool): DataType {
    if !e.ColumnRef? then NullableDouble()
    else
      var q := if qualified && e.table.Some? then IndexOf(schema, e.table.value + "." + e.column) else -1;
      var idx := if q < 0 then IndexOf(schema, e.column) else q;
      if idx >= 0 then schema[idx].ty else NullableDouble()
  }

  function RewrittenItems(items: seq<SelectItem>, slots: seq<Expr>, schema: Schema): (r: seq<ProjectItem>)
    ensures |r| == |items| && forall i :: 0 <= i < |items| ==> r[i].expr == CloneSubstAggs(items[i].expr, slots)
  {
    seq(|items|, i requires 0 <= i < |items| =>
      var e := CloneSubstAggs(items[i].expr, slots);
      ProjectItem(e, ItemName(items[i], i), ItemType(e, schema, false)))
  }

  /** The first item whose alias is this name. */
  function AliasedItem(items: seq<SelectItem>, name: string): (i: nat)
    ensures i <= |items|
    ensures i < |items| ==> items[i].alias == Some(name)
    ensures forall j :: 0 <= j < i ==> items[j].alias != Some(name)
  {
    if items == [] || items[0].alias == Some(name) then 0
    else
      assert forall j :: 0 < j < |items| ==> items[j] == items[1..][j - 1];
      1 + AliasedItem(items[1..], name)
  }

  /** The expression a sort key stands for: a bare name that is an alias stands for the item. */
  function KeySource(key: Expr, items: seq<SelectItem>): Expr {
    if key.ColumnRef? && AliasedItem(items, key.column) < |items| then items[AliasedItem(items, key.column)].expr else key
  }

  function RewrittenKeys(keys: seq<SortKey>, items: seq<SelectItem>, slots: seq<Expr>): (r: seq<SortKey>)
    ensures |r| == |keys|
  {
    seq(|keys|, i requires 0 <= i < |keys| => keys[i].(expr := CloneSubstAggs(KeySource(keys[i].expr, items), slots)))
  }

  // ---- SELECT ----

  function LimitValue(pow: Pow, e: Option<Expr>, default: int): Result<int> {
    if e.None? then Ok(default)
    else
      var v :- Evaluate(pow, e.value, [], []);
      ToInt64(v)
  }

  function ApplyLimit(pow: Pow, p: Plan, stmt: SelectStmt): Result<Plan> {
    if stmt.limit.None? then Ok(p)
    else
      var limit :- LimitValue(pow, stmt.limit.value.limit, -1);
      var offset :- LimitValue(pow, stmt.limit.value.offset, 0);
      Ok(Limit(p, limit, offset))
  }

  function ApplyDistinct(p: Plan, distinct: bool): Plan {
    if distinct then Distinct(p) else p
  }

  function FilterBy(p: Plan, condition: Option<Expr>): Plan {
    if condition.Some? then Filter(p, condition.value) else p
  }

  function AggregatePlan(stmt: SelectStmt, input: Plan): Plan {
    SlotsAreCalls(stmt);
    HashAggregate(input, GroupKeys(stmt), KeyNames(GroupKeys(stmt)), SlotAggs(SlotsOf(stmt)))
  }

  /** HAVING, then ORDER BY, then the projection on the items, over the aggregate output. */
  function OverAggregate(stmt: SelectStmt, agg: Plan): Plan {
    var slots := SlotsOf(stmt);
    var having := FilterBy(agg, if stmt.having.Some? then Some(CloneSubstAggs(stmt.having.value, slots)) else None);
    var sorted := if stmt.orderBy.Some? then Sort(having, RewrittenKeys(OrderBy(stmt), stmt.selectList, slots)) else having;
    Project(sorted, RewrittenItems(stmt.selectList, slots, PlanSchema(agg)))
  }

  predicate SelectsStar(stmt: SelectStmt) {
    |stmt.selectList| == 1 && stmt.selectList[0].expr.ColumnRef? && stmt.selectList[0].expr.column == "*"
    && stmt.selectList[0].expr.table.None?
  }

  function PlainItems(items: seq<SelectItem>, schema: Schema): seq<ProjectItem> {
    seq(|items|, i requires 0 <= i < |items| =>
      ProjectItem(items[i].expr, ItemName(items[i], i), ItemType(items[i].expr, schema, true)))
  }

  /** Without aggregates the input is sorted before the projection can drop the sort columns. */
  function OverInput(stmt: SelectStmt, input: Plan): Plan {
    var sorted := if stmt.orderBy.Some? then Sort(input, OrderBy(stmt)) else input;
    if SelectsStar(stmt) then sorted else Project(sorted, PlainItems(stmt.selectList, PlanSchema(sorted)))
  }

  function Body(stmt: SelectStmt, input: Plan): Plan {
    if IsAggregateQuery(stmt) then OverAggregate(stmt, AggregatePlan(stmt, input)) else OverInput(stmt, input)
  }

  function BuildSelectCore(pow: Pow, stmt: SelectStmt, cat: Catalog): Result<Plan>
    decreases stmt, 0
  {
    var from :- BuildFrom(pow, stmt.from, cat);
    ApplyLimit(pow, ApplyDistinct(Body(stmt, FilterBy(from, stmt.where)), stmt.distinct), stmt)
  }

  function BuildSelect(pow: Pow, stmt: SelectStmt, cat: Catalog): Result<Plan>
    decreases stmt, 1
  {
    var core :- BuildSelectCore(pow, stmt, cat);
    match stmt.setOp
    case None => Ok(core)
    case Some(tail) =>
      if tail.op != UNION && tail.op != UNION_ALL then Err
      else
        var rhs :- BuildSelect(pow, tail.rhs, cat);
        if |PlanSchema(core)| != |PlanSchema(rhs)| then Err
        else Ok(ApplyDistinct(Append(core, rhs), tail.op == UNION))
  }

  // ---- Every built plan can be run ----

  lemma {:induction false} TableRefPlanOk(pow: Pow, ref: TableRefNode, cat: Catalog, alias: string)
    requires CatalogOk(cat)
    ensures var p := BuildTableRef(pow, ref, cat, alias); p.Ok? ==> PlanOk(p.value)
    decreases ref, 0
  {
    match ref
    case TableRef(_) =>
    case AliasedRef(inner, a) => TableRefPlanOk(pow, inner, cat, a);
    case JoinRef(_, l, r, _) =>
      TableRefPlanOk(pow, l, cat, "");
      TableRefPlanOk(pow, r, cat, "");
    case SubqueryRef(q) => SelectPlanOk(pow, q, cat);
  }

  lemma {:induction false} TablesPlanOk(pow: Pow, tables: seq<TableRefNode>, left: Plan, cat: Catalog)
    requires CatalogOk(cat) && PlanOk(left)
    ensures var p := BuildTables(pow, tables, left, cat); p.Ok? ==> PlanOk(p.value)
    decreases tables, 0
  {
    if tables != [] {
      TableRefPlanOk(pow, tables[0], cat, "");
      var right := BuildTableRef(pow, tables[0], cat, "");
      if right.Ok? {
        TablesPlanOk(pow, tables[1..], HashJoin(left, right.value, CROSS, None, PlanSchema(left) + PlanSchema(right.value)), cat);
      }
    }
  }

  lemma {:induction false} FromPlanOk(pow: Pow, tables: seq<TableRefNode>, cat: Catalog)
    requires CatalogOk(cat)
    ensures var p := BuildFrom(pow, tables, cat); p.Ok? ==> PlanOk(p.value)
    decreases tables, 1
  {
    if tables != [] {
      TableRefPlanOk(pow, tables[0], cat, "");
      var first := BuildTableRef(pow, tables[0], cat, "");
      if first.Ok? {
        TablesPlanOk(pow, tables[1..], first.value, cat);
      }
    }
  }

  lemma OverAggregatePlanOk(stmt: SelectStmt, agg: Plan)
    requires PlanOk(agg)
    ensures PlanOk(OverAggregate(stmt, agg))
  {
    var slots := SlotsOf(stmt);
    var having := FilterBy(agg, if stmt.having.Some? then Some(CloneSubstAggs(stmt.having.value, slots)) else None);
    assert PlanOk(having);
  }

  lemma BodyPlanOk(stmt: SelectStmt, input: Plan)
    requires PlanOk(input)
    ensures PlanOk(Body(stmt, input))
  {
    OverAggregatePlanOk(stmt, AggregatePlan(stmt, input));
  }

  lemma LimitPlanOk(pow: Pow, p: Plan, stmt: SelectStmt)
    requires PlanOk(p)
    ensures ApplyLimit(pow, p, stmt).Ok? ==> PlanOk(ApplyLimit(pow, p, stmt).value)
  {
  }

  lemma {:induction false} CorePlanOk(pow: Pow, stmt: SelectStmt, cat: Catalog)
    requires CatalogOk(cat)
    ensures var p := BuildSelectCore(pow, stmt, cat); p.Ok? ==> PlanOk(p.value)
    decreases stmt, 0
  {
    FromPlanOk(pow, stmt.from, cat);
    var from := BuildFrom(pow, stmt.from, cat);
    if from.Ok? {
      var body := Body(stmt, FilterBy(from.value, stmt.where));
      BodyPlanOk(stmt, FilterBy(from.value, stmt.where));
      LimitPlanOk(pow, ApplyDistinct(body, stmt.distinct), stmt);
    }
  }

  /** A plan built over a well-formed catalog scans only well-formed tables. */
  lemma {:induction false} SelectPlanOk(pow: Pow, stmt: SelectStmt, cat: Catalog)
    requires CatalogOk(cat)
    ensures var p := BuildSelect(pow, stmt, cat); p.Ok? ==> PlanOk(p.value)
    decreases stmt, 1
  {
    CorePlanOk(pow, stmt, cat);
    if stmt.setOp.Some? {
      SelectPlanOk(pow, stmt.setOp.value.rhs, cat);
    }
  }
}
