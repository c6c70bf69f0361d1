/** Every row a query yields has one cell a column of the result schema. */
module Widths {
  import opened Results
  import opened Types
  import opened Ast
  import opened Eval
  import opened Tables
  import opened Ordering
  import opened RowOrder
  import opened RowKeys
  import opened Aggregation
  import opened Joins
  import opened Plans
  import opened Planner
  import opened FastPredicate
  import opened FastAggregate
  import opened Rewrite

  /** The schemas of a plan fit the plans below them. */
  predicate Sized(p: Plan) {
    match p
    case SeqScan(t, schema) => |schema| == |t.schema|
    case Filter(c, _) => Sized(c)
    case Project(c, _) => Sized(c)
    case Limit(c, _, _) => Sized(c)
    case Sort(c, _) => Sized(c)
    case Distinct(c) => Sized(c)
    case HashAggregate(c, keys, names, _) => Sized(c) && |names| == |keys|
    case HashJoin(l, r, _, _, schema) => Sized(l) && Sized(r) && |schema| == |PlanSchema(l)| + |PlanSchema(r)|
    case Append(l, r) => Sized(l) && Sized(r) && |PlanSchema(l)| == |PlanSchema(r)|
    case Values(schema, rows) => AllOfLength(rows, |schema|)
  }

  // ---- Operator by operator ----

  lemma {:induction false} ComputedWidth(pow: Pow, exprs: seq<Expr>, schema: Schema, rows: seq<Row>)
    ensures AllOfLength(StepRows(pow, Compute(exprs), schema, rows).rows, |exprs|)
    decreases |rows|
  {
    if rows != [] {
      ComputedWidth(pow, exprs, schema, rows[1..]);
    }
  }

  lemma {:induction false} KeptWidth(pow: Pow, condition: Expr, schema: Schema, rows: seq<Row>, n: nat)
    requires AllOfLength(rows, n)
    ensures AllOfLength(StepRows(pow, KeepIf(condition), schema, rows).rows, n)
    decreases |rows|
  {
    if rows != [] {
      KeptWidth(pow, condition, schema, rows[1..], n);
    }
  }

  lemma SortedWidth(keys: seq<SortKey>, xs: seq<Keyed>, n: nat)
    requires Aligned(keys, xs) && forall x :: x in xs ==> |x.row| == n
    ensures AllOfLength(Undecorate(StableSort(keys, xs)), n)
  {
    var ys := StableSort(keys, xs);
    StableSortIsPermutation(keys, xs);
    forall i | 0 <= i < |ys| ensures |ys[i].row| == n {
      assert ys[i] in multiset(ys);
      assert ys[i] in multiset(xs);
    }
  }

  lemma DistinctWidth(rows: seq<Row>, n: nat)
    requires AllOfLength(rows, n)
    ensures AllOfLength(DistinctRows(rows), n)
  {
    DistinctKeys(rows);
    assert forall i :: 0 <= i < |DistinctRows(rows)| ==> DistinctRows(rows)[i] in rows;
  }

  lemma AggregateWidth(pow: Pow, keys: seq<Expr>, aggs: seq<Agg>, schema: Schema, rows: seq<Row>)
    ensures var r := AggregateRows(pow, keys, aggs, schema, rows); r.Ok? ==> AllOfLength(r.value, |keys| + |aggs|)
  {
    hide RowKey, GroupAccs, AccOut;
    var inputs := InputsOf(pow, keys, aggs, schema, rows);
    if inputs.Ok? && (keys != [] || rows != []) {
      var xs := inputs.value;
      var gs := Groups(xs);
      var out := GroupRows(aggs, gs);
      KeysComeFromInputs(xs);
      if out.Ok? {
        forall i | 0 <= i < |gs| ensures |out.value[i]| == |keys| + |aggs| {
          var x := gs[i][0];
          assert gs[i] == WithKey(xs, KeysInOrder(xs)[i]) && x in xs;
          var j :| 0 <= j < |xs| && xs[j] == x;
          assert InputOf(pow, keys, aggs, schema, rows[j]) == Ok(x);
          assert GroupRow(aggs, gs[i]) == Ok(out.value[i]);
        }
      }
    }
  }

  lemma {:induction false} PairsWidth(l: Row, rs: seq<Row>, row: seq<bool>, n: nat)
    requires |row| == |rs| && AllOfLength(rs, n)
    ensures AllOfLength(Pairs(l, rs, row), |l| + n)
    decreases |rs|
  {
    if rs != [] {
      PairsWidth(l, rs[..|rs| - 1], row[..|rs| - 1], n);
    }
  }

  lemma {:induction false} LeftWidth(ls: seq<Row>, rs: seq<Row>, m: Matrix, extend: bool, lcols: nat, rcols: nat)
    requires Shaped(m, ls, rs) && AllOfLength(ls, lcols) && AllOfLength(rs, rcols)
    ensures AllOfLength(LeftRows(ls, rs, m, extend, rcols), lcols + rcols)
    decreases |ls|
  {
    if ls != [] {
      var n := |ls| - 1;
      LeftWidth(ls[..n], rs, m[..n], extend, lcols, rcols);
      PairsWidth(ls[n], rs, m[n], rcols);
    }
  }

  lemma {:induction false} RightWidth(rs: seq<Row>, n: nat, m: Matrix, lcols: nat, rcols: nat)
    requires n <= |rs| && AllOfLength(rs, rcols)
    ensures AllOfLength(UnmatchedRight(rs, n, m, lcols), lcols + rcols)
    decreases n
  {
    if n > 0 {
      RightWidth(rs, n - 1, m, lcols, rcols);
    }
  }

  lemma JoinWidth(pow: Pow, p: Plan, ls: seq<Row>, rs: seq<Row>)
    requires p.HashJoin? && AllOfLength(ls, |PlanSchema(p.left)|) && AllOfLength(rs, |PlanSchema(p.right)|)
    ensures var r := JoinInputs(pow, p, ls, rs); r.Ok? ==> AllOfLength(r.value, |PlanSchema(p.left)| + |PlanSchema(p.right)|)
  {
    var m := MatchMatrix(pow, p.jtype, p.condition, PlanSchema(p.left) + PlanSchema(p.right), ls, rs);
    if m.Ok? {
      LeftWidth(ls, rs, m.value, KeepsLeft(p.jtype), |PlanSchema(p.left)|, |PlanSchema(p.right)|);
      RightWidth(rs, |rs|, m.value, |PlanSchema(p.left)|, |PlanSchema(p.right)|);
    }
  }

  lemma BlockingWidth(pow: Pow, p: Plan, rows: seq<Row>)
    requires IsBlocking(p) && Sized(p) && AllOfLength(rows, |PlanSchema(p.child)|)
    ensures var r := Blocking(pow, p, rows); r.Ok? ==> AllOfLength(r.value, |PlanSchema(p)|)
  {
    match p
    case Sort(c, keys) =>
      var xs := Decorate(pow, keys, PlanSchema(c), rows);
      SortedWidth(keys, xs, |PlanSchema(c)|);
    case Distinct(_) => DistinctWidth(rows, |PlanSchema(p)|);
    case HashAggregate(c, keys, names, aggs) => AggregateWidth(pow, keys, aggs, PlanSchema(c), rows);
  }

  lemma {:induction false} RowsFitSchema(pow: Pow, p: Plan)
    requires PlanOk(p) && Sized(p)
    ensures AllOfLength(StreamOf(pow, p).rows, |PlanSchema(p)|)
  {
    match p
    case SeqScan(_, _) =>
    case Values(_, _) =>
    case Filter(c, condition) =>
      RowsFitSchema(pow, c);
      KeptWidth(pow, condition, PlanSchema(c), StreamOf(pow, c).rows, |PlanSchema(c)|);
    case Project(c, items) =>
      ComputedWidth(pow, ItemExprs(items), PlanSchema(c), StreamOf(pow, c).rows);
    case Limit(c, _, _) => RowsFitSchema(pow, c);
    case Append(l, r) =>
      RowsFitSchema(pow, l);
      RowsFitSchema(pow, r);
    case HashJoin(l, r, _, _, _) =>
      RowsFitSchema(pow, l);
      RowsFitSchema(pow, r);
      JoinWidth(pow, p, StreamOf(pow, l).rows, StreamOf(pow, r).rows);
    case Sort(c, _) =>
      RowsFitSchema(pow, c);
      BlockingWidth(pow, p, StreamOf(pow, c).rows);
    case Distinct(c) =>
      RowsFitSchema(pow, c);
      BlockingWidth(pow, p, StreamOf(pow, c).rows);
    case HashAggregate(c, _, _, _) =>
      RowsFitSchema(pow, c);
      BlockingWidth(pow, p, StreamOf(pow, c).rows);
  }

  // ---- Every built plan is sized ----

  lemma {:induction false} TableRefSized(pow: Pow, ref: TableRefNode, cat: Catalog, alias: string)
    ensures var p := BuildTableRef(pow, ref, cat, alias); p.Ok? ==> Sized(p.value)
    decreases ref, 0
  {
    match ref
    case TableRef(_) =>
    case AliasedRef(inner, a) => TableRefSized(pow, inner, cat, a);
    case JoinRef(_, l, r, _) =>
      TableRefSized(pow, l, cat, "");
      TableRefSized(pow, r, cat, "");
    case SubqueryRef(q) => SelectSized(pow, q, cat);
  }

  lemma {:induction false} TablesSized(pow: Pow, tables: seq<TableRefNode>, left: Plan, cat: Catalog)
    requires Sized(left)
    ensures var p := BuildTables(pow, tables, left, cat); p.Ok? ==> Sized(p.value)
    decreases tables, 0
  {
    if tables != [] {
      TableRefSized(pow, tables[0], cat, "");
      var right := BuildTableRef(pow, tables[0], cat, "");
      if right.Ok? {
        TablesSized(pow, tables[1..], HashJoin(left, right.value, CROSS, None, PlanSchema(left) + PlanSchema(right.value)), cat);
      }
    }
  }

  lemma {:induction false} FromSized(pow: Pow, tables: seq<TableRefNode>, cat: Catalog)
    ensures var p := BuildFrom(pow, tables, cat); p.Ok? ==> Sized(p.value)
    decreases tables, 1
  {
    if tables != [] {
      TableRefSized(pow, tables[0], cat, "");
      var first := BuildTableRef(pow, tables[0], cat, "");
      if first.Ok? {
        TablesSized(pow, tables[1..], first.value, cat);
      }
    }
  }

  lemma BodySized(stmt: SelectStmt, input: Plan)
    requires Sized(input)
    ensures Sized(Body(stmt, input))
  {
    var agg := AggregatePlan(stmt, input);
    assert Sized(agg);
    var slots := SlotsOf(stmt);
    var having := FilterBy(agg, if stmt.having.Some? then Some(CloneSubstAggs(stmt.having.value, slots)) else None);
    assert Sized(having);
  }

  lemma LimitSized(pow: Pow, p: Plan, stmt: SelectStmt)
    requires Sized(p)
    ensures ApplyLimit(pow, p, stmt).Ok? ==> Sized(ApplyLimit(pow, p, stmt).value)
  {
  }

  lemma {:induction false} CoreSized(pow: Pow, stmt: SelectStmt, cat: Catalog)
    ensures var p := BuildSelectCore(pow, stmt, cat); p.Ok? ==> Sized(p.value)
    decreases stmt, 0
  {
    FromSized(pow, stmt.from, cat);
    var from := BuildFrom(pow, stmt.from, cat);
    if from.Ok? {
      var body := Body(stmt, FilterBy(from.value, stmt.where));
      BodySized(stmt, FilterBy(from.value, stmt.where));
      LimitSized(pow, ApplyDistinct(body, stmt.distinct), stmt);
    }
  }

  lemma {:induction false} SelectSized(pow: Pow, stmt: SelectStmt, cat: Catalog)
    ensures var p := BuildSelect(pow, stmt, cat); p.Ok? ==> Sized(p.value)
    decreases stmt, 1
  {
    CoreSized(pow, stmt, cat);
    if stmt.setOp.Some? {
      SelectSized(pow, stmt.setOp.value.rhs, cat);
    }
  }

  /** The rows of a SELECT that goes through the operator tree are as wide as its result schema. */
  lemma SelectRowsFit(pow: Pow, stmt: SelectStmt, cat: Catalog)
    requires CatalogOk(cat) && BuildSelect(pow, stmt, cat).Ok?
    ensures var p := BuildSelect(pow, stmt, cat).value; PlanOk(p) && AllOfLength(StreamOf(pow, p).rows, |PlanSchema(p)|)
  {
    SelectPlanOk(pow, stmt, cat);
    SelectSized(pow, stmt, cat);
    RowsFitSchema(pow, BuildSelect(pow, stmt, cat).value);
  }

  // ---- The fast path ----

  lemma FastOrderWidth(schema: Schema, orderBy: Option<seq<SortKey>>, rows: seq<Row>)
    requires AllOfLength(rows, |schema|)
    ensures var r := FastOrder(schema, orderBy, rows); r.Some? ==> AllOfLength(r.value, |schema|)
  {
    if orderBy.Some? && ResolveKeys(schema, orderBy.value).Some? {
      var cols := ResolveKeys(schema, orderBy.value).value;
      SortedWidth(Directions(orderBy.value), PickAll(cols, rows), |schema|);
    }
  }

  /** So are the rows the fast path answers with. */
  lemma FastRowsFit(stmt: SelectStmt, cat: Catalog)
    requires FastModelled(stmt, cat) && FastResult(stmt, cat).Ok? && FastResult(stmt, cat).value.Some?
    ensures var a := FastResult(stmt, cat).value.value; AllOfLength(a.rows, |a.schema|)
  {
    hide FastGroups, ReadShape, AllReadable, FastOrder;
    var t := FastTable(stmt, cat).value;
    var shape := ReadShape(stmt, t).value;
    GateIsOk(stmt, t);
    GroupsAreShowable(t, shape);
    var schema := FastSchema(t, shape);
    var rows := FastRows(shape, FastGroups(t, shape));
    assert AllOfLength(rows, |schema|);
    FastOrderWidth(schema, stmt.orderBy, rows);
  }
}
