/** What the plan of an aggregate query answers: one row a group, its expressions read over the rows of the group. */
module QueryMeaning {
  import opened Results
  import opened Seqs
  import opened Types
  import opened Ast
  import opened Eval
  import opened Ordering
  import opened RowOrder
  import opened RowKeys
  import opened Aggregation
  import opened Plans
  import opened Rewrite
  import opened RewriteMeaning
  import opened Planner

  /** GROUP BY plain distinct columns; outside aggregate calls the query mentions only those columns. */
  ghost predicate Grouped(stmt: SelectStmt) {
    && KeysOk(GroupKeys(stmt), KeyNames(GroupKeys(stmt)), |SlotsOf(stmt)|)
    && LexedCalls(SlotsOf(stmt))
    && (forall e :: e in AnsweredExprs(stmt) ==> KeysAndCalls(e, GroupKeys(stmt)))
  }

  ghost predicate KeysAndCalls(e: Expr, keys: seq<Expr>) {
    (forall f :: f in CollectAggs(e) ==> LexedCall(f)) && (forall c :: c in CollectRefs(e) ==> c in keys)
  }

  /** The expressions that make up the answer: items, HAVING, and ORDER BY keys with aliases resolved. */
  function AnsweredExprs(stmt: SelectStmt): seq<Expr> {
    ItemExpressions(stmt.selectList) + (if stmt.having.Some? then [stmt.having.value] else []) + KeySources(stmt)
  }

  function KeySources(stmt: SelectStmt): (r: seq<Expr>)
    ensures |r| == |OrderBy(stmt)|
  {
    var keys := OrderBy(stmt);
    seq(|keys|, i requires 0 <= i < |keys| => KeySource(keys[i].expr, stmt.selectList))
  }

  lemma AnsweredAreCovered(stmt: SelectStmt, e: Expr)
    requires e in AnsweredExprs(stmt)
    ensures Covered(e, SlotsOf(stmt))
  {
    CollectionCovers([], AggregateSources(stmt));
    var items, keys := ItemExpressions(stmt.selectList), KeySources(stmt);
    if e in keys {
      var i :| 0 <= i < |keys| && keys[i] == e;
      var key := OrderBy(stmt)[i].expr;
      assert SortExpressions(OrderBy(stmt))[i] == key;
      assert e == key || e == items[AliasedItem(stmt.selectList, key.column)];
      assert e in AggregateSources(stmt);
    }
  }

  /** The rows of the group behind output row i. */
  ghost function GroupRowsOf(pow: Pow, stmt: SelectStmt, schema: Schema, rows: seq<Row>, i: nat): seq<Row>
    requires AllCalls(SlotsOf(stmt))
  {
    GroupOf(pow, GroupKeys(stmt), SlotAggs(SlotsOf(stmt)), schema, rows, i)
  }

  /** On row i of the aggregate output, every rewritten expression has the value of the original on group i. */
  lemma RewrittenExpressionMeans(pow: Pow, stmt: SelectStmt, e: Expr, schema: Schema, rows: seq<Row>, out: seq<Row>, i: nat)
    requires Grouped(stmt) && e in AnsweredExprs(stmt) && i < |out|
    requires AggregateRows(pow, GroupKeys(stmt), SlotAggs(SlotsOf(stmt)), schema, rows) == Ok(out)
    ensures Evaluate(pow, CloneSubstAggs(e, SlotsOf(stmt)), AggregateSchema(KeyNames(GroupKeys(stmt)), SlotAggs(SlotsOf(stmt))), out[i])
         == In_(pow, GroupWorld(pow, schema, GroupRowsOf(pow, stmt, schema, rows, i)), e)
  {
    AnsweredAreCovered(stmt, e);
    assert KeysAndCalls(e, GroupKeys(stmt));
    RewritePreservesMeaning(pow, e, GroupKeys(stmt), KeyNames(GroupKeys(stmt)), SlotsOf(stmt), schema, rows, out, i);
  }

  /** On output row i each rewritten ORDER BY key has the value of the original key, aliases resolved, on group i. */
  lemma SortKeysMean(pow: Pow, stmt: SelectStmt, schema: Schema, rows: seq<Row>, out: seq<Row>, i: nat, j: nat)
    requires Grouped(stmt) && i < |out| && j < |OrderBy(stmt)|
    requires AggregateRows(pow, GroupKeys(stmt), SlotAggs(SlotsOf(stmt)), schema, rows) == Ok(out)
    ensures Evaluate(pow, RewrittenKeys(OrderBy(stmt), stmt.selectList, SlotsOf(stmt))[j].expr,
                     AggregateSchema(KeyNames(GroupKeys(stmt)), SlotAggs(SlotsOf(stmt))), out[i])
         == In_(pow, GroupWorld(pow, schema, GroupRowsOf(pow, stmt, schema, rows, i)), KeySources(stmt)[j])
  {
    assert KeySources(stmt)[j] in AnsweredExprs(stmt);
    RewrittenExpressionMeans(pow, stmt, KeySources(stmt)[j], schema, rows, out, i);
  }

  // ---- The answer, group by group ----

  /** Like evaluating a list of expressions on a row, with aggregate calls computed over a group. */
  function AllIn(pow: Pow, w: World, es: seq<Expr>): Result<Row> {
    if es == [] then Ok([])
    else
      var v :- In_(pow, w, es[0]);
      var rest :- AllIn(pow, w, es[1..]);
      Ok([v] + rest)
  }

  function Accepted(pow: Pow, having: Option<Expr>, w: World): Result<bool> {
    if having.None? then Ok(true)
    else
      var v :- In_(pow, w, having.value);
      Ok(Accepts(v))
  }

  /** Groups in order, up to the first evaluation error if `mayFail`. */
  datatype GroupStream = GroupStream(ws: seq<World>, mayFail: bool)

  /** The groups that HAVING accepts. */
  function Kept(pow: Pow, having: Option<Expr>, ws: seq<World>): GroupStream {
    if ws == [] then GroupStream([], false)
    else match Accepted(pow, having, ws[0])
      case Err => GroupStream([], true)
      case Ok(keep) =>
        var rest := Kept(pow, having, ws[1..]);
        GroupStream(if keep then [ws[0]] + rest.ws else rest.ws, rest.mayFail)
  }

  /** The comparator of ORDER BY on groups: the keys are the expressions es, a later one read only on a tie. */
  function CompareGroups(pow: Pow, keys: seq<SortKey>, es: seq<Expr>, a: World, b: World): Result<bool>
    requires |es| == |keys|
  {
    if keys == [] then Ok(false)
    else
      var va :- In_(pow, a, es[0]);
      var vb :- In_(pow, b, es[0]);
      if va == vb then CompareGroups(pow, keys[1..], es[1..], a, b)
      else if !Comparable(va, vb) then Err
      else Ok(HeadLess(keys[0], va, vb))
  }

  ghost predicate GroupsCompare(pow: Pow, keys: seq<SortKey>, es: seq<Expr>, ws: seq<World>)
    requires |es| == |keys|
  {
    forall i, j :: 0 <= i < j < |ws| ==> CompareGroups(pow, keys, es, ws[i], ws[j]).Ok?
  }

  function GroupKey(pow: Pow, es: seq<Expr>, w: World): (r: seq<Value>)
    ensures |r| == |es|
  {
    seq(|es|, i requires 0 <= i < |es| => ValueOr(In_(pow, w, es[i])))
  }

  function GroupKeysOf(pow: Pow, es: seq<Expr>, ws: seq<World>): (r: seq<seq<Value>>)
    ensures |r| == |ws| && forall v :: v in r ==> |v| == |es|
  {
    seq(|ws|, i requires 0 <= i < |ws| => GroupKey(pow, es, ws[i]))
  }

  /** Key vectors with their numbers. */
  function Numbered(vs: seq<seq<Value>>): (r: seq<Keyed>)
    ensures |r| == |vs| && forall i :: 0 <= i < |r| ==> r[i] == Keyed(vs[i], [Int(W64, i)])
  {
    seq(|vs|, i requires 0 <= i < |vs| => Keyed(vs[i], [Int(W64, i)]))
  }

  /** The numbers of key vectors in the stable order of the vectors. */
  function Order(keys: seq<SortKey>, vs: seq<seq<Value>>): (r: seq<nat>)
    requires forall v :: v in vs ==> |v| == |keys|
    ensures |r| == |vs| && forall j :: 0 <= j < |r| ==> r[j] < |vs|
  {
    var sorted := StableSort(keys, Numbered(vs));
    assert forall j :: 0 <= j < |sorted| ==> sorted[j] in Numbered(vs);
    seq(|vs|, j requires 0 <= j < |vs| => sorted[j].row[0].i)
  }

  ghost function SortGroups(pow: Pow, keys: seq<SortKey>, es: seq<Expr>, s: GroupStream): GroupStream
    requires |es| == |keys|
  {
    if GroupsCompare(pow, keys, es, s.ws) then
      var order := Order(keys, GroupKeysOf(pow, es, s.ws));
      GroupStream(seq(|order|, j requires 0 <= j < |order| => s.ws[order[j]]), s.mayFail)
    else GroupStream([], true)
  }

  /** The rows of item values. */
  function ShownRows(pow: Pow, items: seq<Expr>, ws: seq<World>): Stream {
    if ws == [] then Stream([], false)
    else match AllIn(pow, ws[0], items)
      case Err => Stream([], true)
      case Ok(row) =>
        var rest := ShownRows(pow, items, ws[1..]);
        Stream([row] + rest.rows, rest.mayFail)
  }

  /** The groups that HAVING accepts, sorted by the ORDER BY keys, each as the row of its item values. */
  ghost function GroupedAnswer(pow: Pow, stmt: SelectStmt, s: GroupStream): Stream {
    var kept := Kept(pow, stmt.having, s.ws);
    var all := GroupStream(kept.ws, kept.mayFail || s.mayFail);
    var sorted := if stmt.orderBy.Some? then SortGroups(pow, OrderBy(stmt), KeySources(stmt), all) else all;
    var shown := ShownRows(pow, ItemExpressions(stmt.selectList), sorted.ws);
    Stream(shown.rows, shown.mayFail || sorted.mayFail)
  }

  /** DISTINCT, then OFFSET and LIMIT. */
  function Trimmed(distinct: bool, bounds: Option<(int, int)>, s: Stream): Stream {
    var rows := if distinct then DistinctRows(s.rows) else s.rows;
    Stream(if bounds.Some? then LimitRows(bounds.value.0, bounds.value.1, rows) else rows, s.mayFail)
  }

  // ---- Rows that mirror groups ----

  /** On the row every rewritten expression has the value of the original on the group. */
  ghost predicate RowMirrors(pow: Pow, es: seq<Expr>, slots: seq<Expr>, schema: Schema, row: Row, w: World) {
    forall e :: e in es ==> Evaluate(pow, CloneSubstAggs(e, slots), schema, row) == In_(pow, w, e)
  }

  ghost predicate Mirrors(pow: Pow, es: seq<Expr>, slots: seq<Expr>, schema: Schema, rows: seq<Row>, ws: seq<World>) {
    |rows| == |ws| && forall i :: 0 <= i < |rows| ==> RowMirrors(pow, es, slots, schema, rows[i], ws[i])
  }

  function CloneAll(items: seq<Expr>, slots: seq<Expr>): (r: seq<Expr>)
    ensures |r| == |items|
  {
    seq(|items|, i requires 0 <= i < |items| => CloneSubstAggs(items[i], slots))
  }

  lemma {:induction false} AllShown(pow: Pow, es: seq<Expr>, items: seq<Expr>, slots: seq<Expr>, schema: Schema, row: Row, w: World)
    requires RowMirrors(pow, es, slots, schema, row, w) && forall e :: e in items ==> e in es
    ensures EvaluateAll(pow, CloneAll(items, slots), schema, row) == AllIn(pow, w, items)
    decreases |items|
  {
    if items != [] {
      assert items[0] in items;
      AllShown(pow, es, items[1..], slots, schema, row, w);
      assert CloneAll(items, slots)[1..] == CloneAll(items[1..], slots);
    }
  }

  lemma {:induction false} ShownMirrors(pow: Pow, es: seq<Expr>, items: seq<Expr>, slots: seq<Expr>, schema: Schema, rows: seq<Row>, ws: seq<World>)
    requires Mirrors(pow, es, slots, schema, rows, ws) && forall e :: e in items ==> e in es
    ensures StepRows(pow, Compute(CloneAll(items, slots)), schema, rows) == ShownRows(pow, items, ws)
    decreases |rows|
  {
    if rows != [] {
      AllShown(pow, es, items, slots, schema, rows[0], ws[0]);
      ShownMirrors(pow, es, items, slots, schema, rows[1..], ws[1..]);
    }
  }

  function FilteredRows(pow: Pow, condition: Option<Expr>, schema: Schema, s: Stream): Stream {
    if condition.Some? then StepStream(pow, KeepIf(condition.value), schema, s) else s
  }

  function RewrittenCondition(having: Option<Expr>, slots: seq<Expr>): Option<Expr> {
    if having.Some? then Some(CloneSubstAggs(having.value, slots)) else None
  }

  lemma {:induction false} AllKept(pow: Pow, ws: seq<World>)
    ensures Kept(pow, None, ws) == GroupStream(ws, false)
    decreases |ws|
  {
    if ws != [] {
      AllKept(pow, ws[1..]);
      SplitFirst(ws);
    }
  }

  lemma HeadAccepted(pow: Pow, es: seq<Expr>, having: Expr, slots: seq<Expr>, schema: Schema, row: Row, w: World)
    requires RowMirrors(pow, es, slots, schema, row, w) && having in es
    ensures EvaluatePredicate(pow, CloneSubstAggs(having, slots), schema, row) == Accepted(pow, Some(having), w)
  {
  }

  lemma KeptStep(pow: Pow, cond: Expr, schema: Schema, rows: seq<Row>)
    requires rows != []
    ensures var rest := StepRows(pow, KeepIf(cond), schema, rows[1..]);
            StepRows(pow, KeepIf(cond), schema, rows) ==
            match EvaluatePredicate(pow, cond, schema, rows[0])
            case Err => Stream([], true)
            case Ok(keep) => Stream(if keep then [rows[0]] + rest.rows else rest.rows, rest.mayFail)
  {
    AddNothing(StepRows(pow, KeepIf(cond), schema, rows[1..]).rows);
  }

  lemma MirrorsCons(pow: Pow, es: seq<Expr>, slots: seq<Expr>, schema: Schema, row: Row, w: World, rows: seq<Row>, ws: seq<World>)
    requires RowMirrors(pow, es, slots, schema, row, w) && Mirrors(pow, es, slots, schema, rows, ws)
    ensures Mirrors(pow, es, slots, schema, [row] + rows, [w] + ws)
  {
  }

  lemma {:induction false} HavingMirrors(pow: Pow, es: seq<Expr>, having: Expr, slots: seq<Expr>, schema: Schema, rows: seq<Row>, ws: seq<World>)
    requires Mirrors(pow, es, slots, schema, rows, ws) && having in es
    ensures var h, k := StepRows(pow, KeepIf(CloneSubstAggs(having, slots)), schema, rows), Kept(pow, Some(having), ws);
            h.mayFail == k.mayFail && Mirrors(pow, es, slots, schema, h.rows, k.ws)
    decreases |rows|
  {
    if rows != [] {
      var cond := CloneSubstAggs(having, slots);
      var h, k := StepRows(pow, KeepIf(cond), schema, rows[1..]), Kept(pow, Some(having), ws[1..]);
      HavingMirrors(pow, es, having, slots, schema, rows[1..], ws[1..]);
      HeadAccepted(pow, es, having, slots, schema, rows[0], ws[0]);
      KeptStep(pow, cond, schema, rows);
      MirrorsCons(pow, es, slots, schema, rows[0], ws[0], h.rows, k.ws);
    }
  }

  lemma KeptMirrors(pow: Pow, es: seq<Expr>, having: Option<Expr>, slots: seq<Expr>, schema: Schema, rows: seq<Row>, s: GroupStream)
    requires Mirrors(pow, es, slots, schema, rows, s.ws) && (having.Some? ==> having.value in es)
    ensures var h, k := FilteredRows(pow, RewrittenCondition(having, slots), schema, Stream(rows, s.mayFail)), Kept(pow, having, s.ws);
            h.mayFail == (k.mayFail || s.mayFail) && Mirrors(pow, es, slots, schema, h.rows, k.ws)
  {
    if having.Some? {
      HavingMirrors(pow, es, having.value, slots, schema, rows, s.ws);
    } else {
      AllKept(pow, s.ws);
    }
  }

  // ---- ORDER BY ----

  /** The general keys are the rewritten expressions, with the directions of the original keys. */
  predicate KeysRewritten(keys: seq<SortKey>, general: seq<SortKey>, es: seq<Expr>, slots: seq<Expr>) {
    && |keys| == |general| == |es|
    && forall i :: 0 <= i < |keys| ==> general[i] == keys[i].(expr := CloneSubstAggs(es[i], slots))
  }

  lemma {:induction false} ComparesAlike(pow: Pow, all: seq<Expr>, keys: seq<SortKey>, general: seq<SortKey>, es: seq<Expr>, slots: seq<Expr>, schema: Schema, a: Row, b: Row, u: World, w: World)
    requires KeysRewritten(keys, general, es, slots) && (forall e :: e in es ==> e in all)
    requires RowMirrors(pow, all, slots, schema, a, u) && RowMirrors(pow, all, slots, schema, b, w)
    ensures CompareRows(pow, general, schema, a, b) == CompareGroups(pow, keys, es, u, w)
    decreases |keys|
  {
    if keys != [] {
      HeadMirrors(pow, all, es, slots, schema, a, u);
      HeadMirrors(pow, all, es, slots, schema, b, w);
      RestRewritten(keys, general, es, slots);
      RowsByHead(pow, general, schema, a, b);
      GroupsByHead(pow, keys, es, u, w);
      ComparesAlike(pow, all, keys[1..], general[1..], es[1..], slots, schema, a, b, u, w);
    }
  }

  /** One key of a comparison, and what the other keys say on a tie. */
  function ByHead(asc: bool, nulls: NullsOrder, x: Result<Value>, y: Result<Value>, rest: Result<bool>): Result<bool> {
    var va :- x;
    var vb :- y;
    if va == vb then rest else if !Comparable(va, vb) then Err else Ok(HeadLess(SortKey(Literal(Null), asc, nulls), va, vb))
  }

  lemma RowsByHead(pow: Pow, keys: seq<SortKey>, schema: Schema, a: Row, b: Row)
    requires keys != []
    ensures CompareRows(pow, keys, schema, a, b) == ByHead(keys[0].asc, keys[0].nulls, Evaluate(pow, keys[0].expr, schema, a),
                                                           Evaluate(pow, keys[0].expr, schema, b), CompareRows(pow, keys[1..], schema, a, b))
  {
  }

  lemma GroupsByHead(pow: Pow, keys: seq<SortKey>, es: seq<Expr>, a: World, b: World)
    requires |keys| == |es| > 0
    ensures CompareGroups(pow, keys, es, a, b)
         == ByHead(keys[0].asc, keys[0].nulls, In_(pow, a, es[0]), In_(pow, b, es[0]), CompareGroups(pow, keys[1..], es[1..], a, b))
  {
  }

  lemma HeadMirrors(pow: Pow, all: seq<Expr>, es: seq<Expr>, slots: seq<Expr>, schema: Schema, row: Row, w: World)
    requires es != [] && (forall e :: e in es ==> e in all) && RowMirrors(pow, all, slots, schema, row, w)
    ensures Evaluate(pow, CloneSubstAggs(es[0], slots), schema, row) == In_(pow, w, es[0])
  {
    assert es[0] in es;
  }

  lemma RestRewritten(keys: seq<SortKey>, general: seq<SortKey>, es: seq<Expr>, slots: seq<Expr>)
    requires KeysRewritten(keys, general, es, slots) && keys != []
    ensures KeysRewritten(keys[1..], general[1..], es[1..], slots)
    ensures general[0] == keys[0].(expr := CloneSubstAggs(es[0], slots))
  {
  }

  lemma KeyMirrors(pow: Pow, all: seq<Expr>, keys: seq<SortKey>, general: seq<SortKey>, es: seq<Expr>, slots: seq<Expr>, schema: Schema, row: Row, w: World)
    requires KeysRewritten(keys, general, es, slots) && (forall e :: e in es ==> e in all) && RowMirrors(pow, all, slots, schema, row, w)
    ensures KeyVector(pow, general, schema, row) == GroupKey(pow, es, w)
  {
    forall i | 0 <= i < |es| ensures KeyVector(pow, general, schema, row)[i] == GroupKey(pow, es, w)[i] {
      assert es[i] in es;
    }
  }

  lemma {:induction false} LessIgnoresExpressions(keys: seq<SortKey>, general: seq<SortKey>, a: seq<Value>, b: seq<Value>)
    requires |a| == |b| == |keys| == |general|
    requires forall i :: 0 <= i < |keys| ==> keys[i].asc == general[i].asc && keys[i].nulls == general[i].nulls
    ensures KeysLess(keys, a, b) == KeysLess(general, a, b)
    decreases |keys|
  {
    if keys != [] {
      LessIgnoresExpressions(keys[1..], general[1..], a[1..], b[1..]);
    }
  }

  /** b has the n keys of a, and the number of its row. */
  predicate NumberOf(rows: seq<Row>, n: nat, a: Keyed, b: Keyed) {
    |a.keys| == n && a.keys == b.keys && |b.row| == 1 && b.row[0].Int? && 0 <= b.row[0].i < |rows| && a.row == rows[b.row[0].i]
  }

  /** Decorated rows are sorted in the order of their keys. */
  lemma SortedInOrder(keys: seq<SortKey>, general: seq<SortKey>, xs: seq<Keyed>, vs: seq<seq<Value>>, rows: seq<Row>)
    requires |keys| == |general| && (forall i :: 0 <= i < |keys| ==> keys[i].asc == general[i].asc && keys[i].nulls == general[i].nulls)
    requires |xs| == |vs| == |rows| && (forall v :: v in vs ==> |v| == |keys|)
    requires Aligned(general, xs) && forall i :: 0 <= i < |xs| ==> xs[i] == Keyed(vs[i], rows[i])
    ensures Undecorate(StableSort(general, xs)) == seq(|vs|, j requires 0 <= j < |vs| => rows[Order(keys, vs)[j]])
  {
    var rel := (a: Keyed, b: Keyed) => NumberOf(rows, |keys|, a, b);
    forall a, a', b, b' | rel(a, a') && rel(b, b') ensures LessPair(general, keys, a, a', b, b') {
      LessIgnoresExpressions(keys, general, a.keys, b.keys);
    }
    SortsAlike(general, xs, keys, Numbered(vs), rel);
    var sorted, numbers := StableSort(general, xs), StableSort(keys, Numbered(vs));
    forall j | 0 <= j < |vs| ensures sorted[j].row == rows[Order(keys, vs)[j]] {
      assert rel(sorted[j], numbers[j]);
    }
  }

  lemma SortMirrors(pow: Pow, all: seq<Expr>, keys: seq<SortKey>, general: seq<SortKey>, es: seq<Expr>, slots: seq<Expr>, schema: Schema, rows: seq<Row>, s: GroupStream)
    requires KeysRewritten(keys, general, es, slots) && (forall e :: e in es ==> e in all)
    requires Mirrors(pow, all, slots, schema, rows, s.ws)
    ensures var r, g := FromResult(SortRows(pow, general, schema, rows), s.mayFail), SortGroups(pow, keys, es, s);
            r.mayFail == g.mayFail && Mirrors(pow, all, slots, schema, r.rows, g.ws)
  {
    var ws := s.ws;
    forall i, j | 0 <= i < j < |rows| ensures CompareRows(pow, general, schema, rows[i], rows[j]) == CompareGroups(pow, keys, es, ws[i], ws[j]) {
      ComparesAlike(pow, all, keys, general, es, slots, schema, rows[i], rows[j], ws[i], ws[j]);
    }
    assert NoThrow(pow, general, schema, rows) <==> GroupsCompare(pow, keys, es, ws);
    if NoThrow(pow, general, schema, rows) {
      var vs := GroupKeysOf(pow, es, ws);
      forall i | 0 <= i < |rows| ensures KeyVector(pow, general, schema, rows[i]) == vs[i] {
        KeyMirrors(pow, all, keys, general, es, slots, schema, rows[i], ws[i]);
      }
      SortedInOrder(keys, general, Decorate(pow, general, schema, rows), vs, rows);
    }
  }

  // ---- The theorem ----

  ghost function Worlds(pow: Pow, stmt: SelectStmt, schema: Schema, rows: seq<Row>, n: nat): (ws: seq<World>)
    requires AllCalls(SlotsOf(stmt))
    ensures |ws| == n
  {
    seq(n, i requires 0 <= i < n => GroupWorld(pow, schema, GroupRowsOf(pow, stmt, schema, rows, i)))
  }

  /** The groups of an input, in order of first appearance; none if a key, an argument or an aggregate fails. */
  ghost function GroupsOfInput(pow: Pow, stmt: SelectStmt, schema: Schema, input: Stream): GroupStream
    requires AllCalls(SlotsOf(stmt))
  {
    match AggregateRows(pow, GroupKeys(stmt), SlotAggs(SlotsOf(stmt)), schema, input.rows)
    case Err => GroupStream([], true)
    case Ok(out) => GroupStream(Worlds(pow, stmt, schema, input.rows, |out|), input.mayFail)
  }

  /**
   What the plan of a grouped query answers, errors included: the groups of the input that HAVING accepts, in the
   order of the ORDER BY keys read over each group, each shown as the row of its item values over the group.
   */
  lemma AggregateQueryMeaning(pow: Pow, stmt: SelectStmt, input: Plan)
    requires Grouped(stmt) && PlanOk(input)
    ensures PlanOk(OverAggregate(stmt, AggregatePlan(stmt, input)))
    ensures StreamOf(pow, OverAggregate(stmt, AggregatePlan(stmt, input)))
         == GroupedAnswer(pow, stmt, GroupsOfInput(pow, stmt, PlanSchema(input), StreamOf(pow, input)))
  {
    var schema, s := PlanSchema(input), StreamOf(pow, input);
    var groups := GroupsOfInput(pow, stmt, schema, s);
    var out := OutputMirrors(pow, stmt, schema, s);
    AnswerMirrors(pow, stmt, out.rows, groups);
    StreamOverAggregate(pow, stmt, input, out);
  }

  lemma OutputMirrors(pow: Pow, stmt: SelectStmt, schema: Schema, s: Stream) returns (out: Stream)
    requires Grouped(stmt)
    ensures out == FromResult(AggregateRows(pow, GroupKeys(stmt), SlotAggs(SlotsOf(stmt)), schema, s.rows), s.mayFail)
    ensures var g := GroupsOfInput(pow, stmt, schema, s);
            out.mayFail == g.mayFail && Mirrors(pow, AnsweredExprs(stmt), SlotsOf(stmt), OutputSchema(stmt), out.rows, g.ws)
  {
    out := FromResult(AggregateRows(pow, GroupKeys(stmt), SlotAggs(SlotsOf(stmt)), schema, s.rows), s.mayFail);
    if AggregateRows(pow, GroupKeys(stmt), SlotAggs(SlotsOf(stmt)), schema, s.rows).Ok? {
      forall i, e | 0 <= i < |out.rows| && e in AnsweredExprs(stmt)
        ensures Evaluate(pow, CloneSubstAggs(e, SlotsOf(stmt)), OutputSchema(stmt), out.rows[i])
             == In_(pow, GroupWorld(pow, schema, GroupRowsOf(pow, stmt, schema, s.rows, i)), e)
      {
        RewrittenExpressionMeans(pow, stmt, e, schema, s.rows, out.rows, i);
      }
    }
  }

  function OutputSchema(stmt: SelectStmt): Schema
    requires AllCalls(SlotsOf(stmt))
  {
    AggregateSchema(KeyNames(GroupKeys(stmt)), SlotAggs(SlotsOf(stmt)))
  }

  function SortedRows(pow: Pow, keys: Option<seq<SortKey>>, schema: Schema, s: Stream): Stream {
    if keys.Some? then FromResult(SortRows(pow, keys.value, schema, s.rows), s.mayFail) else s
  }

  /** A filter, a sort and a projection over some rows. */
  function OverRows(pow: Pow, condition: Option<Expr>, keys: Option<seq<SortKey>>, es: seq<Expr>, schema: Schema, out: Stream): Stream {
    StepStream(pow, Compute(es), schema, SortedRows(pow, keys, schema, FilteredRows(pow, condition, schema, out)))
  }

  function SortOver(p: Plan, keys: Option<seq<SortKey>>): Plan {
    if keys.Some? then Sort(p, keys.value) else p
  }

  lemma FilteredPlan(pow: Pow, p: Plan, condition: Option<Expr>)
    requires PlanOk(p)
    ensures var f := FilterBy(p, condition);
            PlanOk(f) && PlanSchema(f) == PlanSchema(p) && StreamOf(pow, f) == FilteredRows(pow, condition, PlanSchema(p), StreamOf(pow, p))
  {
  }

  lemma SortedPlanOver(pow: Pow, p: Plan, keys: Option<seq<SortKey>>)
    requires PlanOk(p)
    ensures var f := SortOver(p, keys);
            PlanOk(f) && PlanSchema(f) == PlanSchema(p) && StreamOf(pow, f) == SortedRows(pow, keys, PlanSchema(p), StreamOf(pow, p))
  {
  }

  lemma StreamOverRows(pow: Pow, agg: Plan, condition: Option<Expr>, keys: Option<seq<SortKey>>, items: seq<ProjectItem>)
    requires PlanOk(agg)
    ensures var p := Project(SortOver(FilterBy(agg, condition), keys), items);
            PlanOk(p) && StreamOf(pow, p) == OverRows(pow, condition, keys, ItemExprs(items), PlanSchema(agg), StreamOf(pow, agg))
  {
    FilteredPlan(pow, agg, condition);
    SortedPlanOver(pow, FilterBy(agg, condition), keys);
  }

  function RewrittenOrder(stmt: SelectStmt): Option<seq<SortKey>> {
    if stmt.orderBy.Some? then Some(RewrittenKeys(OrderBy(stmt), stmt.selectList, SlotsOf(stmt))) else None
  }

  /** HAVING, ORDER BY and the projection over an aggregate output. */
  function OverOutput(pow: Pow, stmt: SelectStmt, out: Stream): Stream
    requires AllCalls(SlotsOf(stmt))
  {
    OverRows(pow, RewrittenCondition(stmt.having, SlotsOf(stmt)), RewrittenOrder(stmt), CloneAll(ItemExpressions(stmt.selectList), SlotsOf(stmt)), OutputSchema(stmt), out)
  }

  lemma AnswerMirrors(pow: Pow, stmt: SelectStmt, rows: seq<Row>, g: GroupStream)
    requires AllCalls(SlotsOf(stmt)) && Mirrors(pow, AnsweredExprs(stmt), SlotsOf(stmt), OutputSchema(stmt), rows, g.ws)
    ensures OverOutput(pow, stmt, Stream(rows, g.mayFail)) == GroupedAnswer(pow, stmt, g)
  {
    var slots, schema, es := SlotsOf(stmt), OutputSchema(stmt), AnsweredExprs(stmt);
    KeptMirrors(pow, es, stmt.having, slots, schema, rows, g);
    var kept := FilteredRows(pow, RewrittenCondition(stmt.having, slots), schema, Stream(rows, g.mayFail));
    var all := GroupStream(Kept(pow, stmt.having, g.ws).ws, kept.mayFail);
    var general := RewrittenKeys(OrderBy(stmt), stmt.selectList, slots);
    if stmt.orderBy.Some? {
      SortMirrors(pow, es, OrderBy(stmt), general, KeySources(stmt), slots, schema, kept.rows, all);
      var sorted := FromResult(SortRows(pow, general, schema, kept.rows), all.mayFail);
      ShownMirrors(pow, es, ItemExpressions(stmt.selectList), slots, schema, sorted.rows, SortGroups(pow, OrderBy(stmt), KeySources(stmt), all).ws);
    } else {
      ShownMirrors(pow, es, ItemExpressions(stmt.selectList), slots, schema, kept.rows, all.ws);
    }
  }

  lemma StreamOverAggregate(pow: Pow, stmt: SelectStmt, input: Plan, out: Stream)
    requires AllCalls(SlotsOf(stmt)) && PlanOk(input) && BlockingStream(pow, AggregatePlan(stmt, input), StreamOf(pow, input)) == out
    ensures PlanOk(OverAggregate(stmt, AggregatePlan(stmt, input)))
    ensures StreamOf(pow, OverAggregate(stmt, AggregatePlan(stmt, input))) == OverOutput(pow, stmt, out)
  {
    var agg := AggregatePlan(stmt, input);
    var items := RewrittenItems(stmt.selectList, SlotsOf(stmt), PlanSchema(agg));
    assert ItemExprs(items) == CloneAll(ItemExpressions(stmt.selectList), SlotsOf(stmt));
    OverAggregateIs(stmt, agg);
    StreamOverRows(pow, agg, RewrittenCondition(stmt.having, SlotsOf(stmt)), RewrittenOrder(stmt), items);
  }

  lemma OverAggregateIs(stmt: SelectStmt, agg: Plan)
    ensures OverAggregate(stmt, agg) == Project(SortOver(FilterBy(agg, RewrittenCondition(stmt.having, SlotsOf(stmt))), RewrittenOrder(stmt)),
                                                RewrittenItems(stmt.selectList, SlotsOf(stmt), PlanSchema(agg)))
  {
  }

  /** The whole query with its DISTINCT, OFFSET and LIMIT. */
  lemma WholeQueryMeaning(pow: Pow, stmt: SelectStmt, input: Plan, p: Plan)
    requires Grouped(stmt) && PlanOk(input)
    requires ApplyLimit(pow, ApplyDistinct(OverAggregate(stmt, AggregatePlan(stmt, input)), stmt.distinct), stmt) == Ok(p)
    ensures PlanOk(p)
    ensures StreamOf(pow, p) == Trimmed(stmt.distinct, BoundsOf(pow, stmt), GroupedAnswer(pow, stmt, GroupsOfInput(pow, stmt, PlanSchema(input), StreamOf(pow, input))))
  {
    AggregateQueryMeaning(pow, stmt, input);
    var body := OverAggregate(stmt, AggregatePlan(stmt, input));
    TrimmedStream(pow, stmt, body, p);
  }

  /** The values of LIMIT and OFFSET, if the query has them. */
  function BoundsOf(pow: Pow, stmt: SelectStmt): Option<(int, int)> {
    if stmt.limit.None? then None
    else
      var limit, offset := LimitValue(pow, stmt.limit.value.limit, -1), LimitValue(pow, stmt.limit.value.offset, 0);
      if limit.Ok? && offset.Ok? then Some((limit.value, offset.value)) else None
  }

  lemma TrimmedStream(pow: Pow, stmt: SelectStmt, body: Plan, p: Plan)
    requires PlanOk(body) && ApplyLimit(pow, ApplyDistinct(body, stmt.distinct), stmt) == Ok(p)
    ensures PlanOk(p) && StreamOf(pow, p) == Trimmed(stmt.distinct, BoundsOf(pow, stmt), StreamOf(pow, body))
  {
    var d := ApplyDistinct(body, stmt.distinct);
    assert PlanOk(d);
    assert StreamOf(pow, d) == Stream(if stmt.distinct then DistinctRows(StreamOf(pow, body).rows) else StreamOf(pow, body).rows, StreamOf(pow, body).mayFail);
  }
}
