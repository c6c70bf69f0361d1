/** CREATE, DROP, INSERT, UPDATE and DELETE: what each does to the catalog, and what a run of them keeps. */
module Statements {
  import opened Results
  import opened Seqs
  import opened Types
  import opened Ast
  import opened Eval
  import opened Tables
  import opened Inserts
  import opened Aggregation
  import opened Joins
  import opened Plans
  import opened Rewrite
  import opened Planner
  import opened FastAggregate
  import opened FastPath
  import opened Widths

  datatype ColumnSpec = ColumnSpec(name: string, ty: DataType, notNull: bool)

  datatype Assignment = Assignment(column: string, value: Expr)

  datatype InsertSource = FromSelect(query: SelectStmt) | FromValues(rows: seq<seq<Expr>>)

  datatype Statement =
    | CreateTable(name: string, columns: seq<ColumnSpec>)
    | DropTable(name: string, ifExists: bool)
    | InsertInto(name: string, into: seq<string>, source: InsertSource)
    | Update(name: string, assignments: seq<Assignment>, where: Option<Expr>)
    | DeleteFrom(name: string, where: Option<Expr>)

  /** The number of affected rows, or an error; and the tables afterwards. */
  datatype Outcome = Outcome(result: Result<nat>, cat: Catalog)

  /** Every table is rectangular and registered under its own name. */
  ghost predicate DatabaseOk(cat: Catalog) {
    forall name :: name in cat ==> TableOk(cat[name]) && cat[name].name == name
  }

  // ---- The rows a WHERE clause selects ----

  function Selects(pow: Pow, where: Option<Expr>, schema: Schema, row: Row): Result<bool> {
    if where.None? then Ok(true) else EvaluatePredicate(pow, where.value, schema, row)
  }

  /** The selected rows and the others; an error if the clause fails on a row. */
  function Split(pow: Pow, where: Option<Expr>, schema: Schema, rows: seq<Row>): (r: Result<(seq<Row>, seq<Row>)>)
    ensures r.Ok? <==> forall i :: 0 <= i < |rows| ==> Selects(pow, where, schema, rows[i]).Ok?
  {
    if rows == [] then Ok(([], []))
    else
      var n := |rows| - 1;
      var before :- Split(pow, where, schema, rows[..n]);
      var selected :- Selects(pow, where, schema, rows[n]);
      Ok(if selected then (before.0 + [rows[n]], before.1) else (before.0, before.1 + [rows[n]]))
  }

  /** The rows are those of a and those of b, each in order. */
  ghost predicate Interleaves(rows: seq<Row>, a: seq<Row>, b: seq<Row>)
    decreases |rows|
  {
    if rows == [] then a == [] && b == []
    else
      var n := |rows| - 1;
      || (a != [] && a[|a| - 1] == rows[n] && Interleaves(rows[..n], a[..|a| - 1], b))
      || (b != [] && b[|b| - 1] == rows[n] && Interleaves(rows[..n], a, b[..|b| - 1]))
  }

  lemma {:induction false} SplitInOrder(pow: Pow, where: Option<Expr>, schema: Schema, rows: seq<Row>)
    requires Split(pow, where, schema, rows).Ok?
    ensures var s := Split(pow, where, schema, rows).value; Interleaves(rows, s.0, s.1) && |s.0| + |s.1| == |rows|
    decreases |rows|
  {
    if rows != [] {
      var n := |rows| - 1;
      SplitInOrder(pow, where, schema, rows[..n]);
      var before := Split(pow, where, schema, rows[..n]).value;
      if Selects(pow, where, schema, rows[n]).value {
        DropLast(before.0, rows[n]);
      } else {
        DropLast(before.1, rows[n]);
      }
    }
  }

  lemma {:induction false} SplitMembers(pow: Pow, where: Option<Expr>, schema: Schema, rows: seq<Row>)
    requires Split(pow, where, schema, rows).Ok?
    ensures var s := Split(pow, where, schema, rows).value;
            && (forall row :: row in s.0 ==> row in rows && Selects(pow, where, schema, row) == Ok(true))
            && (forall row :: row in s.1 ==> row in rows && Selects(pow, where, schema, row) == Ok(false))
    decreases |rows|
  {
    if rows != [] {
      SplitMembers(pow, where, schema, rows[..|rows| - 1]);
    }
  }

  /** The two parts make up the rows, in order; one holds the selected rows, the other the rest. */
  lemma SplitInterleaves(pow: Pow, where: Option<Expr>, schema: Schema, rows: seq<Row>)
    requires Split(pow, where, schema, rows).Ok?
    ensures var s := Split(pow, where, schema, rows).value;
            && Interleaves(rows, s.0, s.1) && |s.0| + |s.1| == |rows|
            && (forall row :: row in s.0 ==> row in rows && Selects(pow, where, schema, row) == Ok(true))
            && (forall row :: row in s.1 ==> row in rows && Selects(pow, where, schema, row) == Ok(false))
  {
    SplitInOrder(pow, where, schema, rows);
    SplitMembers(pow, where, schema, rows);
  }

  /** What DELETE removes and UPDATE changes is what SELECT with the same WHERE clause returns. */
  lemma {:induction false} SelectedAsQueried(pow: Pow, condition: Expr, schema: Schema, rows: seq<Row>)
    requires Split(pow, Some(condition), schema, rows).Ok?
    ensures StepRows(pow, KeepIf(condition), schema, rows) == Stream(Split(pow, Some(condition), schema, rows).value.0, false)
    decreases |rows|
  {
    if rows != [] {
      var n := |rows| - 1;
      assert Selects(pow, Some(condition), schema, rows[n]) == EvaluatePredicate(pow, condition, schema, rows[n]);
      SelectedAsQueried(pow, condition, schema, rows[..n]);
      StepRowsConcat(pow, KeepIf(condition), schema, rows[..n], [rows[n]]);
      assert rows[..n] + [rows[n]] == rows;
      assert StepRows(pow, KeepIf(condition), schema, []) == Stream([], false);
      assert [rows[n]][1..] == [];
    }
  }

  // ---- Building a new table ----

  function AllOk(rows: seq<Row>): (r: seq<Result<Row>>)
    ensures |r| == |rows| && forall i :: 0 <= i < |rows| ==> r[i] == Ok(rows[i])
  {
    seq(|rows|, i requires 0 <= i < |rows| => Ok(rows[i]))
  }

  /** rebuiltTable and registerTable: the catalog changes only when every row went into the new table. */
  function Replace(cat: Catalog, name: string, schema: Schema, rows: seq<Row>, affected: nat): Outcome
    requires AllOfLength(rows, |schema|)
  {
    var rebuilt := InsertPrepared(NewTable(name, schema), AllOk(rows));
    if rebuilt.0 < |rows| then Outcome(Err, cat) else Outcome(Ok(affected), cat[name := rebuilt.1])
  }

  predicate AllStorable(schema: Schema, rows: seq<Row>) {
    forall i :: 0 <= i < |rows| ==> Accepted(schema, Ok(rows[i]))
  }

  lemma ReplacedTable(cat: Catalog, name: string, schema: Schema, rows: seq<Row>, affected: nat)
    requires DatabaseOk(cat) && AllOfLength(rows, |schema|)
    ensures var out := Replace(cat, name, schema, rows, affected);
            if AllStorable(schema, rows) then
              && out.result == Ok(affected) && name in out.cat && out.cat == cat[name := out.cat[name]]
              && TableOk(out.cat[name]) && out.cat[name].name == name && out.cat[name].schema == schema
              && (schema != [] ==> TableRows(out.cat[name]) == StoredRows(schema, AllOk(rows)))
            else out == Outcome(Err, cat)
    ensures DatabaseOk(Replace(cat, name, schema, rows, affected).cat)
  {
    var xs := AllOk(rows);
    var t := NewTable(name, schema);
    StaysRectangularIff(t, xs);
    var n := FirstRejected(schema, xs);
    if n == |xs| {
      assert xs[..n] == xs;
      if schema != [] {
        PreparedRowsGoIn(t, xs);
        assert [] + StoredRows(schema, xs) == StoredRows(schema, xs);
      }
    }
  }

  /** The rows of a table are stored again as they are. */
  lemma RowsAreStorable(t: TableData, r: nat)
    requires TableOk(t) && r < RowCount(t)
    ensures CoerceRow(t.schema, RowAt(t, r)) == Ok(RowAt(t, r))
  {
    forall c | 0 <= c < |t.cols| ensures Coerce(t.schema[c].ty, RowAt(t, r)[c]) == Ok(RowAt(t, r)[c]) {
      ValuesAreCoerced(t.cols[c], r);
    }
    assert CoerceRow(t.schema, RowAt(t, r)).value == RowAt(t, r);
  }

  // ---- DELETE ----

  function AfterDelete(pow: Pow, cat: Catalog, name: string, where: Option<Expr>): Outcome
    requires DatabaseOk(cat)
  {
    if name !in cat then Outcome(Err, cat)
    else
      var t := cat[name];
      var rows := Split(pow, where, t.schema, TableRows(t));
      if rows.Err? then Outcome(Err, cat)
      else
        SplitWidth(pow, where, t.schema, TableRows(t));
        Replace(cat, name, t.schema, rows.value.1, |rows.value.0|)
  }

  lemma SplitWidth(pow: Pow, where: Option<Expr>, schema: Schema, rows: seq<Row>)
    requires AllOfLength(rows, |schema|) && Split(pow, where, schema, rows).Ok?
    ensures AllOfLength(Split(pow, where, schema, rows).value.1, |schema|)
  {
    SplitInterleaves(pow, where, schema, rows);
  }

  /**
   DELETE fails only if there is no such table or the WHERE clause fails on a row, and then changes nothing. Otherwise
   it removes exactly the rows the clause selects; the others stay, in order, with the values they had.
   */
  lemma DeleteMeaning(pow: Pow, cat: Catalog, name: string, where: Option<Expr>)
    requires DatabaseOk(cat)
    ensures var out := AfterDelete(pow, cat, name, where);
            if name !in cat || Split(pow, where, cat[name].schema, TableRows(cat[name])).Err? then out == Outcome(Err, cat)
            else
              var s := Split(pow, where, cat[name].schema, TableRows(cat[name])).value;
              && out.result == Ok(|s.0|) && name in out.cat && out.cat == cat[name := out.cat[name]]
              && TableOk(out.cat[name]) && out.cat[name].name == name && out.cat[name].schema == cat[name].schema
              && (cat[name].schema != [] ==> TableRows(out.cat[name]) == s.1)
    ensures DatabaseOk(AfterDelete(pow, cat, name, where).cat)
  {
    if name in cat {
      var t := cat[name];
      var rows := TableRows(t);
      if Split(pow, where, t.schema, rows).Ok? {
        var s := Split(pow, where, t.schema, rows).value;
        SplitInterleaves(pow, where, t.schema, rows);
        SplitWidth(pow, where, t.schema, rows);
        forall i | 0 <= i < |s.1| ensures CoerceRow(t.schema, s.1[i]) == Ok(s.1[i]) {
          assert s.1[i] in rows;
          var r :| 0 <= r < |rows| && rows[r] == s.1[i];
          RowsAreStorable(t, r);
        }
        ReplacedTable(cat, name, t.schema, s.1, |s.0|);
        assert StoredRows(t.schema, AllOk(s.1)) == s.1;
      }
    }
  }

  // ---- UPDATE ----

  /** A resolved UPDATE: the columns to set and their expressions. */
  datatype SetClause = SetClause(where: Option<Expr>, cols: seq<nat>, values: seq<Expr>)

  predicate ClauseFits(s: SetClause, n: nat) {
    |s.cols| == |s.values| && Inside(s.cols, n)
  }

  /** Every expression is evaluated on the old row before any cell changes. */
  function UpdateRow(pow: Pow, s: SetClause, schema: Schema, row: Row): (r: Result<Row>)
    requires ClauseFits(s, |row|)
    ensures r.Ok? ==> |r.value| == |row|
  {
    var selected :- Selects(pow, s.where, schema, row);
    if !selected then Ok(row)
    else
      var vs :- EvaluateAll(pow, s.values, schema, row);
      Ok(Assign(row, s.cols, vs))
  }

  function UpdateRows(pow: Pow, s: SetClause, schema: Schema, rows: seq<Row>): (r: Result<seq<Row>>)
    requires AllOfLength(rows, |schema|) && ClauseFits(s, |schema|)
    ensures r.Ok? <==> forall i :: 0 <= i < |rows| ==> UpdateRow(pow, s, schema, rows[i]).Ok?
    ensures r.Ok? ==> |r.value| == |rows| && forall i :: 0 <= i < |rows| ==> UpdateRow(pow, s, schema, rows[i]) == Ok(r.value[i])
    ensures r.Ok? ==> AllOfLength(r.value, |schema|)
  {
    if rows == [] then Ok([])
    else
      var n := |rows| - 1;
      var before :- UpdateRows(pow, s, schema, rows[..n]);
      var row :- UpdateRow(pow, s, schema, rows[n]);
      Ok(before + [row])
  }

  lemma UpdatedRowsSelected(pow: Pow, s: SetClause, schema: Schema, rows: seq<Row>)
    requires AllOfLength(rows, |schema|) && ClauseFits(s, |schema|) && UpdateRows(pow, s, schema, rows).Ok?
    ensures Split(pow, s.where, schema, rows).Ok?
  {
    forall i | 0 <= i < |rows| ensures Selects(pow, s.where, schema, rows[i]).Ok? {
      assert UpdateRow(pow, s, schema, rows[i]).Ok?;
    }
  }

  function Names(assignments: seq<Assignment>): (r: seq<string>)
    ensures |r| == |assignments|
  {
    seq(|assignments|, i requires 0 <= i < |assignments| => assignments[i].column)
  }

  function Values(assignments: seq<Assignment>): (r: seq<Expr>)
    ensures |r| == |assignments|
  {
    seq(|assignments|, i requires 0 <= i < |assignments| => assignments[i].value)
  }

  function Resolve(schema: Schema, assignments: seq<Assignment>, where: Option<Expr>): (r: Option<SetClause>)
    ensures r.Some? ==> ClauseFits(r.value, |schema|) && r.value.where == where
  {
    var cols := Positions(schema, Names(assignments));
    if cols.None? then None else Some(SetClause(where, cols.value, Values(assignments)))
  }

  function AfterUpdate(pow: Pow, cat: Catalog, name: string, assignments: seq<Assignment>, where: Option<Expr>): Outcome
    requires DatabaseOk(cat)
  {
    if name !in cat || Resolve(cat[name].schema, assignments, where).None? then Outcome(Err, cat)
    else
      var t := cat[name];
      var s := Resolve(t.schema, assignments, where).value;
      var rows := UpdateRows(pow, s, t.schema, TableRows(t));
      if rows.Err? then Outcome(Err, cat)
      else
        UpdatedRowsSelected(pow, s, t.schema, TableRows(t));
        Replace(cat, name, t.schema, rows.value, |Split(pow, where, t.schema, TableRows(t)).value.0|)
  }

  /**
   In a selected row a cell holds the last value assigned to it, computed from the old row and stored at the type of its
   column; every other cell shows what it showed.
   */
  predicate UpdatedCell(pow: Pow, s: SetClause, schema: Schema, before: Row, after: Row, c: nat)
    requires |before| == |after| == |schema| && c < |schema| && ClauseFits(s, |schema|)
  {
    var i := LastAt(s.cols, c);
    if Selects(pow, s.where, schema, before) == Ok(true) && i < |s.cols| then
      match Evaluate(pow, s.values[i], schema, before)
      case Ok(v) => Coerce(schema[c].ty, v) == Ok(after[c])
      case Err => false
    else after[c] == before[c]
  }

  lemma CellUpdated(pow: Pow, s: SetClause, schema: Schema, before: Row, c: nat)
    requires |before| == |schema| && c < |schema| && ClauseFits(s, |schema|)
    requires CoerceRow(schema, before) == Ok(before)
    requires UpdateRow(pow, s, schema, before).Ok? && CoerceRow(schema, UpdateRow(pow, s, schema, before).value).Ok?
    ensures UpdatedCell(pow, s, schema, before, CoerceRow(schema, UpdateRow(pow, s, schema, before).value).value, c)
  {
    var row := UpdateRow(pow, s, schema, before).value;
    assert Coerce(schema[c].ty, row[c]) == Ok(CoerceRow(schema, row).value[c]);
    assert Coerce(schema[c].ty, before[c]) == Ok(before[c]);
    if Selects(pow, s.where, schema, before) == Ok(true) {
      var vs := EvaluateAll(pow, s.values, schema, before).value;
      AssignedCell(before, s.cols, vs, c);
    }
  }

  ghost predicate UpdatedTable(pow: Pow, s: SetClause, t: TableData, t': TableData) {
    && TableOk(t) && TableOk(t') && t'.schema == t.schema && ClauseFits(s, |t.schema|)
    && RowCount(t') == RowCount(t)
    && forall r: nat, c: nat :: r < RowCount(t) && c < |t.schema| ==> UpdatedCell(pow, s, t.schema, RowAt(t, r), RowAt(t', r), c)
  }

  /** Every expression evaluates on the row, and every column takes its new value. */
  predicate Updatable(pow: Pow, s: SetClause, schema: Schema, row: Row) {
    ClauseFits(s, |row|) && |row| == |schema| && UpdateRow(pow, s, schema, row).Ok?
    && CoerceRow(schema, UpdateRow(pow, s, schema, row).value).Ok?
  }

  lemma UpdateSucceedsIff(pow: Pow, cat: Catalog, name: string, assignments: seq<Assignment>, where: Option<Expr>)
    requires DatabaseOk(cat) && name in cat && Resolve(cat[name].schema, assignments, where).Some?
    ensures AfterUpdate(pow, cat, name, assignments, where).result.Ok? <==>
            var s := Resolve(cat[name].schema, assignments, where).value;
            forall r: nat :: r < RowCount(cat[name]) ==> Updatable(pow, s, cat[name].schema, RowAt(cat[name], r))
  {
    hide Replace, Resolve, UpdateRow, CoerceRow, Split;
    var t := cat[name];
    var s := Resolve(t.schema, assignments, where).value;
    var rows := TableRows(t);
    if UpdateRows(pow, s, t.schema, rows).Ok? {
      var out := UpdateRows(pow, s, t.schema, rows).value;
      UpdatedRowsSelected(pow, s, t.schema, rows);
      ReplacedTable(cat, name, t.schema, out, |Split(pow, where, t.schema, rows).value.0|);
      forall r: nat | r < RowCount(t) ensures Updatable(pow, s, t.schema, RowAt(t, r)) <==> Accepted(t.schema, Ok(out[r])) {
        assert UpdateRow(pow, s, t.schema, rows[r]) == Ok(out[r]);
      }
    } else {
      var r :| 0 <= r < |rows| && UpdateRow(pow, s, t.schema, rows[r]).Err?;
      assert !Updatable(pow, s, t.schema, RowAt(t, r));
    }
  }

  /**
   An UPDATE that fails changes nothing. One that succeeds changes the selected rows of this table, all assignments
   at once from the old values, and counts them.
   */
  lemma UpdateMeaning(pow: Pow, cat: Catalog, name: string, assignments: seq<Assignment>, where: Option<Expr>)
    requires DatabaseOk(cat)
    ensures var out := AfterUpdate(pow, cat, name, assignments, where);
            && DatabaseOk(out.cat)
            && (out.result.Err? ==> out.cat == cat)
            && (name !in cat || Resolve(cat[name].schema, assignments, where).None? ==> out.result.Err?)
            && (out.result.Ok? ==>
                 && name in cat && name in out.cat && out.cat == cat[name := out.cat[name]]
                 && Resolve(cat[name].schema, assignments, where).Some?
                 && UpdatedTable(pow, Resolve(cat[name].schema, assignments, where).value, cat[name], out.cat[name])
                 && Split(pow, where, cat[name].schema, TableRows(cat[name])).Ok?
                 && out.result == Ok(|Split(pow, where, cat[name].schema, TableRows(cat[name])).value.0|))
  {
    if name in cat && Resolve(cat[name].schema, assignments, where).Some? {
      var t := cat[name];
      var s := Resolve(t.schema, assignments, where).value;
      if UpdateRows(pow, s, t.schema, TableRows(t)).Ok? {
        var rows := UpdateRows(pow, s, t.schema, TableRows(t)).value;
        UpdatedRowsSelected(pow, s, t.schema, TableRows(t));
        var n := |Split(pow, where, t.schema, TableRows(t)).value.0|;
        ReplacedTable(cat, name, t.schema, rows, n);
        if AllStorable(t.schema, rows) {
          TableUpdated(pow, s, t, Replace(cat, name, t.schema, rows, n).cat[name], rows);
        }
      }
    }
  }

  lemma TableUpdated(pow: Pow, s: SetClause, t: TableData, t': TableData, rows: seq<Row>)
    requires TableOk(t) && TableOk(t') && t'.schema == t.schema && ClauseFits(s, |t.schema|)
    requires UpdateRows(pow, s, t.schema, TableRows(t)) == Ok(rows) && AllStorable(t.schema, rows)
    requires t.schema != [] ==> TableRows(t') == StoredRows(t.schema, AllOk(rows))
    ensures UpdatedTable(pow, s, t, t')
  {
    if t.schema != [] {
      assert |TableRows(t')| == |rows| == RowCount(t);
      forall r: nat, c: nat | r < RowCount(t) && c < |t.schema|
        ensures UpdatedCell(pow, s, t.schema, RowAt(t, r), RowAt(t', r), c)
      {
        RowsAreStorable(t, r);
        assert Accepted(t.schema, Ok(rows[r]));
        assert UpdateRow(pow, s, t.schema, TableRows(t)[r]) == Ok(rows[r]);
        assert RowAt(t', r) == TableRows(t')[r] == CoerceRow(t.schema, rows[r]).value;
        CellUpdated(pow, s, t.schema, RowAt(t, r), c);
      }
    }
  }

  // ---- INSERT ----

  /** The columns the values go to; all of them if none are named. */
  function Targets(schema: Schema, into: seq<string>): (r: Option<seq<nat>>)
    ensures r.Some? ==> Inside(r.value, |schema|)
  {
    if into == [] then Some(AllColumns(|schema|)) else Positions(schema, into)
  }

  /** A row of a VALUES list, or the error it stops with. */
  function PrepareValues(pow: Pow, n: nat, targets: seq<nat>, exprs: seq<Expr>): (r: Result<Row>)
    requires Inside(targets, n)
    ensures r.Ok? ==> |r.value| == n
  {
    if |exprs| != |targets| then Err
    else
      var vs :- EvaluateAll(pow, exprs, [], []);
      Ok(Assign(NullRow(n), targets, vs))
  }

  predicate AnswerFits(answer: Result<Answer>) {
    answer.Ok? ==> AllOfLength(answer.value.rows, |answer.value.schema|)
  }

  function PrepareAll(pow: Pow, n: nat, targets: seq<nat>, rows: seq<seq<Expr>>): (r: seq<Result<Row>>)
    requires Inside(targets, n)
    ensures |r| == |rows| && Fitting(r, n)
  {
    seq(|rows|, i requires 0 <= i < |rows| => PrepareValues(pow, n, targets, rows[i]))
  }

  function PlaceAll(n: nat, targets: seq<nat>, rows: seq<Row>): (r: seq<Result<Row>>)
    requires Inside(targets, n) && AllOfLength(rows, |targets|)
    ensures |r| == |rows| && Fitting(r, n)
  {
    seq(|rows|, i requires 0 <= i < |rows| => Ok(Assign(NullRow(n), targets, rows[i])))
  }

  /** The rows to insert, each prepared only when its turn comes; None if the statement fails before the first. */
  function Prepared(pow: Pow, schema: Schema, into: seq<string>, source: InsertSource, answer: Result<Answer>): (r: Option<seq<Result<Row>>>)
    requires AnswerFits(answer)
    ensures r.Some? ==> Fitting(r.value, |schema|)
  {
    var targets := Targets(schema, into);
    if targets.None? then None
    else match source
      case FromValues(rows) => Some(PrepareAll(pow, |schema|, targets.value, rows))
      case FromSelect(_) =>
        if answer.Err? || |answer.value.schema| != |targets.value| then None
        else Some(PlaceAll(|schema|, targets.value, answer.value.rows))
  }

  /** The `answer` is what the query of INSERT ... SELECT yields; other sources do not look at it. */
  function AfterInsert(pow: Pow, cat: Catalog, name: string, into: seq<string>, source: InsertSource, answer: Result<Answer>): Outcome
    requires DatabaseOk(cat) && AnswerFits(answer)
  {
    if name !in cat || Prepared(pow, cat[name].schema, into, source, answer).None? then Outcome(Err, cat)
    else
      var xs := Prepared(pow, cat[name].schema, into, source, answer).value;
      var r := InsertPrepared(cat[name], xs);
      Outcome(if r.0 == |xs| then Ok(r.0) else Err, cat[name := r.1])
  }

  /**
   INSERT appends the rows up to the first one that cannot be prepared or stored, and succeeds when there is none. It is
   not undone when it fails; the table stays rectangular exactly when the failing row was not torn.
   */
  lemma InsertMeaning(pow: Pow, cat: Catalog, name: string, into: seq<string>, source: InsertSource, answer: Result<Answer>)
    requires DatabaseOk(cat) && AnswerFits(answer) && name in cat && Prepared(pow, cat[name].schema, into, source, answer).Some?
    ensures var out := AfterInsert(pow, cat, name, into, source, answer);
            var t := cat[name];
            var xs := Prepared(pow, t.schema, into, source, answer).value;
            var n := FirstRejected(t.schema, xs);
            && out.result == (if n == |xs| then Ok(n) else Err)
            && name in out.cat && out.cat == cat[name := out.cat[name]]
            && out.cat[name].name == name && out.cat[name].schema == t.schema
            && (DatabaseOk(out.cat) <==> !TornBy(t.schema, xs))
            && (!TornBy(t.schema, xs) && t.schema != [] ==>
                 TableOk(out.cat[name]) && TableRows(out.cat[name]) == TableRows(t) + StoredRows(t.schema, xs[..n]))
  {
    var t := cat[name];
    assert |t.cols| == |t.schema|;
    var xs := Prepared(pow, t.schema, into, source, answer).value;
    var t' := InsertPrepared(t, xs).1;
    PreparedTable(t, xs);
    SwappedTable(cat, name, t');
    assert AfterInsert(pow, cat, name, into, source, answer).cat == cat[name := t'];
  }

  lemma PreparedTable(t: TableData, xs: seq<Result<Row>>)
    requires TableOk(t) && |t.cols| == |t.schema| && Fitting(xs, |t.cols|)
    ensures var r, n := InsertPrepared(t, xs), FirstRejected(t.schema, xs);
            && r.0 == n && (TableOk(r.1) <==> !TornBy(t.schema, xs))
            && (!TornBy(t.schema, xs) && t.schema != [] ==> TableOk(r.1) && TableRows(r.1) == TableRows(t) + StoredRows(t.schema, xs[..n]))
  {
    StaysRectangularIff(t, xs);
    if t.cols != [] {
      PreparedRowsGoIn(t, xs);
    }
  }

  /** Replacing one table by another of its name. */
  lemma SwappedTable(cat: Catalog, name: string, t: TableData)
    requires DatabaseOk(cat) && name in cat && t.name == name
    ensures var cat' := cat[name := t]; cat' == cat[name := cat'[name]] && (DatabaseOk(cat') <==> TableOk(t))
  {
  }

  lemma NothingWentIn(t: TableData, xs: seq<Result<Row>>)
    requires TableOk(t) && t.schema != [] && Fitting(xs, |t.cols|) && FirstRejected(t.schema, xs) == 0 && !TornBy(t.schema, xs)
    ensures InsertPrepared(t, xs).1 == t
  {
    if xs != [] && xs[0].Ok? {
      RejectedRow(t, xs[0].value);
    }
  }

  /** A failed INSERT is undone exactly when its first row already failed, and that row was not torn. */
  lemma FailedInsertIsUndoneIff(pow: Pow, cat: Catalog, name: string, into: seq<string>, source: InsertSource, answer: Result<Answer>)
    requires DatabaseOk(cat) && AnswerFits(answer) && name in cat && cat[name].schema != []
    requires Prepared(pow, cat[name].schema, into, source, answer).Some? && AfterInsert(pow, cat, name, into, source, answer).result.Err?
    ensures AfterInsert(pow, cat, name, into, source, answer).cat == cat <==>
            var xs := Prepared(pow, cat[name].schema, into, source, answer).value;
            FirstRejected(cat[name].schema, xs) == 0 && !TornBy(cat[name].schema, xs)
  {
    var t := cat[name];
    var xs := Prepared(pow, t.schema, into, source, answer).value;
    var out := AfterInsert(pow, cat, name, into, source, answer);
    assert out.cat == cat[name := InsertPrepared(t, xs).1];
    InsertMeaning(pow, cat, name, into, source, answer);
    if FirstRejected(t.schema, xs) == 0 && !TornBy(t.schema, xs) {
      NothingWentIn(t, xs);
    } else if !TornBy(t.schema, xs) {
      assert |TableRows(out.cat[name])| == |TableRows(t)| + FirstRejected(t.schema, xs);
    }
  }

  // ---- CREATE and DROP ----

  function SchemaOf(columns: seq<ColumnSpec>): (r: Schema)
    ensures |r| == |columns|
  {
    seq(|columns|, i requires 0 <= i < |columns| =>
      ColumnDef(columns[i].name, if columns[i].notNull then columns[i].ty.(nullable := false) else columns[i].ty))
  }

  /** A table of this name is replaced without a warning. */
  function AfterCreate(cat: Catalog, name: string, columns: seq<ColumnSpec>): Outcome {
    Outcome(Ok(0), cat[name := NewTable(name, SchemaOf(columns))])
  }

  function AfterDrop(cat: Catalog, name: string, ifExists: bool): Outcome {
    Outcome(if name in cat || ifExists then Ok(0) else Err, cat - {name})
  }

  // ---- INSERT ... SELECT * from the table itself ----

  function WholeTable(name: string): SelectStmt {
    SelectStmt(false, [SelectItem(Column("*"), None)], [TableRef(name)], None, None, None, None, None, None)
  }

  lemma WholeTableYields(pow: Pow, cat: Catalog, name: string, answer: Result<Answer>)
    requires DatabaseOk(cat) && name in cat && cat[name].schema != []
    requires FastModelled(WholeTable(name), cat) && SelectYields(pow, WholeTable(name), cat, answer)
    ensures answer == Ok(Answer(ScanSchema(cat[name].schema, ""), TableRows(cat[name])))
  {
    var q := WholeTable(name);
    var t := cat[name];
    assert ReadShape(q, t).None?;
    WholeTablePlan(pow, cat, name);
  }

  lemma WholeTablePlan(pow: Pow, cat: Catalog, name: string)
    requires name in cat
    ensures BuildSelect(pow, WholeTable(name), cat) == Ok(SeqScan(cat[name], ScanSchema(cat[name].schema, "")))
  {
    var q := WholeTable(name);
    var scan := SeqScan(cat[name], ScanSchema(cat[name].schema, ""));
    assert BuildTables(pow, q.from[1..], scan, cat) == Ok(scan);
    assert BuildFrom(pow, q.from, cat) == Ok(scan);
    assert CollectAggs(Column("*")) == [];
    assert !IsAggregateQuery(q);
    assert Body(q, scan) == scan;
  }

  /** Rows read from a table are prepared and stored as they are. */
  lemma OwnRowsGoIn(t: TableData, xs: seq<Result<Row>>)
    requires TableOk(t) && xs == PlaceAll(|t.schema|, AllColumns(|t.schema|), TableRows(t))
    ensures FirstRejected(t.schema, xs) == |xs| == RowCount(t) && !TornBy(t.schema, xs)
    ensures StoredRows(t.schema, xs[..|xs|]) == TableRows(t)
  {
    var rows := TableRows(t);
    forall i | 0 <= i < |rows| ensures xs[i] == Ok(rows[i]) && CoerceRow(t.schema, rows[i]) == Ok(rows[i]) {
      AssignAll(NullRow(|t.schema|), rows[i]);
      RowsAreStorable(t, i);
    }
    assert forall i :: 0 <= i < |xs| ==> Accepted(t.schema, xs[i]);
    assert xs[..|xs|] == xs;
  }

  /** The query is finished before the first row goes in: the rows of before are appended once. */
  lemma SelfInsertAppendsSnapshot(pow: Pow, cat: Catalog, name: string, answer: Result<Answer>)
    requires DatabaseOk(cat) && name in cat && cat[name].schema != []
    requires FastModelled(WholeTable(name), cat) && SelectYields(pow, WholeTable(name), cat, answer)
    ensures AnswerFits(answer)
    ensures var out := AfterInsert(pow, cat, name, [], FromSelect(WholeTable(name)), answer);
            && out.result == Ok(RowCount(cat[name])) && name in out.cat && TableOk(out.cat[name])
            && TableRows(out.cat[name]) == TableRows(cat[name]) + TableRows(cat[name])
  {
    var t := cat[name];
    assert |t.cols| == |t.schema|;
    WholeTableYields(pow, cat, name, answer);
    var xs := PlaceAll(|t.schema|, AllColumns(|t.schema|), TableRows(t));
    OwnRowsGoIn(t, xs);
    InsertMeaning(pow, cat, name, [], FromSelect(WholeTable(name)), answer);
  }

  // ---- Runs ----

  /** A statement, with the answer its query gave if it is an INSERT ... SELECT. */
  datatype Event = Event(stmt: Statement, answer: Result<Answer>)

  predicate InsertsQuery(s: Statement) {
    s.InsertInto? && s.source.FromSelect?
  }

  /** The answer is one the query may give in this state. */
  ghost predicate Possible(pow: Pow, cat: Catalog, e: Event) {
    InsertsQuery(e.stmt) ==> FastModelled(e.stmt.source.query, cat) && SelectYields(pow, e.stmt.source.query, cat, e.answer)
  }

  lemma PossibleFits(pow: Pow, cat: Catalog, e: Event)
    requires Possible(pow, cat, e) && InsertsQuery(e.stmt)
    ensures AnswerFits(e.answer)
  {
    var q := e.stmt.source.query;
    assert CatalogOk(cat);
    if FastResult(q, cat).Ok? {
      if FastResult(q, cat).value.Some? {
        FastRowsFit(q, cat);
      } else if BuildSelect(pow, q, cat).Ok? {
        SelectRowsFit(pow, q, cat);
      }
    }
  }

  ghost function After(pow: Pow, cat: Catalog, e: Event): Outcome
    requires DatabaseOk(cat) && Possible(pow, cat, e)
  {
    match e.stmt
    case CreateTable(name, columns) => AfterCreate(cat, name, columns)
    case DropTable(name, ifExists) => AfterDrop(cat, name, ifExists)
    case Update(name, assignments, where) => AfterUpdate(pow, cat, name, assignments, where)
    case DeleteFrom(name, where) => AfterDelete(pow, cat, name, where)
    case InsertInto(name, into, source) =>
      if source.FromValues? then AfterInsert(pow, cat, name, into, source, Err)
      else
        PossibleFits(pow, cat, e);
        AfterInsert(pow, cat, name, into, source, e.answer)
  }

  /** The event is an INSERT whose first failing row is torn. */
  ghost predicate Tearing(pow: Pow, cat: Catalog, e: Event)
    requires DatabaseOk(cat) && Possible(pow, cat, e)
  {
    e.stmt.InsertInto? && e.stmt.name in cat
    && var t := cat[e.stmt.name];
       var answer := if InsertsQuery(e.stmt) then e.answer else Err;
       assert AnswerFits(answer) by { if InsertsQuery(e.stmt) { PossibleFits(pow, cat, e); } }
       var xs := Prepared(pow, t.schema, e.stmt.into, e.stmt.source, answer);
       xs.Some? && TornBy(t.schema, xs.value)
  }

  lemma NothingPrepared(pow: Pow, cat: Catalog, name: string, into: seq<string>, source: InsertSource, answer: Result<Answer>)
    requires DatabaseOk(cat) && AnswerFits(answer)
    requires name !in cat || Prepared(pow, cat[name].schema, into, source, answer).None?
    ensures AfterInsert(pow, cat, name, into, source, answer) == Outcome(Err, cat)
  {
  }

  /** Only a tearing INSERT takes a database out of its invariant. */
  lemma DatabaseKeptIff(pow: Pow, cat: Catalog, e: Event)
    requires DatabaseOk(cat) && Possible(pow, cat, e)
    ensures DatabaseOk(After(pow, cat, e).cat) <==> !Tearing(pow, cat, e)
  {
    match e.stmt
    case CreateTable(_, _) =>
    case DropTable(_, _) =>
    case Update(name, assignments, where) => UpdateMeaning(pow, cat, name, assignments, where);
    case DeleteFrom(name, where) => DeleteMeaning(pow, cat, name, where);
    case InsertInto(name, into, source) =>
      var answer := if InsertsQuery(e.stmt) then e.answer else Err;
      if InsertsQuery(e.stmt) { PossibleFits(pow, cat, e); }
      if name in cat && Prepared(pow, cat[name].schema, into, source, answer).Some? {
        InsertMeaning(pow, cat, name, into, source, answer);
      } else {
        NothingPrepared(pow, cat, name, into, source, answer);
      }
  }

  /** A run in which every answer is possible and no INSERT tears a row. */
  ghost predicate Untorn(pow: Pow, cat: Catalog, es: seq<Event>)
    requires DatabaseOk(cat)
    decreases |es|
  {
    es == []
    || (Possible(pow, cat, es[0]) && !Tearing(pow, cat, es[0])
        && (DatabaseKeptIff(pow, cat, es[0]); Untorn(pow, After(pow, cat, es[0]).cat, es[1..])))
  }

  ghost function RunAll(pow: Pow, cat: Catalog, es: seq<Event>): (r: Catalog)
    requires DatabaseOk(cat) && Untorn(pow, cat, es)
    ensures DatabaseOk(r)
    decreases |es|
  {
    if es == [] then cat
    else
      DatabaseKeptIff(pow, cat, es[0]);
      RunAll(pow, After(pow, cat, es[0]).cat, es[1..])
  }

  // ---- The reported counts add up ----

  /** What an event reports to have added to the rows of a table. */
  ghost function Reported(pow: Pow, cat: Catalog, e: Event, name: string): int
    requires DatabaseOk(cat) && Possible(pow, cat, e)
  {
    var r := After(pow, cat, e).result;
    if e.stmt.name != name || r.Err? then 0
    else match e.stmt
      case InsertInto(_, _, _) => r.value
      case DeleteFrom(_, _) => 0 - r.value
      case _ => 0
  }

  /** Neither creates nor drops this table, nor fails to insert into it. */
  ghost predicate Regular(pow: Pow, cat: Catalog, e: Event, name: string)
    requires DatabaseOk(cat) && Possible(pow, cat, e)
  {
    e.stmt.name == name ==> !e.stmt.CreateTable? && !e.stmt.DropTable? && (e.stmt.InsertInto? ==> After(pow, cat, e).result.Ok?)
  }

  lemma CountedStep(pow: Pow, cat: Catalog, e: Event, name: string)
    requires DatabaseOk(cat) && Possible(pow, cat, e) && !Tearing(pow, cat, e) && Regular(pow, cat, e, name)
    requires name in cat && cat[name].schema != []
    ensures var cat' := After(pow, cat, e).cat;
            name in cat' && cat'[name].schema == cat[name].schema
            && RowCount(cat'[name]) == RowCount(cat[name]) + Reported(pow, cat, e, name)
  {
    hide AfterUpdate, AfterDelete, AfterInsert, Possible, Prepared, TornBy, TableOk, Split, UpdatedCell;
    match e.stmt
    case CreateTable(_, _) =>
    case DropTable(_, _) =>
    case Update(n, assignments, where) => UpdateMeaning(pow, cat, n, assignments, where);
    case DeleteFrom(n, where) =>
      DeleteMeaning(pow, cat, n, where);
      if n in cat && Split(pow, where, cat[n].schema, TableRows(cat[n])).Ok? {
        SplitInterleaves(pow, where, cat[n].schema, TableRows(cat[n]));
      }
    case InsertInto(_, _, _) => CountedInsert(pow, cat, e, name);
  }

  lemma CountedInsert(pow: Pow, cat: Catalog, e: Event, name: string)
    requires e.stmt.InsertInto? && DatabaseOk(cat) && Possible(pow, cat, e) && !Tearing(pow, cat, e) && Regular(pow, cat, e, name)
    requires name in cat && cat[name].schema != []
    ensures var cat' := After(pow, cat, e).cat;
            name in cat' && cat'[name].schema == cat[name].schema
            && RowCount(cat'[name]) == RowCount(cat[name]) + Reported(pow, cat, e, name)
  {
    var n, into, source := e.stmt.name, e.stmt.into, e.stmt.source;
    var answer := if InsertsQuery(e.stmt) then e.answer else Err;
    if InsertsQuery(e.stmt) { PossibleFits(pow, cat, e); }
    if n in cat && Prepared(pow, cat[n].schema, into, source, answer).Some? {
      InsertMeaning(pow, cat, n, into, source, answer);
    } else {
      NothingPrepared(pow, cat, n, into, source, answer);
    }
  }

  ghost predicate AllRegular(pow: Pow, cat: Catalog, es: seq<Event>, name: string)
    requires DatabaseOk(cat) && Untorn(pow, cat, es)
    decreases |es|
  {
    es == []
    || (Regular(pow, cat, es[0], name)
        && (DatabaseKeptIff(pow, cat, es[0]); AllRegular(pow, After(pow, cat, es[0]).cat, es[1..], name)))
  }

  ghost function TotalReported(pow: Pow, cat: Catalog, es: seq<Event>, name: string): int
    requires DatabaseOk(cat) && Untorn(pow, cat, es)
    decreases |es|
  {
    if es == [] then 0
    else
      DatabaseKeptIff(pow, cat, es[0]);
      Reported(pow, cat, es[0], name) + TotalReported(pow, After(pow, cat, es[0]).cat, es[1..], name)
  }

  /** After any run a table holds the rows of before, plus those reported inserted, minus those reported deleted. */
  lemma {:induction false} RunsAreCounted(pow: Pow, cat: Catalog, es: seq<Event>, name: string)
    requires DatabaseOk(cat) && Untorn(pow, cat, es) && AllRegular(pow, cat, es, name)
    requires name in cat && cat[name].schema != []
    ensures var end := RunAll(pow, cat, es);
            name in end && end[name].schema == cat[name].schema
            && RowCount(end[name]) == RowCount(cat[name]) + TotalReported(pow, cat, es, name)
    decreases |es|
  {
    if es != [] {
      DatabaseKeptIff(pow, cat, es[0]);
      CountedStep(pow, cat, es[0], name);
      RunsAreCounted(pow, After(pow, cat, es[0]).cat, es[1..], name);
    }
  }
}
