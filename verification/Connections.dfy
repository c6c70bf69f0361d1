/** The statement handlers of a connection: loops over a mutable catalog that do what module Statements says. */
module Connections {
  import opened Results
  import opened Seqs
  import opened Types
  import opened Ast
  import opened Eval
  import opened Tables
  import opened Inserts
  import opened Aggregation
  import opened Joins
  import opened Planner
  import opened FastAggregate
  import opened FastPath
  import opened Statements

  // ---- Helpers of the handlers ----

  method ResolveColumns(schema: Schema, names: seq<string>) returns (r: Option<seq<nat>>)
    ensures r == Positions(schema, names)
  {
    var cols: seq<nat> := [];
    for i := 0 to |names|
      invariant Positions(schema, names[..i]) == Some(cols)
    {
      var idx := IndexOf(schema, names[i]);
      if idx < 0 {
        return None;
      }
      cols := cols + [idx];
      PrefixSnoc(names, i);
    }
    WholePrefix(names);
    r := Some(cols);
  }

  /** Evaluates the expressions on `source` and assigns each result to its column of `start`. */
  method AssignEach(pow: Pow, cols: seq<nat>, es: seq<Expr>, schema: Schema, source: Row, start: Row) returns (r: Result<Row>)
    requires |cols| == |es| && Inside(cols, |start|)
    ensures r == match EvaluateAll(pow, es, schema, source) case Err => Err case Ok(vs) => Ok(Assign(start, cols, vs))
  {
    var row := start;
    ghost var vs: Row := [];
    for i := 0 to |es|
      invariant |vs| == i && |row| == |start|
      invariant forall j :: 0 <= j < i ==> Evaluate(pow, es[j], schema, source) == Ok(vs[j])
      invariant row == Assign(start, cols[..i], vs)
    {
      var v := Evaluate(pow, es[i], schema, source);
      if v.Err? {
        return Err;
      }
      row := row[cols[i] := v.value];
      PrefixSnoc(cols, i);
      DropLast(vs, v.value);
      vs := vs + [v.value];
    }
    EvaluateAllFrom(pow, es, schema, source, vs);
    WholePrefix(cols);
    r := Ok(row);
  }

  method PlaceRow(targets: seq<nat>, vs: Row, start: Row) returns (row: Row)
    requires |targets| == |vs| && Inside(targets, |start|)
    ensures row == Assign(start, targets, vs)
  {
    row := start;
    for i := 0 to |vs|
      invariant |row| == |start| && row == Assign(start, targets[..i], vs[..i])
    {
      row := row[targets[i] := vs[i]];
      PrefixSnoc(targets, i);
      PrefixSnoc(vs, i);
    }
    WholePrefix(targets);
    WholePrefix(vs);
  }

  /** How an INSERT goes on from its i-th row. */
  lemma RowGoesIn(t: TableData, xs: seq<Result<Row>>, i: nat)
    requires Fitting(xs, |t.cols|) && i < |xs|
    ensures Fitting(xs[i..], |t.cols|) && Fitting(xs[i + 1..], |t.cols|)
    ensures InsertPrepared(t, xs[i..]) ==
            match xs[i]
            case Err => (0, t)
            case Ok(row) =>
              var one := InsertRow(t, row);
              if !one.0 then (0, one.1)
              else (1 + InsertPrepared(one.1, xs[i + 1..]).0, InsertPrepared(one.1, xs[i + 1..]).1)
  {
    assert xs[i..][0] == xs[i] && xs[i..][1..] == xs[i + 1..];
  }

  lemma NoRowsLeft(t: TableData, xs: seq<Result<Row>>)
    requires Fitting(xs, |t.cols|)
    ensures InsertPrepared(t, xs[|xs|..]) == (0, t)
  {
  }

  method RebuiltTable(name: string, schema: Schema, rows: seq<Row>) returns (r: Result<TableData>)
    requires AllOfLength(rows, |schema|)
    ensures var built := InsertPrepared(NewTable(name, schema), AllOk(rows));
            r == if built.0 < |rows| then Err else Ok(built.1)
  {
    var t := NewTable(name, schema);
    ghost var xs := AllOk(rows);
    ghost var built := InsertPrepared(t, xs);
    for i := 0 to |rows|
      invariant |t.cols| == |schema|
      invariant built == (i + InsertPrepared(t, xs[i..]).0, InsertPrepared(t, xs[i..]).1)
    {
      RowGoesIn(t, xs, i);
      var one := InsertRow(t, rows[i]);
      if !one.0 {
        return Err;
      }
      t := one.1;
    }
    r := Ok(t);
  }

  class Connection {
    var tables: Catalog

    constructor ()
      ensures tables == map[]
    {
      tables := map[];
    }

    method RunCreate(name: string, columns: seq<ColumnSpec>) returns (r: Result<nat>)
      modifies this
      ensures Outcome(r, tables) == AfterCreate(old(tables), name, columns)
    {
      var schema: Schema := [];
      for i := 0 to |columns|
        invariant schema == SchemaOf(columns)[..i]
        invariant tables == old(tables)
      {
        var ty := columns[i].ty;
        if columns[i].notNull {
          ty := ty.(nullable := false);
        }
        schema := schema + [ColumnDef(columns[i].name, ty)];
      }
      WholePrefix(SchemaOf(columns));
      tables := tables[name := NewTable(name, schema)];
      r := Ok(0);
    }

    method RunDrop(name: string, ifExists: bool) returns (r: Result<nat>)
      modifies this
      ensures Outcome(r, tables) == AfterDrop(old(tables), name, ifExists)
    {
      var existed := name in tables;
      tables := tables - {name};
      r := if !existed && !ifExists then Err else Ok(0);
    }

    method RunUpdate(pow: Pow, name: string, assignments: seq<Assignment>, where: Option<Expr>) returns (r: Result<nat>)
      requires DatabaseOk(tables)
      modifies this
      ensures Outcome(r, tables) == AfterUpdate(pow, old(tables), name, assignments, where)
    {
      if name !in tables {
        return Err;
      }
      var t := tables[name];
      hide ValueAt, Assign, Evaluate, EvaluatePredicate, InsertPrepared;
      var cols := ResolveColumns(t.schema, Names(assignments));
      if cols.None? {
        return Err;
      }
      var values := Values(assignments);
      ghost var s := SetClause(where, cols.value, values);
      ghost var all := TableRows(t);
      var rows: seq<Row> := [];
      var affected := 0;
      for i := 0 to RowCount(t)
        invariant UpdateRows(pow, s, t.schema, all[..i]) == Ok(rows)
        invariant Split(pow, where, t.schema, all[..i]).Ok? && affected == |Split(pow, where, t.schema, all[..i]).value.0|
        invariant tables == old(tables)
      {
        var row := RowAt(t, i);
        PrefixSnoc(all, i);
        var selected := Selects(pow, where, t.schema, row);
        if selected.Err? {
          assert UpdateRow(pow, s, t.schema, all[i]).Err?;
          return Err;
        }
        if selected.value {
          var updated := AssignEach(pow, cols.value, values, t.schema, row, row);
          if updated.Err? {
            assert UpdateRow(pow, s, t.schema, all[i]).Err?;
            return Err;
          }
          rows := rows + [updated.value];
          affected := affected + 1;
        } else {
          rows := rows + [row];
        }
      }
      WholePrefix(all);
      var rebuilt := RebuiltTable(name, t.schema, rows);
      if rebuilt.Err? {
        return Err;
      }
      tables := tables[name := rebuilt.value];
      r := Ok(affected);
    }

    method RunDelete(pow: Pow, name: string, where: Option<Expr>) returns (r: Result<nat>)
      requires DatabaseOk(tables)
      modifies this
      ensures Outcome(r, tables) == AfterDelete(pow, old(tables), name, where)
    {
      if name !in tables {
        return Err;
      }
      var t := tables[name];
      ghost var all := TableRows(t);
      var kept: seq<Row> := [];
      var deleted := 0;
      for i := 0 to RowCount(t)
        invariant Split(pow, where, t.schema, all[..i]).Ok?
        invariant Split(pow, where, t.schema, all[..i]).value.1 == kept
        invariant |Split(pow, where, t.schema, all[..i]).value.0| == deleted
        invariant tables == old(tables)
      {
        var row := RowAt(t, i);
        PrefixSnoc(all, i);
        var remove := Selects(pow, where, t.schema, row);
        if remove.Err? {
          assert Selects(pow, where, t.schema, all[i]).Err?;
          return Err;
        }
        if remove.value {
          deleted := deleted + 1;
        } else {
          kept := kept + [row];
        }
      }
      WholePrefix(all);
      SplitWidth(pow, where, t.schema, all);
      var rebuilt := RebuiltTable(name, t.schema, kept);
      if rebuilt.Err? {
        return Err;
      }
      tables := tables[name := rebuilt.value];
      r := Ok(deleted);
    }

    /** Stores one prepared row; false if the table does not take it. */
    method StoreRow(name: string, row: Row) returns (ok: bool)
      requires name in tables && |row| == |tables[name].cols|
      modifies this
      ensures name in tables && (ok, tables[name]) == InsertRow(old(tables[name]), row)
      ensures tables == old(tables)[name := tables[name]]
    {
      var one := InsertRow(tables[name], row);
      tables := tables[name := one.1];
      ok := one.0;
    }

    method InsertValues(pow: Pow, name: string, targets: seq<nat>, exprRows: seq<seq<Expr>>) returns (r: Result<nat>)
      requires name in tables && |tables[name].cols| == |tables[name].schema| && Inside(targets, |tables[name].schema|)
      modifies this
      ensures var t := old(tables[name]);
              var xs := PrepareAll(pow, |t.schema|, targets, exprRows);
              var all := InsertPrepared(t, xs);
              r == (if all.0 == |xs| then Ok(all.0) else Err) && tables == old(tables)[name := all.1]
    {
      hide InsertPrepared, InsertRow;
      ghost var t := tables[name];
      var n := |tables[name].schema|;
      ghost var xs := PrepareAll(pow, n, targets, exprRows);
      ghost var all := InsertPrepared(t, xs);
      for i := 0 to |exprRows|
        invariant name in tables && |tables[name].cols| == |t.cols| && tables == old(tables)[name := tables[name]]
        invariant all == (i + InsertPrepared(tables[name], xs[i..]).0, InsertPrepared(tables[name], xs[i..]).1)
      {
        RowGoesIn(tables[name], xs, i);
        if |exprRows[i]| != |targets| {
          return Err;
        }
        var row := AssignEach(pow, targets, exprRows[i], [], [], NullRow(n));
        if row.Err? {
          return Err;
        }
        var ok := StoreRow(name, row.value);
        if !ok {
          return Err;
        }
      }
      NoRowsLeft(tables[name], xs);
      r := Ok(|exprRows|);
    }

    method InsertAnswer(name: string, targets: seq<nat>, rows: seq<Row>) returns (r: Result<nat>)
      requires name in tables && |tables[name].cols| == |tables[name].schema| && Inside(targets, |tables[name].schema|)
      requires AllOfLength(rows, |targets|)
      modifies this
      ensures var t := old(tables[name]);
              var xs := PlaceAll(|t.schema|, targets, rows);
              var all := InsertPrepared(t, xs);
              r == (if all.0 == |xs| then Ok(all.0) else Err) && tables == old(tables)[name := all.1]
    {
      ghost var t := tables[name];
      var n := |tables[name].schema|;
      ghost var xs := PlaceAll(n, targets, rows);
      ghost var all := InsertPrepared(t, xs);
      for i := 0 to |rows|
        invariant name in tables && |tables[name].cols| == |t.cols| && tables == old(tables)[name := tables[name]]
        invariant all == (i + InsertPrepared(tables[name], xs[i..]).0, InsertPrepared(tables[name], xs[i..]).1)
      {
        RowGoesIn(tables[name], xs, i);
        var row := PlaceRow(targets, rows[i], NullRow(n));
        var ok := StoreRow(name, row);
        if !ok {
          return Err;
        }
      }
      NoRowsLeft(tables[name], xs);
      r := Ok(|rows|);
    }

    /** What the query of INSERT ... SELECT answered comes back as a ghost. */
    method RunInsert(pow: Pow, batchSize: nat, name: string, into: seq<string>, source: InsertSource)
      returns (r: Result<nat>, ghost answer: Result<Answer>)
      requires DatabaseOk(tables) && batchSize >= 1
      requires source.FromSelect? ==> FastModelled(source.query, tables)
      modifies this
      ensures source.FromValues? ==> answer.Err?
      ensures AnswerFits(answer) && Outcome(r, tables) == AfterInsert(pow, old(tables), name, into, source, answer)
      ensures Possible(pow, old(tables), Event(InsertInto(name, into, source), answer)) || (r.Err? && tables == old(tables))
    {
      hide SelectYields, FastModelled, InsertPrepared;
      answer := Err;
      if name !in tables {
        return Err, Err;
      }
      var t := tables[name];
      var targets: seq<nat> := AllColumns(|t.schema|);
      if into != [] {
        var positions := ResolveColumns(t.schema, into);
        if positions.None? {
          return Err, Err;
        }
        targets := positions.value;
      }
      match source
      case FromValues(exprRows) =>
        r := InsertValues(pow, name, targets, exprRows);
      case FromSelect(query) =>
        var src := RunSelect(pow, batchSize, query, tables);
        answer := src;
        PossibleFits(pow, tables, Event(InsertInto(name, into, source), src));
        if src.Err? || |src.value.schema| != |targets| {
          return Err, answer;
        }
        r := InsertAnswer(name, targets, src.value.rows);
    }

    /** One statement: a step of a run, or a failure that leaves everything as it was. */
    method Execute(pow: Pow, batchSize: nat, s: Statement) returns (r: Result<nat>, ghost e: Event)
      requires DatabaseOk(tables) && batchSize >= 1
      requires InsertsQuery(s) ==> FastModelled(s.source.query, tables)
      modifies this
      ensures e.stmt == s
      ensures (r.Err? && tables == old(tables))
              || (Possible(pow, old(tables), e) && Outcome(r, tables) == After(pow, old(tables), e))
    {
      e := Event(s, Err);
      match s
      case CreateTable(name, columns) => r := RunCreate(name, columns);
      case DropTable(name, ifExists) => r := RunDrop(name, ifExists);
      case Update(name, assignments, where) => r := RunUpdate(pow, name, assignments, where);
      case DeleteFrom(name, where) => r := RunDelete(pow, name, where);
      case InsertInto(name, into, source) =>
        ghost var answer;
        r, answer := RunInsert(pow, batchSize, name, into, source);
        e := Event(s, if InsertsQuery(s) then answer else Err);
    }
  }
}
