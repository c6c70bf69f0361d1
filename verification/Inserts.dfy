/** Rows into a table, one after the other: positions of named columns, assignment of cells, where an INSERT stops. */
module Inserts {
  import opened Results
  import opened Seqs
  import opened Types
  import opened Tables

  // ---- Columns by name ----

  /** Their positions; None if one is unknown. */
  function Positions(schema: Schema, names: seq<string>): (r: Option<seq<nat>>)
    ensures r.None? <==> exists i :: 0 <= i < |names| && IndexOf(schema, names[i]) < 0
    ensures r.Some? ==> |r.value| == |names| && forall i :: 0 <= i < |names| ==> r.value[i] == IndexOf(schema, names[i])
  {
    if names == [] then Some([])
    else
      var n := |names| - 1;
      var before := Positions(schema, names[..n]);
      if before.None? || IndexOf(schema, names[n]) < 0 then None else Some(before.value + [IndexOf(schema, names[n])])
  }

  predicate Inside(cols: seq<nat>, n: nat) {
    forall i :: 0 <= i < |cols| ==> cols[i] < n
  }

  /** row[cols[i]] = vs[i], from left to right. */
  function Assign(row: Row, cols: seq<nat>, vs: Row): (r: Row)
    requires |cols| == |vs| && Inside(cols, |row|)
    ensures |r| == |row|
  {
    if cols == [] then row
    else
      var n := |cols| - 1;
      Assign(row, cols[..n], vs[..n])[cols[n] := vs[n]]
  }

  /** The last position at which c stands; |cols| if there is none. */
  function LastAt(cols: seq<nat>, c: nat): (i: nat)
    ensures i <= |cols| && (i < |cols| ==> cols[i] == c)
    ensures forall j :: 0 <= j < |cols| && cols[j] == c ==> i < |cols| && j <= i
  {
    if cols == [] then 0
    else
      var n := |cols| - 1;
      if cols[n] == c then n
      else
        var before := LastAt(cols[..n], c);
        if before == n then |cols| else before
  }

  /** Each cell is the last value assigned to it, or what it was. */
  lemma {:induction false} AssignedCell(row: Row, cols: seq<nat>, vs: Row, c: nat)
    requires |cols| == |vs| && Inside(cols, |row|) && c < |row|
    ensures Assign(row, cols, vs)[c] == if LastAt(cols, c) < |cols| then vs[LastAt(cols, c)] else row[c]
    decreases |cols|
  {
    if cols != [] {
      AssignedCell(row, cols[..|cols| - 1], vs[..|cols| - 1], c);
    }
  }

  function AllColumns(n: nat): (r: seq<nat>)
    ensures |r| == n && Inside(r, n)
  {
    seq(n, i requires 0 <= i < n => i)
  }

  lemma AssignAll(row: Row, vs: Row)
    requires |row| == |vs|
    ensures Assign(row, AllColumns(|row|), vs) == vs
  {
    forall c | 0 <= c < |row| ensures Assign(row, AllColumns(|row|), vs)[c] == vs[c] {
      AssignedCell(row, AllColumns(|row|), vs, c);
      assert AllColumns(|row|)[c] == c;
    }
  }

  // ---- Inserting rows one after the other ----

  predicate Fitting(xs: seq<Result<Row>>, n: nat) {
    forall x :: x in xs && x.Ok? ==> |x.value| == n
  }

  /** Inserts prepared rows up to the first error, in preparing a row or in storing it; how many went in. */
  function InsertPrepared(t: TableData, xs: seq<Result<Row>>): (r: (nat, TableData))
    requires Fitting(xs, |t.cols|)
    ensures r.0 <= |xs| && |r.1.cols| == |t.cols| && r.1.name == t.name && r.1.schema == t.schema
    decreases |xs|
  {
    if xs == [] || xs[0].Err? then (0, t)
    else
      var one := InsertRow(t, xs[0].value);
      if !one.0 then (0, one.1)
      else
        var rest := InsertPrepared(one.1, xs[1..]);
        (1 + rest.0, rest.1)
  }

  predicate Accepted(schema: Schema, x: Result<Row>) {
    x.Ok? && |x.value| == |schema| && CoerceRow(schema, x.value).Ok?
  }

  function FirstRejected(schema: Schema, xs: seq<Result<Row>>): (n: nat)
    ensures n <= |xs| && (forall i :: 0 <= i < n ==> Accepted(schema, xs[i])) && (n < |xs| ==> !Accepted(schema, xs[n]))
  {
    if xs == [] || !Accepted(schema, xs[0]) then 0
    else
      assert forall i :: 0 < i < |xs| ==> xs[i] == xs[1..][i - 1];
      1 + FirstRejected(schema, xs[1..])
  }

  /** The first column takes its cell, a later one does not. */
  predicate Tears(schema: Schema, x: Result<Row>) {
    x.Ok? && |x.value| == |schema| && schema != [] && Coerce(schema[0].ty, x.value[0]).Ok? && CoerceRow(schema, x.value).Err?
  }

  /** The first row that does not go in is torn. */
  predicate TornBy(schema: Schema, xs: seq<Result<Row>>) {
    var n := FirstRejected(schema, xs);
    n < |xs| && Tears(schema, xs[n])
  }

  function Stored(schema: Schema, x: Result<Row>): Row
    requires Accepted(schema, x)
  {
    CoerceRow(schema, x.value).value
  }

  function StoredRows(schema: Schema, xs: seq<Result<Row>>): (r: seq<Row>)
    requires forall i :: 0 <= i < |xs| ==> Accepted(schema, xs[i])
    ensures |r| == |xs|
  {
    seq(|xs|, i requires 0 <= i < |xs| => Stored(schema, xs[i]))
  }

  /** When a cell is rejected, its column is as it was. */
  lemma {:induction false} RejectingColumnStays(cols: seq<ColumnData>, row: Row) returns (j: nat)
    requires |row| == |cols| && !InsertCells(cols, row).0
    ensures j < |cols| && InsertCells(cols, row).1[j] == cols[j]
    decreases |cols|
  {
    if Append(cols[0], row[0]).Err? {
      j := 0;
    } else {
      var k := RejectingColumnStays(cols[1..], row[1..]);
      j := k + 1;
    }
  }

  lemma RejectedRow(t: TableData, row: Row)
    requires TableOk(t) && |row| == |t.cols| && CoerceRow(t.schema, row).Err?
    ensures !InsertRow(t, row).0
    ensures if Tears(t.schema, Ok(row)) then !TableOk(InsertRow(t, row).1) else InsertRow(t, row).1 == t
  {
    InsertRowRefines(t, row);
    AppendRefines(t.cols[0], row[0]);
    var t' := InsertRow(t, row).1;
    if Tears(t.schema, Ok(row)) {
      var j := RejectingColumnStays(t.cols, row);
      assert t'.cols[0] == Append(t.cols[0], row[0]).value;
      assert |Contents(t'.cols[0])| == |Contents(t.cols[0])| + 1;
    }
  }

  lemma MoreAccepted(schema: Schema, xs: seq<Result<Row>>)
    requires xs != [] && Accepted(schema, xs[0])
    ensures FirstRejected(schema, xs) == 1 + FirstRejected(schema, xs[1..])
    ensures StoredRows(schema, xs[..FirstRejected(schema, xs)])
         == [Stored(schema, xs[0])] + StoredRows(schema, xs[1..][..FirstRejected(schema, xs[1..])])
  {
    var n := FirstRejected(schema, xs[1..]);
    forall i | 0 <= i < n ensures xs[..n + 1][i + 1] == xs[1..][..n][i] {
    }
  }

  /**
   Rows go in up to the first rejected one. The table stays rectangular exactly when that row is not torn, and then
   holds the old rows and the accepted ones in order, as stored.
   */
  lemma {:induction false} PreparedRowsGoIn(t: TableData, xs: seq<Result<Row>>)
    requires TableOk(t) && t.cols != [] && Fitting(xs, |t.cols|)
    ensures InsertPrepared(t, xs).0 == FirstRejected(t.schema, xs)
    ensures TableOk(InsertPrepared(t, xs).1) <==> !TornBy(t.schema, xs)
    ensures !TornBy(t.schema, xs) ==>
      TableRows(InsertPrepared(t, xs).1) == TableRows(t) + StoredRows(t.schema, xs[..FirstRejected(t.schema, xs)])
    decreases |xs|
  {
    if xs == [] || xs[0].Err? {
      AddNothing(TableRows(t));
    } else if CoerceRow(t.schema, xs[0].value).Err? {
      RejectedRow(t, xs[0].value);
      AddNothing(TableRows(t));
    } else {
      InsertRowRefines(t, xs[0].value);
      MoreAccepted(t.schema, xs);
      PreparedRowsGoIn(InsertRow(t, xs[0].value).1, xs[1..]);
      if !TornBy(t.schema, xs) {
        Regroup(TableRows(t), [Stored(t.schema, xs[0])], StoredRows(t.schema, xs[1..][..FirstRejected(t.schema, xs[1..])]));
      }
    }
  }

  /** A table without columns has no rows, whatever goes in. */
  lemma {:induction false} NothingGoesIn(t: TableData, xs: seq<Result<Row>>)
    requires TableOk(t) && t.cols == [] && Fitting(xs, 0)
    ensures InsertPrepared(t, xs) == (FirstRejected(t.schema, xs), t) && !TornBy(t.schema, xs)
    decreases |xs|
  {
    if xs != [] && xs[0].Ok? {
      assert InsertRow(t, xs[0].value) == (true, t);
      NothingGoesIn(t, xs[1..]);
      MoreAccepted(t.schema, xs);
    }
  }

  lemma StaysRectangularIff(t: TableData, xs: seq<Result<Row>>)
    requires TableOk(t) && Fitting(xs, |t.cols|)
    ensures InsertPrepared(t, xs).0 == FirstRejected(t.schema, xs)
    ensures TableOk(InsertPrepared(t, xs).1) <==> !TornBy(t.schema, xs)
  {
    if t.cols == [] { NothingGoesIn(t, xs); } else { PreparedRowsGoIn(t, xs); }
  }
}
