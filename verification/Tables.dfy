/** Columns and tables as values: what the storage classes hold, and what scans and the fast path read. */
module Tables {
  import opened Results
  import opened Types

  datatype Kind = Int64 | Double | String

  function KindOf(id: TypeId): Kind {
    if TypeIsFloat(id) then Double
    else if id == VARCHAR || id == BLOB then String
    else Int64
  }

  /** A typed buffer (the one of its kind) with one validity flag a row. */
  datatype ColumnData = ColumnData(ty: DataType, valid: seq<bool>, i64: seq<int>, f64: seq<real>, str: seq<string>)

  function NewColumn(ty: DataType): ColumnData {
    ColumnData(ty, [], [], [], [])
  }

  predicate ColumnOk(c: ColumnData) {
    match KindOf(c.ty.id)
    case Int64 => |c.i64| == |c.valid|
    case Double => |c.f64| == |c.valid|
    case String => |c.str| == |c.valid|
  }

  // ---- Reading ----

  /** static_cast to a signed integer of half-range `half`. */
  function Wrap(i: int, half: int): int
    requires half > 0
  {
    (i + half) % (2 * half) - half
  }

  /** The stored int64 as a value of the column's declared subtype. */
  function MakeIntValue(ty: DataType, i: int): Value {
    if ty.id == BOOLEAN then Bool(i != 0)
    else if ty.id == INT8 then Int(W8, Wrap(i, 0x80))
    else if ty.id == INT16 then Int(W16, Wrap(i, 0x8000))
    else if ty.id == INT32 then Int(W32, Wrap(i, 0x8000_0000))
    else Int(W64, i)
  }

  function ValueAt(c: ColumnData, i: nat): Value
    requires ColumnOk(c) && i < |c.valid|
  {
    if !c.valid[i] then Null
    else match KindOf(c.ty.id)
      case Int64 => MakeIntValue(c.ty, c.i64[i])
      case Double => Dbl(c.f64[i])
      case String => Str(c.str[i])
  }

  function Contents(c: ColumnData): (r: seq<Value>)
    requires ColumnOk(c)
    ensures |r| == |c.valid|
  {
    seq(|c.valid|, i requires 0 <= i < |c.valid| => ValueAt(c, i))
  }

  // ---- Appending ----

  /** The value a cell of this type shows after `v` was appended; an error if the column rejects it. */
  function Coerce(ty: DataType, v: Value): Result<Value> {
    if v.Null? then Ok(Null)
    else match KindOf(ty.id)
      case Int64 =>
        var i :- StoredInt(v);
        Ok(MakeIntValue(ty, i))
      case Double =>
        var d :- ToDouble(v);
        Ok(Dbl(d))
      case String => Ok(Str(StoredString(v)))
  }

  function StoredInt(v: Value): Result<int> {
    if v.Dbl? then Ok(if v.r < 0.0 then -((-v.r).Floor) else v.r.Floor) else ToInt64(v)
  }

  function StoredString(v: Value): string {
    if v.Str? then v.s else ToString(v)
  }

  function PushNull(c: ColumnData): ColumnData {
    match KindOf(c.ty.id)
    case Int64 => c.(i64 := c.i64 + [0], valid := c.valid + [false])
    case Double => c.(f64 := c.f64 + [0.0], valid := c.valid + [false])
    case String => c.(str := c.str + [""], valid := c.valid + [false])
  }

  function Append(c: ColumnData, v: Value): Result<ColumnData> {
    if v.Null? then Ok(PushNull(c))
    else match KindOf(c.ty.id)
      case Int64 =>
        var i :- StoredInt(v);
        Ok(c.(i64 := c.i64 + [i], valid := c.valid + [true]))
      case Double =>
        var d :- ToDouble(v);
        Ok(c.(f64 := c.f64 + [d], valid := c.valid + [true]))
      case String => Ok(c.(str := c.str + [StoredString(v)], valid := c.valid + [true]))
  }

  /** Appending is exactly pushing the coerced value on the observed contents. */
  lemma AppendRefines(c: ColumnData, v: Value)
    requires ColumnOk(c)
    ensures Append(c, v).Ok? <==> Coerce(c.ty, v).Ok?
    ensures Append(c, v).Ok? ==>
              ColumnOk(Append(c, v).value) && Append(c, v).value.ty == c.ty
              && Contents(Append(c, v).value) == Contents(c) + [Coerce(c.ty, v).value]
  {
    if Append(c, v).Ok? {
      var d := Append(c, v).value;
      forall i | 0 <= i < |d.valid| ensures Contents(d)[i] == (Contents(c) + [Coerce(c.ty, v).value])[i] {
        assert Contents(d)[i] == ValueAt(d, i);
        if i < |c.valid| {
          assert Contents(c)[i] == ValueAt(c, i);
        }
      }
    }
  }

  lemma WrapIdempotent(i: int, half: int)
    requires half > 0
    ensures -half <= Wrap(i, half) < half && Wrap(Wrap(i, half), half) == Wrap(i, half)
  {
    var m := (i + half) % (2 * half);
    assert 0 <= m < 2 * half && m % (2 * half) == m;
  }

  /** Storing an observed value again shows the same value: what UPDATE and DELETE rely on when they rebuild a table. */
  lemma CoerceIdempotent(ty: DataType, v: Value)
    requires Coerce(ty, v).Ok?
    ensures Coerce(ty, Coerce(ty, v).value) == Coerce(ty, v)
  {
    if !v.Null? && KindOf(ty.id) == Int64 {
      var i := StoredInt(v).value;
      WrapIdempotent(i, 0x80);
      WrapIdempotent(i, 0x8000);
      WrapIdempotent(i, 0x8000_0000);
    }
  }

  lemma ValuesAreCoerced(c: ColumnData, i: nat)
    requires ColumnOk(c) && i < |c.valid|
    ensures Coerce(c.ty, ValueAt(c, i)) == Ok(ValueAt(c, i))
  {
    if c.valid[i] && KindOf(c.ty.id) == Int64 {
      assert Coerce(c.ty, Int(W64, c.i64[i])) == Ok(MakeIntValue(c.ty, c.i64[i]));
      CoerceIdempotent(c.ty, Int(W64, c.i64[i]));
    }
  }

  // ---- Tables ----

  datatype TableData = TableData(name: string, schema: Schema, cols: seq<ColumnData>)

  /** One well-formed column a schema field, all of one length. */
  predicate TableOk(t: TableData) {
    && |t.cols| == |t.schema|
    && (forall c :: 0 <= c < |t.cols| ==> t.cols[c].ty == t.schema[c].ty && ColumnOk(t.cols[c]))
    && (forall c :: 0 <= c < |t.cols| ==> |t.cols[c].valid| == RowCount(t))
  }

  function RowCount(t: TableData): nat {
    if t.cols == [] then 0 else |t.cols[0].valid|
  }

  function RowAt(t: TableData, r: nat): (row: Row)
    requires TableOk(t) && r < RowCount(t)
    ensures |row| == |t.cols| && forall c :: 0 <= c < |row| ==> row[c] == ValueAt(t.cols[c], r)
  {
    seq(|t.cols|, c requires 0 <= c < |t.cols| => ValueAt(t.cols[c], r))
  }

  function TableRows(t: TableData): (rows: seq<Row>)
    requires TableOk(t)
    ensures |rows| == RowCount(t)
    ensures forall r :: 0 <= r < |rows| ==> rows[r] == RowAt(t, r)
  {
    seq(RowCount(t), r requires 0 <= r < RowCount(t) => RowAt(t, r))
  }

  function NewTable(name: string, schema: Schema): (t: TableData)
    ensures TableOk(t) && TableRows(t) == []
  {
    TableData(name, schema, seq(|schema|, c requires 0 <= c < |schema| => NewColumn(schema[c].ty)))
  }

  /** insertRow: the columns take their values one after the other and stop at the first that rejects one. */
  function InsertCells(cols: seq<ColumnData>, row: Row): (r: (bool, seq<ColumnData>))
    requires |row| == |cols|
    ensures |r.1| == |cols|
  {
    if cols == [] then (true, [])
    else match Append(cols[0], row[0])
      case Err => (false, cols)
      case Ok(c) =>
        var rest := InsertCells(cols[1..], row[1..]);
        (rest.0, [c] + rest.1)
  }

  function CoerceRow(schema: Schema, row: Row): (r: Result<Row>)
    requires |row| == |schema|
    ensures r.Ok? ==> |r.value| == |row|
    ensures r.Ok? <==> forall c :: 0 <= c < |row| ==> Coerce(schema[c].ty, row[c]).Ok?
    ensures r.Ok? ==> forall c :: 0 <= c < |row| ==> Coerce(schema[c].ty, row[c]) == Ok(r.value[c])
  {
    if row == [] then Ok([])
    else
      assert forall c :: 0 < c < |row| ==> row[c] == row[1..][c - 1] && schema[c] == schema[1..][c - 1];
      assert forall c :: 0 <= c < |row| - 1 ==> row[1..][c] == row[c + 1] && schema[1..][c] == schema[c + 1];
      var v :- Coerce(schema[0].ty, row[0]);
      var rest :- CoerceRow(schema[1..], row[1..]);
      Ok([v] + rest)
  }

  lemma {:induction false} InsertCellsCellwise(cols: seq<ColumnData>, row: Row)
    requires |row| == |cols|
    ensures InsertCells(cols, row).0 <==> forall c :: 0 <= c < |row| ==> Append(cols[c], row[c]).Ok?
    ensures InsertCells(cols, row).0 ==> forall c :: 0 <= c < |row| ==> Append(cols[c], row[c]) == Ok(InsertCells(cols, row).1[c])
    decreases |cols|
  {
    if cols != [] {
      InsertCellsCellwise(cols[1..], row[1..]);
      assert forall c :: 0 < c < |row| ==> row[c] == row[1..][c - 1] && cols[c] == cols[1..][c - 1];
      assert forall c :: 0 <= c < |row| - 1 ==> row[1..][c] == row[c + 1] && cols[1..][c] == cols[c + 1];
    }
  }

  function InsertRow(t: TableData, row: Row): (r: (bool, TableData))
    requires |row| == |t.cols|
    ensures |r.1.cols| == |t.cols| && r.1.name == t.name && r.1.schema == t.schema
  {
    var cells := InsertCells(t.cols, row);
    (cells.0, t.(cols := cells.1))
  }

  /** Each column of an accepted row shows one value more, the coerced one. */
  lemma ColumnGrows(t: TableData, row: Row, c: nat)
    requires TableOk(t) && |row| == |t.cols| && InsertRow(t, row).0 && c < |row|
    ensures CoerceRow(t.schema, row).Ok?
    ensures var t' := InsertRow(t, row).1;
            t'.cols[c].ty == t.schema[c].ty && ColumnOk(t'.cols[c])
            && Contents(t'.cols[c]) == Contents(t.cols[c]) + [CoerceRow(t.schema, row).value[c]]
  {
    InsertCellsCellwise(t.cols, row);
    forall j | 0 <= j < |row| ensures Coerce(t.schema[j].ty, row[j]).Ok? {
      AppendRefines(t.cols[j], row[j]);
    }
    AppendRefines(t.cols[c], row[c]);
  }

  /**
   A row is accepted exactly when every column can take its cell, and then the table has one row more, holding
   the coerced values, and is still rectangular.
   */
  lemma InsertRowRefines(t: TableData, row: Row)
    requires TableOk(t) && t.cols != [] && |row| == |t.cols|
    ensures InsertRow(t, row).0 <==> CoerceRow(t.schema, row).Ok?
    ensures InsertRow(t, row).0 ==> TableOk(InsertRow(t, row).1)
    ensures InsertRow(t, row).0 ==> TableRows(InsertRow(t, row).1) == TableRows(t) + [CoerceRow(t.schema, row).value]
  {
    InsertCellsCellwise(t.cols, row);
    forall c | 0 <= c < |row| ensures Append(t.cols[c], row[c]).Ok? <==> Coerce(t.schema[c].ty, row[c]).Ok? {
      AppendRefines(t.cols[c], row[c]);
    }
    if InsertRow(t, row).0 {
      InsertedRows(t, row);
    }
  }

  lemma InsertedRows(t: TableData, row: Row)
    requires TableOk(t) && t.cols != [] && |row| == |t.cols| && InsertRow(t, row).0
    ensures CoerceRow(t.schema, row).Ok? && TableOk(InsertRow(t, row).1)
    ensures TableRows(InsertRow(t, row).1) == TableRows(t) + [CoerceRow(t.schema, row).value]
  {
    var t' := InsertRow(t, row).1;
    ColumnGrows(t, row, 0);
    var added := CoerceRow(t.schema, row).value;
    forall c | 0 <= c < |row| ensures t'.cols[c].ty == t.schema[c].ty && ColumnExtends(t.cols[c], t'.cols[c], added[c]) {
      ColumnGrows(t, row, c);
    }
    RowsOfExtended(t, t', added);
  }

  predicate ColumnExtends(c: ColumnData, c': ColumnData, v: Value) {
    ColumnOk(c) && ColumnOk(c') && Contents(c') == Contents(c) + [v]
  }

  lemma RowOfExtended(t: TableData, t': TableData, added: Row, r: nat)
    requires TableOk(t) && TableOk(t') && |t'.cols| == |t.cols| == |added|
    requires r <= RowCount(t) && r < RowCount(t')
    requires forall c :: 0 <= c < |t.cols| ==> ColumnExtends(t.cols[c], t'.cols[c], added[c])
    ensures RowAt(t', r) == if r < RowCount(t) then RowAt(t, r) else added
  {
    var expected := if r < RowCount(t) then RowAt(t, r) else added;
    forall c | 0 <= c < |added| ensures RowAt(t', r)[c] == expected[c] {
      var d := t'.cols[c];
      assert ColumnExtends(t.cols[c], d, added[c]);
      assert ValueAt(d, r) == Contents(d)[r] == (Contents(t.cols[c]) + [added[c]])[r];
    }
  }

  lemma RowsOfExtended(t: TableData, t': TableData, added: Row)
    requires TableOk(t) && t.cols != [] && |t'.cols| == |t.cols| == |added| && t'.schema == t.schema
    requires forall c :: 0 <= c < |t.cols| ==> t'.cols[c].ty == t.schema[c].ty && ColumnExtends(t.cols[c], t'.cols[c], added[c])
    ensures TableOk(t') && TableRows(t') == TableRows(t) + [added]
  {
    forall c | 0 <= c < |t.cols| ensures |t'.cols[c].valid| == RowCount(t) + 1 {
      assert ColumnExtends(t.cols[c], t'.cols[c], added[c]);
      assert |Contents(t'.cols[c])| == |Contents(t.cols[c])| + 1;
    }
    forall r | 0 <= r <= RowCount(t) ensures TableRows(t')[r] == (TableRows(t) + [added])[r] {
      RowOfExtended(t, t', added, r);
    }
  }

  /** A rejected row leaves the columns before the rejecting one longer: the table is no longer rectangular. */
  lemma RejectedRowBreaksTable(name: string)
    ensures var t := NewTable(name, [ColumnDef("a", SimpleType(INT64)), ColumnDef("b", SimpleType(INT64))]);
            var r := InsertRow(t, [Int(W64, 1), Str("x")]);
            !r.0 && !TableOk(r.1)
  {
    var t := NewTable(name, [ColumnDef("a", SimpleType(INT64)), ColumnDef("b", SimpleType(INT64))]);
    var row := [Int(W64, 1), Str("x")];
    assert Append(t.cols[0], row[0]).Ok? && Append(t.cols[1], row[1]).Err?;
    assert InsertCells(t.cols[1..], row[1..]) == (false, t.cols[1..]);
    var cols := InsertCells(t.cols, row).1;
    assert cols[1] == t.cols[1] && |cols[0].valid| == 1 && |cols[1].valid| == 0;
  }
}
