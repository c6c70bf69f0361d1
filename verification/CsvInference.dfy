/** Column types of a CSV file: a widening lattice, and the table that is loaded. */
module CsvInference {
  import opened Results
  import opened Seqs
  import opened Types
  import opened RowKeys
  import opened Tables
  import opened Csv

  // ---- Recognisers ----

  predicate IsSpace(c: char) {
    c == ' ' || c == '\t' || c == '\n' || c == '\r' || c == '\U{0B}' || c == '\U{0C}'
  }

  predicate IsBlank(s: string) {
    forall i :: 0 <= i < |s| ==> IsSpace(s[i])
  }

  /** Without spaces and tabs at either end. */
  function Stripped(s: string): string {
    if s != [] && (s[0] == ' ' || s[0] == '\t') then Stripped(s[1..])
    else if s != [] && (s[|s| - 1] == ' ' || s[|s| - 1] == '\t') then Stripped(s[..|s| - 1])
    else s
  }

  function Digits(t: string): Option<nat> {
    if t != [] && forall i :: 0 <= i < |t| ==> '0' <= t[i] <= '9' then Some(ParseNat(t)) else None
  }

  /** std::from_chars into an int64, all of the text. */
  function WholeInt(t: string): Option<int> {
    var negative := t != [] && t[0] == '-';
    var n := Digits(if negative then t[1..] else t);
    if n.None? then None
    else
      var k: int := n.value;
      var i := if negative then -k else k;
      if -0x8000_0000_0000_0000 <= i < 0x8000_0000_0000_0000 then Some(i) else None
  }

  // std::stod on a whole string: None if it rejects the string or leaves a part of it.
  type Stod = string -> Option<real>

  function ParseInt(s: string): Option<int> {
    if Stripped(s) == [] then None else WholeInt(Stripped(s))
  }

  function ParseDouble(stod: Stod, s: string): Option<real> {
    if Stripped(s) == [] then None else stod(Stripped(s))
  }

  /** What the lattice relies on: a string of digits is also a double. */
  ghost predicate ReadsIntegers(stod: Stod) {
    forall t :: WholeInt(t).Some? ==> stod(t).Some?
  }

  // ---- The lattice ----

  datatype Inferred = AsInt | AsDouble | AsText

  function Rank(t: Inferred): nat {
    match t case AsInt => 0 case AsDouble => 1 case AsText => 2
  }

  /** The smallest type a cell has. */
  function Classify(stod: Stod, cell: string): Inferred {
    if ParseInt(cell).Some? then AsInt else if ParseDouble(stod, cell).Some? then AsDouble else AsText
  }

  predicate ParsesAs(stod: Stod, cell: string, t: Inferred) {
    match t
    case AsInt => ParseInt(cell).Some?
    case AsDouble => ParseDouble(stod, cell).Some?
    case AsText => true
  }

  /** One cell in the scan. */
  function Widen(stod: Stod, t: Inferred, cell: string): Inferred {
    if IsBlank(cell) || t == AsText then t
    else if t == AsInt && ParseInt(cell).Some? then AsInt
    else if ParseDouble(stod, cell).Some? then AsDouble
    else AsText
  }

  function Scan(stod: Stod, cells: seq<string>): Inferred {
    if cells == [] then AsInt else Widen(stod, Scan(stod, cells[..|cells| - 1]), cells[|cells| - 1])
  }

  predicate HasContent(cells: seq<string>) {
    exists i :: 0 <= i < |cells| && !IsBlank(cells[i])
  }

  function Infer(stod: Stod, cells: seq<string>): Inferred {
    if HasContent(cells) then Scan(stod, cells) else AsText
  }

  /** t is a type of every non-blank cell, and the smallest type of one of them. */
  ghost predicate IsLeastUpperBound(stod: Stod, cells: seq<string>, t: Inferred) {
    && (forall i :: 0 <= i < |cells| && !IsBlank(cells[i]) ==> Rank(Classify(stod, cells[i])) <= Rank(t))
    && (exists i :: 0 <= i < |cells| && !IsBlank(cells[i]) && Classify(stod, cells[i]) == t)
  }

  ghost predicate ScanBounds(stod: Stod, cells: seq<string>) {
    if HasContent(cells) then IsLeastUpperBound(stod, cells, Scan(stod, cells)) else Scan(stod, cells) == AsInt
  }

  /** Widening by one cell keeps the bound, and it stays attained. */
  lemma WidenKeepsBound(stod: Stod, cells: seq<string>, cell: string)
    requires ReadsIntegers(stod) && ScanBounds(stod, cells)
    ensures ScanBounds(stod, cells + [cell])
  {
    var all, t := cells + [cell], Scan(stod, cells);
    DropLast(cells, cell);
    ContentOneMore(cells, cell);
    var u := Widen(stod, t, cell);
    assert Scan(stod, all) == u;
    WidenIsMaximum(stod, t, cell);
    if !IsBlank(cell) && (!HasContent(cells) || u != t) {
      assert all[|cells|] == cell && Classify(stod, cell) == u;
    } else if HasContent(cells) {
      var i :| 0 <= i < |cells| && !IsBlank(cells[i]) && Classify(stod, cells[i]) == t;
      assert all[i] == cells[i];
    }
  }

  lemma WidenIsMaximum(stod: Stod, t: Inferred, cell: string)
    requires ReadsIntegers(stod)
    ensures Widen(stod, t, cell) == if !IsBlank(cell) && Rank(Classify(stod, cell)) > Rank(t) then Classify(stod, cell) else t
  {
    var s := Stripped(cell);
    assert WholeInt(s).Some? ==> stod(s).Some?;
  }

  lemma {:induction false} ScanIsBound(stod: Stod, cells: seq<string>)
    requires ReadsIntegers(stod)
    ensures ScanBounds(stod, cells)
    decreases |cells|
  {
    if cells != [] {
      var n := |cells| - 1;
      ScanIsBound(stod, cells[..n]);
      WidenKeepsBound(stod, cells[..n], cells[n]);
      PrefixSnoc(cells, n);
      WholePrefix(cells);
    }
  }

  /** With all rows scanned the inferred type is the least upper bound of the non-blank cells; text if there are none. */
  lemma InferIsLeastUpperBound(stod: Stod, cells: seq<string>)
    requires ReadsIntegers(stod)
    ensures if HasContent(cells) then IsLeastUpperBound(stod, cells, Infer(stod, cells)) else Infer(stod, cells) == AsText
  {
    ScanIsBound(stod, cells);
  }

  /** The order of the rows does not matter, nor how often a cell occurs. */
  lemma InferIgnoresOrder(stod: Stod, p: seq<string>, q: seq<string>)
    requires ReadsIntegers(stod) && forall c :: c in p <==> c in q
    ensures Infer(stod, p) == Infer(stod, q)
  {
    ScanIsBound(stod, p);
    ScanIsBound(stod, q);
    Covers(stod, p, q);
    Covers(stod, q, p);
  }

  lemma Covers(stod: Stod, p: seq<string>, q: seq<string>)
    requires forall c :: c in p ==> c in q
    ensures HasContent(p) ==> HasContent(q)
    ensures forall t, u :: IsLeastUpperBound(stod, p, t) && IsLeastUpperBound(stod, q, u) ==> Rank(t) <= Rank(u)
  {
    forall i | 0 <= i < |p| ensures exists j :: 0 <= j < |q| && q[j] == p[i] {
      assert p[i] in q;
    }
  }

  /** Every non-blank cell parses at the type of its column. */
  lemma CellsParse(stod: Stod, cells: seq<string>, i: nat)
    requires ReadsIntegers(stod) && i < |cells| && !IsBlank(cells[i])
    ensures ParsesAs(stod, cells[i], Infer(stod, cells))
  {
    ScanIsBound(stod, cells);
    var t := Stripped(cells[i]);
    assert WholeInt(t).Some? ==> stod(t).Some?;
  }

  // ---- The scan over the grid ----

  /** The cells of a column in some records; records too short for it have none. */
  function ColumnCells(records: Grid, c: nat): seq<string> {
    if records == [] then []
    else
      var n := |records| - 1;
      var before := ColumnCells(records[..n], c);
      if c < |records[n]| then before + [records[n][c]] else before
  }

  lemma {:induction false} TextStays(stod: Stod, cells: seq<string>, n: nat)
    requires n <= |cells| && Scan(stod, cells[..n]) == AsText
    ensures Scan(stod, cells) == AsText
    decreases |cells|
  {
    if n < |cells| {
      assert cells[..|cells| - 1][..n] == cells[..n];
      TextStays(stod, cells[..|cells| - 1], n);
    } else {
      WholePrefix(cells);
    }
  }

  lemma {:induction false} CellsGrow(records: Grid, c: nat, r: nat)
    requires r <= |records|
    ensures ColumnCells(records[..r], c) <= ColumnCells(records, c)
    decreases |records|
  {
    if r < |records| {
      assert records[..|records| - 1][..r] == records[..r];
      CellsGrow(records[..|records| - 1], c, r);
    } else {
      WholePrefix(records);
    }
  }

  lemma ContentOneMore(cells: seq<string>, cell: string)
    ensures HasContent(cells + [cell]) <==> HasContent(cells) || !IsBlank(cell)
  {
    if HasContent(cells) {
      var i :| 0 <= i < |cells| && !IsBlank(cells[i]);
      assert (cells + [cell])[i] == cells[i];
    }
    assert (cells + [cell])[|cells|] == cell;
  }

  /** inferColumn: stops at the first cell that only text can hold. */
  method InferColumn(stod: Stod, records: Grid, c: nat) returns (t: Inferred)
    ensures t == Infer(stod, ColumnCells(records, c))
  {
    t := AsInt;
    var sawAny := false;
    for r := 0 to |records|
      invariant t == Scan(stod, ColumnCells(records[..r], c))
      invariant sawAny <==> HasContent(ColumnCells(records[..r], c))
    {
      PrefixSnoc(records, r);
      if c < |records[r]| {
        var cell := records[r][c];
        ghost var before := ColumnCells(records[..r], c);
        DropLast(before, cell);
        ContentOneMore(before, cell);
        if !IsBlank(cell) {
          sawAny := true;
          t := Widen(stod, t, cell);
          if t == AsText {
            StopAtText(stod, records, c, r + 1);
            return;
          }
        }
      }
    }
    WholePrefix(records);
    if !sawAny {
      t := AsText;
    }
  }

  lemma StopAtText(stod: Stod, records: Grid, c: nat, r: nat)
    requires r <= |records| && Scan(stod, ColumnCells(records[..r], c)) == AsText && HasContent(ColumnCells(records[..r], c))
    ensures Infer(stod, ColumnCells(records, c)) == AsText
  {
    CellsGrow(records, c, r);
    var some, all := ColumnCells(records[..r], c), ColumnCells(records, c);
    assert all[..|some|] == some;
    TextStays(stod, all, |some|);
  }

  // ---- Loading ----

  /** The value of a cell at the type of its column. */
  function CellToValue(stod: Stod, cell: string, t: Inferred): Value
    requires IsBlank(cell) || ParsesAs(stod, cell, t)
  {
    if IsBlank(cell) then Null
    else match t
      case AsInt => Int(W64, ParseInt(cell).value)
      case AsDouble => Dbl(ParseDouble(stod, cell).value)
      case AsText => Str(cell)
  }

  function TypeFor(t: Inferred): DataType {
    SimpleType(match t case AsInt => INT64 case AsDouble => FLOAT64 case AsText => VARCHAR)
  }

  predicate Parses(stod: Stod, records: Grid, c: nat, t: Inferred) {
    forall r :: 0 <= r < |records| && c < |records[r]| ==> IsBlank(records[r][c]) || ParsesAs(stod, records[r][c], t)
  }

  /** Field c of a record, or NULL where the record is too short. */
  function RecordValue(stod: Stod, record: seq<string>, c: nat, t: Inferred): Value
    requires c < |record| ==> IsBlank(record[c]) || ParsesAs(stod, record[c], t)
  {
    if c < |record| then CellToValue(stod, record[c], t) else Null
  }

  /** One value a record, whatever the records' widths. */
  function ColumnValues(stod: Stod, records: Grid, c: nat, t: Inferred): (vs: seq<Value>)
    requires Parses(stod, records, c, t)
    ensures |vs| == |records|
  {
    seq(|records|, r requires 0 <= r < |records| => RecordValue(stod, records[r], c, t))
  }

  lemma {:induction false} CellIsListed(records: Grid, c: nat, r: nat)
    requires r < |records| && c < |records[r]|
    ensures records[r][c] in ColumnCells(records, c)
    decreases |records|
  {
    var n := |records| - 1;
    if r < n {
      CellIsListed(records[..n], c, r);
    }
  }

  lemma InferredParses(stod: Stod, records: Grid, c: nat)
    requires ReadsIntegers(stod)
    ensures Parses(stod, records, c, Infer(stod, ColumnCells(records, c)))
  {
    var cells := ColumnCells(records, c);
    forall r | 0 <= r < |records| && c < |records[r]| && !IsBlank(records[r][c])
      ensures ParsesAs(stod, records[r][c], Infer(stod, cells))
    {
      CellIsListed(records, c, r);
      var i :| 0 <= i < |cells| && cells[i] == records[r][c];
      CellsParse(stod, cells, i);
    }
  }

  /** Values of the type itself are stored and shown unchanged. */
  predicate Native(t: Inferred, v: Value) {
    v.Null? || match t case AsInt => v.Int? && v.w == W64 case AsDouble => v.Dbl? case AsText => v.Str?
  }

  lemma NativeIsKept(t: Inferred, v: Value)
    requires Native(t, v)
    ensures Coerce(TypeFor(t), v) == Ok(v)
  {
  }

  /** bulkInsertColumns for one column. */
  method AppendAll(c: ColumnData, t: Inferred, vs: seq<Value>) returns (d: ColumnData)
    requires ColumnOk(c) && c.ty == TypeFor(t) && forall i :: 0 <= i < |vs| ==> Native(t, vs[i])
    ensures ColumnOk(d) && d.ty == c.ty && Contents(d) == Contents(c) + vs
  {
    d := c;
    AddNothing(Contents(c));
    for i := 0 to |vs|
      invariant ColumnOk(d) && d.ty == c.ty && Contents(d) == Contents(c) + vs[..i]
    {
      NativeIsKept(t, vs[i]);
      AppendRefines(d, vs[i]);
      TakeOneMore(Contents(c), vs, i);
      d := Append(d, vs[i]).value;
    }
    WholePrefix(vs);
  }

  /** The values of one column of the file. */
  method ReadColumn(stod: Stod, records: Grid, c: nat, t: Inferred) returns (vs: seq<Value>)
    requires Parses(stod, records, c, t)
    ensures vs == ColumnValues(stod, records, c, t)
    ensures forall i :: 0 <= i < |vs| ==> Native(t, vs[i])
  {
    vs := [];
    for r := 0 to |records|
      invariant |vs| == r && forall j :: 0 <= j < r ==> vs[j] == RecordValue(stod, records[j], c, t) && Native(t, vs[j])
    {
      vs := vs + [RecordValue(stod, records[r], c, t)];
    }
  }

  /** What loading the records under these column names gives. */
  ghost predicate Loaded(stod: Stod, records: Grid, names: seq<string>, t: TableData) {
    && TableOk(t) && |t.cols| == |names|
    && (names != [] ==> RowCount(t) == |records|)
    && forall c :: 0 <= c < |names| ==> LoadedColumn(stod, records, c, t.schema[c].ty, t.cols[c])
  }

  ghost predicate LoadedColumn(stod: Stod, records: Grid, c: nat, ty: DataType, col: ColumnData) {
    var k := Infer(stod, ColumnCells(records, c));
    Parses(stod, records, c, k) && ty == TypeFor(k) == col.ty && ColumnOk(col) && Contents(col) == ColumnValues(stod, records, c, k)
  }

  function ColumnName(names: seq<string>, c: nat): string
    requires c < |names|
  {
    if names[c] == "" then "col" + NatToString(c + 1) else names[c]
  }

  /**
   Loads the data records column by column: every column has the inferred type and one value for each record, short
   records giving NULL and long ones losing what is beyond the header.
   */
  method LoadRecords(stod: Stod, records: Grid, names: seq<string>, name: string) returns (t: TableData)
    requires ReadsIntegers(stod)
    ensures Loaded(stod, records, names, t)
  {
    var schema: Schema, cols: seq<ColumnData> := [], [];
    for c := 0 to |names|
      invariant |schema| == |cols| == c
      invariant forall j :: 0 <= j < c ==> LoadedColumn(stod, records, j, schema[j].ty, cols[j])
    {
      var k := InferColumn(stod, records, c);
      InferredParses(stod, records, c);
      var vs := ReadColumn(stod, records, c, k);
      var empty := NewColumn(TypeFor(k));
      assert Contents(empty) == [];
      var col := AppendAll(empty, k, vs);
      AddNothing(vs);
      schema := schema + [ColumnDef(ColumnName(names, c), TypeFor(k))];
      cols := cols + [col];
    }
    t := TableData(name, schema, cols);
    forall c | 0 <= c < |cols| ensures t.cols[c].ty == t.schema[c].ty && ColumnOk(t.cols[c]) && |t.cols[c].valid| == |records| {
      assert LoadedColumn(stod, records, c, schema[c].ty, cols[c]);
    }
  }

  function Header(grid: Grid, hasHeader: bool): seq<string>
    requires grid != []
  {
    if hasHeader then grid[0] else seq(|grid[0]|, c requires 0 <= c < |grid[0]| => "col" + NatToString(c + 1))
  }

  /** readCsvString, all rows scanned for the types. */
  method ReadCsvString(stod: Stod, text: string, name: string, opts: Options, hasHeader: bool) returns (r: Result<TableData>)
    requires ReadsIntegers(stod)
    ensures var grid := ParseGrid(text, opts);
            r.Ok? <==> grid != [] && grid[0] != []
    ensures var grid := ParseGrid(text, opts);
            r.Ok? ==> Loaded(stod, if hasHeader then grid[1..] else grid, Header(grid, hasHeader), r.value)
  {
    var grid := ReadGrid(text, opts);
    if grid == [] || grid[0] == [] { return Err; }
    var t := LoadRecords(stod, if hasHeader then grid[1..] else grid, Header(grid, hasHeader), name);
    r := Ok(t);
  }
}
