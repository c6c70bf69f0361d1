/** The database file: its format as encoding and decoding functions, and what saving and loading promise. */
module Persistence {
  import opened Results
  import opened Seqs
  import opened Types
  import opened Bytes
  import opened Tables

  /** A column as it is kept: its typed buffer, the validity words, doubles as bit patterns, strings as bytes. */
  datatype SavedColumn = SavedColumn(words: seq<nat>, i64: seq<int>, f64: seq<nat>, str: seq<seq<Byte>>)

  datatype SavedField = SavedField(name: seq<Byte>, ty: DataType)

  datatype SavedTable = SavedTable(name: seq<Byte>, fields: seq<SavedField>, rows: nat, cols: seq<SavedColumn>)

  const MAGIC: seq<Byte> := [76, 81, 68, 66]  // "LQDB"
  const VERSION: nat := 1

  // ---- Column types ----

  function FlagByte(b: bool): seq<Byte> {
    U8(if b then 1 else 0)
  }

  /** A 32-bit two's complement number. */
  function ToU32(i: int): nat {
    if i < 0 then (i + 0x1_0000_0000) % 0x1_0000_0000 else i
  }

  function ToInt32(w: nat): int {
    if w < 0x8000_0000 then w else w - 0x1_0000_0000
  }

  function WriteType(t: DataType): seq<Byte> {
    U32(t.id) + (FlagByte(t.nullable) + (U8(t.scale) + (U8(t.precision) + U32(ToU32(t.maxLength)))))
  }

  /** The type code is cut to the eight bits of the enumeration. */
  function ReadType(bs: seq<Byte>): Result<(DataType, seq<Byte>)> {
    var id :- ReadU32(bs);
    var nullable :- ReadU8(id.1);
    var scale :- ReadU8(nullable.1);
    var precision :- ReadU8(scale.1);
    var maxLength :- ReadU32(precision.1);
    Ok((DataType(id.0 % 256, nullable.0 != 0, scale.0, precision.0, ToInt32(maxLength.0)), maxLength.1))
  }

  predicate TypeFits(t: DataType) {
    t.scale < 256 && t.precision < 256 && -0x8000_0000 <= t.maxLength < 0x8000_0000
  }

  function WriteField(f: SavedField): seq<Byte> {
    Text(f.name) + WriteType(f.ty)
  }

  function ReadField(bs: seq<Byte>): Result<(SavedField, seq<Byte>)> {
    var name :- ReadText(bs);
    var ty :- ReadType(name.1);
    Ok((SavedField(name.0, ty.0), ty.1))
  }

  predicate FieldFits(f: SavedField) {
    ShortText(f.name) && TypeFits(f.ty)
  }

  // ---- Columns ----

  function WriteData(kind: Kind, c: SavedColumn): seq<Byte> {
    match kind
    case Int64 => Many(I64, c.i64)
    case Double => Many(U64, c.f64)
    case String => Many(Text, c.str)
  }

  /** Only the buffer of the column's kind is written. */
  function WriteColumn(kind: Kind, c: SavedColumn): seq<Byte> {
    List(U64, c.words) + WriteData(kind, c)
  }

  function ReadData(kind: Kind, rows: nat, words: seq<nat>, bs: seq<Byte>): Result<(SavedColumn, seq<Byte>)> {
    match kind
    case Int64 =>
      var data :- ReadMany(ReadI64, rows, bs);
      Ok((SavedColumn(words, data.0, [], []), data.1))
    case Double =>
      var data :- ReadMany(ReadU64, rows, bs);
      Ok((SavedColumn(words, [], data.0, []), data.1))
    case String =>
      var data :- ReadMany(ReadText, rows, bs);
      Ok((SavedColumn(words, [], [], data.0), data.1))
  }

  function ReadColumn(kind: Kind, rows: nat, bs: seq<Byte>): Result<(SavedColumn, seq<Byte>)> {
    var words :- ReadList(ReadU64, bs);
    ReadData(kind, rows, words.0, words.1)
  }

  /** A column of the kind its type says, with one value a row and nothing in the other buffers. */
  predicate ColumnFits(kind: Kind, rows: nat, c: SavedColumn) {
    && ShortList(c.words, IsWord)
    && match kind
       case Int64 => |c.i64| == rows && c.f64 == [] && c.str == [] && forall i :: 0 <= i < rows ==> FitsInt64(c.i64[i])
       case Double => |c.f64| == rows && c.i64 == [] && c.str == [] && forall i :: 0 <= i < rows ==> IsWord(c.f64[i])
       case String => |c.str| == rows && c.i64 == [] && c.f64 == [] && forall i :: 0 <= i < rows ==> ShortText(c.str[i])
  }

  function WriteColumns(fields: seq<SavedField>, cols: seq<SavedColumn>): seq<Byte>
    requires |fields| == |cols|
  {
    if cols == [] then [] else WriteColumn(KindOf(fields[0].ty.id), cols[0]) + WriteColumns(fields[1..], cols[1..])
  }

  function ReadColumns(fields: seq<SavedField>, rows: nat, bs: seq<Byte>): (r: Result<(seq<SavedColumn>, seq<Byte>)>)
    ensures r.Ok? ==> |r.value.0| == |fields|
  {
    if fields == [] then Ok(([], bs))
    else
      var c :- ReadColumn(KindOf(fields[0].ty.id), rows, bs);
      var cs :- ReadColumns(fields[1..], rows, c.1);
      Ok(([c.0] + cs.0, cs.1))
  }

  // ---- Tables ----

  predicate TableFits(t: SavedTable) {
    && ShortText(t.name) && ShortList(t.fields, FieldFits) && t.rows < 0x1_0000_0000_0000_0000
    && |t.cols| == |t.fields|
    && forall i :: 0 <= i < |t.cols| ==> ColumnFits(KindOf(t.fields[i].ty.id), t.rows, t.cols[i])
  }

  function WriteTable(t: SavedTable): seq<Byte> {
    Text(t.name) + (List(WriteField, t.fields) + (U64(t.rows) + if |t.fields| == |t.cols| then WriteColumns(t.fields, t.cols) else []))
  }

  function ReadTable(bs: seq<Byte>): Result<(SavedTable, seq<Byte>)> {
    var name :- ReadText(bs);
    var fields :- ReadList(ReadField, name.1);
    var rows :- ReadU64(fields.1);
    var cols :- ReadColumns(fields.0, rows.0, rows.1);
    Ok((SavedTable(name.0, fields.0, rows.0, cols.0), cols.1))
  }

  // ---- Files ----

  function Encode(ts: seq<SavedTable>): seq<Byte> {
    MAGIC + (U32(VERSION) + List(WriteTable, ts))
  }

  function Decode(bs: seq<Byte>): Result<(seq<SavedTable>, seq<Byte>)> {
    var magic :- ReadBytes(4, bs);
    if magic.0 != MAGIC then Err
    else
      var version :- ReadU32(magic.1);
      if version.0 > VERSION then Err else ReadList(ReadTable, version.1)
  }

  // ---- Decoding undoes encoding ----

  lemma TypeBack(t: DataType, rest: seq<Byte>)
    requires TypeFits(t)
    ensures ReadType(WriteType(t) + rest) == Ok((t, rest))
  {
    NumbersBack();
    var e := U32(ToU32(t.maxLength)) + rest;
    var d := U8(t.precision) + e;
    var c := U8(t.scale) + d;
    var b := FlagByte(t.nullable) + c;
    assert WriteType(t) + rest == U32(t.id) + b;
    assert Undoes(ReadU32, t.id, U32(t.id), b);
    assert Undoes(ReadU8, if t.nullable then 1 else 0, FlagByte(t.nullable), c);
    assert Undoes(ReadU8, t.scale, U8(t.scale), d);
    assert Undoes(ReadU8, t.precision, U8(t.precision), e);
    assert Undoes(ReadU32, ToU32(t.maxLength), U32(ToU32(t.maxLength)), rest);
  }

  lemma FieldsBack()
    ensures Inverse(WriteField, ReadField, FieldFits)
  {
    TextBack();
    forall f: SavedField, rest: seq<Byte> | FieldFits(f) ensures Undoes(ReadField, f, WriteField(f), rest) {
      Regroup(Text(f.name), WriteType(f.ty), rest);
      assert Undoes(ReadText, f.name, Text(f.name), WriteType(f.ty) + rest);
      TypeBack(f.ty, rest);
    }
  }

  lemma DataBack(kind: Kind, rows: nat, c: SavedColumn, rest: seq<Byte>)
    requires ColumnFits(kind, rows, c)
    ensures ReadData(kind, rows, c.words, WriteData(kind, c) + rest) == Ok((c, rest))
  {
    NumbersBack();
    SignedBack();
    TextBack();
    match kind
    case Int64 => ManyBack(I64, ReadI64, FitsInt64, c.i64, rest);
    case Double => ManyBack(U64, ReadU64, IsWord, c.f64, rest);
    case String => ManyBack(Text, ReadText, ShortText, c.str, rest);
  }

  lemma ColumnBack(kind: Kind, rows: nat, c: SavedColumn, rest: seq<Byte>)
    requires ColumnFits(kind, rows, c)
    ensures ReadColumn(kind, rows, WriteColumn(kind, c) + rest) == Ok((c, rest))
  {
    NumbersBack();
    Regroup(List(U64, c.words), WriteData(kind, c), rest);
    ListBack(U64, ReadU64, IsWord, c.words, WriteData(kind, c) + rest);
    DataBack(kind, rows, c, rest);
  }

  lemma {:induction false} ColumnsBack(fields: seq<SavedField>, rows: nat, cols: seq<SavedColumn>, rest: seq<Byte>)
    requires |fields| == |cols| && forall i :: 0 <= i < |cols| ==> ColumnFits(KindOf(fields[i].ty.id), rows, cols[i])
    ensures ReadColumns(fields, rows, WriteColumns(fields, cols) + rest) == Ok((cols, rest))
    decreases |cols|
  {
    if cols == [] {
      AddNothing(rest);
    } else {
      var more := WriteColumns(fields[1..], cols[1..]);
      var kind := KindOf(fields[0].ty.id);
      ColumnsBack(fields[1..], rows, cols[1..], rest);
      Regroup(WriteColumn(kind, cols[0]), more, rest);
      ColumnBack(kind, rows, cols[0], more + rest);
      ColumnsJoin(fields, rows, cols[0], cols[1..], WriteColumns(fields, cols) + rest, more + rest, rest);
      SplitFirst(cols);
    }
  }

  lemma ColumnsJoin(fields: seq<SavedField>, rows: nat, c: SavedColumn, cs: seq<SavedColumn>, bs: seq<Byte>, more: seq<Byte>, rest: seq<Byte>)
    requires fields != [] && ReadColumn(KindOf(fields[0].ty.id), rows, bs) == Ok((c, more))
    requires ReadColumns(fields[1..], rows, more) == Ok((cs, rest))
    ensures ReadColumns(fields, rows, bs) == Ok(([c] + cs, rest))
  {
  }

  lemma TableBack(t: SavedTable, rest: seq<Byte>)
    requires TableFits(t)
    ensures ReadTable(WriteTable(t) + rest) == Ok((t, rest))
  {
    TextBack();
    NumbersBack();
    FieldsBack();
    var c := WriteColumns(t.fields, t.cols) + rest;
    var b := U64(t.rows) + c;
    var a := List(WriteField, t.fields) + b;
    assert WriteTable(t) + rest == Text(t.name) + a;
    assert Undoes(ReadText, t.name, Text(t.name), a);
    ListBack(WriteField, ReadField, FieldFits, t.fields, b);
    assert Undoes(ReadU64, t.rows, U64(t.rows), c);
    ColumnsBack(t.fields, t.rows, t.cols, rest);
  }

  lemma TablesBack()
    ensures Inverse(WriteTable, ReadTable, TableFits)
  {
    forall t: SavedTable, rest: seq<Byte> | TableFits(t) ensures Undoes(ReadTable, t, WriteTable(t), rest) {
      TableBack(t, rest);
    }
  }

  /** Decoding an encoded database gives exactly its tables, and leaves exactly what was added behind. */
  lemma DatabaseRoundTrip(ts: seq<SavedTable>, rest: seq<Byte>)
    requires ShortList(ts, TableFits)
    ensures Decode(Encode(ts) + rest) == Ok((ts, rest))
  {
    NumbersBack();
    TablesBack();
    var tail := List(WriteTable, ts) + rest;
    var body := U32(VERSION) + tail;
    assert Encode(ts) + rest == MAGIC + body;
    assert (MAGIC + body)[..4] == MAGIC && (MAGIC + body)[4..] == body;
    assert Undoes(ReadU32, VERSION, U32(VERSION), tail);
    ListBack(WriteTable, ReadTable, TableFits, ts, rest);
  }

  // ---- A cut file is rejected ----

  lemma TypeExtends(p: seq<Byte>, s: seq<Byte>)
    requires ReadType(p).Ok?
    ensures ReadType(p + s) == Ok((ReadType(p).value.0, ReadType(p).value.1 + s))
  {
    NumbersStable();
    var a := ReadU32(p).value.1;
    var b := ReadU8(a).value.1;
    var c := ReadU8(b).value.1;
    var d := ReadU8(c).value.1;
    assert Extends(ReadU32, p, s) && Extends(ReadU8, a, s) && Extends(ReadU8, b, s) && Extends(ReadU8, c, s) && Extends(ReadU32, d, s);
  }

  lemma FieldStable()
    ensures Stable(ReadField)
  {
    TextStable();
    forall p, s ensures Extends(ReadField, p, s) {
      assert Extends(ReadText, p, s);
      if ReadField(p).Ok? {
        TypeExtends(ReadText(p).value.1, s);
      }
    }
  }

  lemma ColumnExtends(kind: Kind, rows: nat, p: seq<Byte>, s: seq<Byte>)
    requires ReadColumn(kind, rows, p).Ok?
    ensures ReadColumn(kind, rows, p + s) == Ok((ReadColumn(kind, rows, p).value.0, ReadColumn(kind, rows, p).value.1 + s))
  {
    NumbersStable();
    TextStable();
    ListExtend(ReadU64, p, s);
    var q := ReadList(ReadU64, p).value.1;
    match kind
    case Int64 => ManyExtend(ReadI64, rows, q, s);
    case Double => ManyExtend(ReadU64, rows, q, s);
    case String => ManyExtend(ReadText, rows, q, s);
  }

  lemma {:induction false} ColumnsExtend(fields: seq<SavedField>, rows: nat, p: seq<Byte>, s: seq<Byte>)
    requires ReadColumns(fields, rows, p).Ok?
    ensures ReadColumns(fields, rows, p + s) == Ok((ReadColumns(fields, rows, p).value.0, ReadColumns(fields, rows, p).value.1 + s))
    decreases |fields|
  {
    if fields != [] {
      var kind := KindOf(fields[0].ty.id);
      ColumnExtends(kind, rows, p, s);
      ColumnsExtend(fields[1..], rows, ReadColumn(kind, rows, p).value.1, s);
    }
  }

  lemma TableStable()
    ensures Stable(ReadTable)
  {
    TextStable();
    FieldStable();
    NumbersStable();
    forall p, s ensures Extends(ReadTable, p, s) {
      if ReadTable(p).Ok? {
        assert Extends(ReadText, p, s);
        var a := ReadText(p).value.1;
        ListExtend(ReadField, a, s);
        var fields := ReadList(ReadField, a).value;
        assert Extends(ReadU64, fields.1, s);
        var rows := ReadU64(fields.1).value;
        ColumnsExtend(fields.0, rows.0, rows.1, s);
      }
    }
  }

  lemma DecodeExtends(p: seq<Byte>, s: seq<Byte>)
    requires Decode(p).Ok?
    ensures Decode(p + s) == Ok((Decode(p).value.0, Decode(p).value.1 + s))
  {
    NumbersStable();
    TableStable();
    BytesExtend(4, p, s);
    var a := ReadBytes(4, p).value.1;
    assert Extends(ReadU32, a, s);
    ListExtend(ReadTable, ReadU32(a).value.1, s);
  }

  lemma AcceptedIsWhole(ts: seq<SavedTable>, p: seq<Byte>)
    requires ShortList(ts, TableFits) && p <= Encode(ts) && Decode(p).Ok?
    ensures p == Encode(ts)
  {
    var s := Encode(ts)[|p|..];
    assert p + s == Encode(ts) == Encode(ts) + [];
    DecodeExtends(p, s);
    DatabaseRoundTrip(ts, []);
    var left := Decode(p).value.1;
    assert |left + s| == |left| + |s|;
  }

  /** Of the prefixes of a saved file only the whole file is accepted. */
  lemma OnlyWholeFileLoads(ts: seq<SavedTable>, p: seq<Byte>)
    requires ShortList(ts, TableFits) && p <= Encode(ts)
    ensures Decode(p).Ok? <==> p == Encode(ts)
  {
    if Decode(p).Ok? {
      AcceptedIsWhole(ts, p);
    } else {
      DatabaseRoundTrip(ts, []);
      AddNothing(Encode(ts));
    }
  }

  /** A file of a newer version is rejected, whatever follows. */
  lemma NewerVersionRejected(version: nat, rest: seq<Byte>)
    requires version < 0x1_0000_0000
    ensures Decode(MAGIC + (U32(version) + rest)).Ok? ==> version <= VERSION
  {
    NumbersBack();
    var body := U32(version) + rest;
    assert (MAGIC + body)[..4] == MAGIC && (MAGIC + body)[4..] == body;
    assert Undoes(ReadU32, version, U32(version), rest);
  }

  // ---- Catalogs ----

  type SavedCatalog = map<seq<Byte>, SavedTable>

  /** Each table is kept under its own name. */
  ghost predicate WellNamed(cat: SavedCatalog) {
    forall n :: n in cat ==> cat[n].name == n
  }

  /** The names in some order, each once: what iterating over the catalog yields. */
  ghost predicate Enumerates(names: seq<seq<Byte>>, cat: SavedCatalog) {
    && (forall n :: n in names <==> n in cat)
    && forall i, j :: 0 <= i < j < |names| ==> names[i] != names[j]
  }

  function Named(cat: SavedCatalog, names: seq<seq<Byte>>): (ts: seq<SavedTable>)
    requires forall n :: n in names ==> n in cat
    ensures |ts| == |names| && forall i :: 0 <= i < |ts| ==> ts[i] == cat[names[i]]
  {
    seq(|names|, i requires 0 <= i < |names| => cat[names[i]])
  }

  /** Registers the tables one after the other; a later one replaces one of the same name. */
  function Register(cat: SavedCatalog, ts: seq<SavedTable>): SavedCatalog {
    if ts == [] then cat
    else
      var n := |ts| - 1;
      Register(cat, ts[..n])[ts[n].name := ts[n]]
  }

  lemma {:induction false} RegisterNamed(cat: SavedCatalog, into: SavedCatalog, names: seq<seq<Byte>>)
    requires WellNamed(cat) && forall n :: n in names ==> n in cat
    ensures var r := Register(into, Named(cat, names));
            (forall n :: n in r <==> n in into || n in names)
            && forall n :: n in r ==> r[n] == if n in names then cat[n] else into[n]
    decreases |names|
  {
    if names != [] {
      var k := |names| - 1;
      RegisterNamed(cat, into, names[..k]);
      assert Named(cat, names)[..k] == Named(cat, names[..k]);
      assert names == names[..k] + [names[k]];
    }
  }

  /** Registering a whole catalog, in whatever order, is map override. */
  lemma RegisterIsOverride(cat: SavedCatalog, into: SavedCatalog, names: seq<seq<Byte>>)
    requires WellNamed(cat) && Enumerates(names, cat)
    ensures Register(into, Named(cat, names)) == into + cat
  {
    RegisterNamed(cat, into, names);
  }

  function LoadInto(into: SavedCatalog, file: seq<Byte>): Result<SavedCatalog> {
    var ts :- Decode(file);
    Ok(Register(into, ts.0))
  }

  /**
   Loading a saved database into an empty catalog restores every table exactly, whatever the order in which the
   tables were written; loading it into another catalog replaces the tables of the same names and keeps the others.
   */
  lemma LoadRestores(cat: SavedCatalog, into: SavedCatalog, names: seq<seq<Byte>>)
    requires WellNamed(cat) && Enumerates(names, cat) && ShortList(Named(cat, names), TableFits)
    ensures LoadInto(into, Encode(Named(cat, names))) == Ok(into + cat)
    ensures LoadInto(map[], Encode(Named(cat, names))) == Ok(cat)
  {
    hide Decode, Encode, Register;
    var ts := Named(cat, names);
    DatabaseRoundTrip(ts, []);
    AddNothing(Encode(ts));
    RegisterIsOverride(cat, into, names);
    RegisterIsOverride(cat, map[], names);
    assert map[] + cat == cat;
  }
}
