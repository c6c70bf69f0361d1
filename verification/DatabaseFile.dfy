/** Saving and loading: a writer that appends to a byte stream and a reader that moves along one. */
module DatabaseFile {
  import opened Results
  import opened Seqs
  import opened Types
  import opened Bytes
  import opened Tables
  import opened Persistence

  // ---- Lists, element by element ----

  lemma {:induction false} ManySnoc<T>(write: T -> seq<Byte>, xs: seq<T>, x: T)
    ensures Many(write, xs + [x]) == Many(write, xs) + write(x)
    decreases |xs|
  {
    if xs == [] {
      assert ([] + [x])[1..] == [];
      AddNothing(write(x));
    } else {
      assert (xs + [x])[1..] == xs[1..] + [x];
      ManySnoc(write, xs[1..], x);
      Regroup(write(xs[0]), Many(write, xs[1..]), write(x));
    }
  }

  lemma ManyStep<T>(start: seq<Byte>, write: T -> seq<Byte>, xs: seq<T>, i: nat)
    requires i < |xs|
    ensures start + Many(write, xs[..i + 1]) == start + Many(write, xs[..i]) + write(xs[i])
  {
    PrefixSnoc(xs, i);
    ManySnoc(write, xs[..i], xs[i]);
    Regroup(start, Many(write, xs[..i]), write(xs[i]));
  }

  ghost function Behind<T>(list: seq<T>, r: Result<(seq<T>, seq<Byte>)>): Result<(seq<T>, seq<Byte>)> {
    match r
    case Err => Err
    case Ok(p) => Ok((list + p.0, p.1))
  }

  lemma ReadManyStep<T>(read: Reader<T>, list: seq<T>, n: nat, bs: seq<Byte>)
    ensures n == 0 ==> Behind(list, ReadMany(read, n, bs)) == Ok((list, bs))
    ensures n > 0 ==> Behind(list, ReadMany(read, n, bs)) == (match read(bs)
                                                              case Err => Err
                                                              case Ok(x) => Behind(list + [x.0], ReadMany(read, n - 1, x.1)))
  {
    AddNothing(list);
    if n > 0 && read(bs).Ok? {
      var x := read(bs).value;
      var more := ReadMany(read, n - 1, x.1);
      if more.Ok? {
        Regroup(list, [x.0], more.value.0);
      }
    }
  }

  lemma BehindNothing<T>(r: Result<(seq<T>, seq<Byte>)>)
    ensures Behind([], r) == r
  {
    if r.Ok? { AddNothing(r.value.0); }
  }

  // ---- Writer ----

  function LowByte(v: nat): Byte {
    v % 256
  }

  lemma LowStep(v: nat, n: nat)
    requires n > 0
    ensures Low(v, n) == [LowByte(v)] + Low(v / 256, n - 1)
  {
  }

  class Writer {
    var out: seq<Byte>

    constructor ()
      ensures out == []
    {
      out := [];
    }

    method Bytes(bs: seq<Byte>)
      modifies this
      ensures out == old(out) + bs
    {
      out := out + bs;
    }

    /** The n low bytes of v, least significant first. */
    method Number(v: nat, n: nat)
      modifies this
      ensures out == old(out) + Low(v, n)
    {
      var b: seq<Byte>, rest: nat := [], v;
      AddNothing(Low(v, n));
      for i := 0 to n
        invariant out == old(out) && b + Low(rest, n - i) == Low(v, n)
      {
        LowStep(rest, n - i);
        Regroup(b, [LowByte(rest)], Low(rest / 256, n - i - 1));
        b, rest := b + [LowByte(rest)], rest / 256;
      }
      AddNothing(b);
      Bytes(b);
    }

    method Signed(i: int)
      modifies this
      ensures out == old(out) + I64(i)
    {
      Number(ToWord(i), 8);
    }

    method PutText(s: seq<Byte>)
      modifies this
      ensures out == old(out) + Text(s)
    {
      Regroup(out, U64(|s|), s);
      Number(|s|, 8);
      if s != [] {
        Bytes(s);
      } else {
        AddNothing(out);
      }
    }

    method Type(t: DataType)
      modifies this
      ensures out == old(out) + WriteType(t)
    {
      ghost var start := out;
      Number(t.id, 4);
      Number(if t.nullable then 1 else 0, 1);
      Number(t.scale, 1);
      Number(t.precision, 1);
      Number(ToU32(t.maxLength), 4);
      assert out == start + WriteType(t);
    }

    method Fields(fs: seq<SavedField>)
      modifies this
      ensures out == old(out) + List(WriteField, fs)
    {
      ghost var start := out + U64(|fs|);
      Number(|fs|, 8);
      AddNothing(start);
      for i := 0 to |fs|
        invariant out == start + Many(WriteField, fs[..i])
      {
        ManyStep(start, WriteField, fs, i);
        Regroup(out, Text(fs[i].name), WriteType(fs[i].ty));
        PutText(fs[i].name);
        Type(fs[i].ty);
      }
      WholePrefix(fs);
      Regroup(old(out), U64(|fs|), Many(WriteField, fs));
    }

    method Words(ws: seq<nat>)
      modifies this
      ensures out == old(out) + List(U64, ws)
    {
      Regroup(out, U64(|ws|), Many(U64, ws));
      Number(|ws|, 8);
      Numbers(ws);
    }

    method Numbers(ws: seq<nat>)
      modifies this
      ensures out == old(out) + Many(U64, ws)
    {
      ghost var start := out;
      AddNothing(start);
      for i := 0 to |ws|
        invariant out == start + Many(U64, ws[..i])
      {
        ManyStep(start, U64, ws, i);
        Number(ws[i], 8);
      }
      WholePrefix(ws);
    }

    /** The typed buffer of the column's kind. */
    method Data(kind: Kind, c: SavedColumn)
      modifies this
      ensures out == old(out) + WriteData(kind, c)
    {
      ghost var start := out;
      AddNothing(start);
      match kind {
        case Int64 =>
          for i := 0 to |c.i64|
            invariant out == start + Many(I64, c.i64[..i])
          {
            ManyStep(start, I64, c.i64, i);
            Signed(c.i64[i]);
          }
          WholePrefix(c.i64);
        case Double => Numbers(c.f64);
        case String =>
          for i := 0 to |c.str|
            invariant out == start + Many(Text, c.str[..i])
          {
            ManyStep(start, Text, c.str, i);
            PutText(c.str[i]);
          }
          WholePrefix(c.str);
      }
    }

    method Columns(fs: seq<SavedField>, cs: seq<SavedColumn>)
      requires |fs| == |cs|
      modifies this
      ensures out == old(out) + WriteColumns(fs, cs)
    {
      ghost var all := out + WriteColumns(fs, cs);
      for i := 0 to |cs|
        invariant out + WriteColumns(fs[i..], cs[i..]) == all
      {
        var kind := KindOf(fs[i].ty.id);
        ColumnFirst(out, fs, cs, i);
        Words(cs[i].words);
        Data(kind, cs[i]);
      }
      AddNothing(out);
    }

    method Table(t: SavedTable)
      requires |t.fields| == |t.cols|
      modifies this
      ensures out == old(out) + WriteTable(t)
    {
      ghost var start := out;
      PutText(t.name);
      Fields(t.fields);
      Number(t.rows, 8);
      Columns(t.fields, t.cols);
      TableParts(start, t);
    }

    /** saveDatabase: magic, version, and every table. */
    method Save(ts: seq<SavedTable>)
      requires forall t :: t in ts ==> |t.fields| == |t.cols|
      modifies this
      ensures out == old(out) + Encode(ts)
    {
      Bytes(MAGIC);
      Number(VERSION, 4);
      Number(|ts|, 8);
      ghost var start := out;
      AddNothing(start);
      for i := 0 to |ts|
        invariant out == start + Many(WriteTable, ts[..i])
      {
        ManyStep(start, WriteTable, ts, i);
        Table(ts[i]);
      }
      WholePrefix(ts);
      FileParts(old(out), ts);
    }
  }

  lemma ColumnFirst(out: seq<Byte>, fs: seq<SavedField>, cs: seq<SavedColumn>, i: nat)
    requires |fs| == |cs| && i < |cs|
    ensures var c, kind := cs[i], KindOf(fs[i].ty.id);
            out + WriteColumns(fs[i..], cs[i..]) == out + List(U64, c.words) + WriteData(kind, c) + WriteColumns(fs[i + 1..], cs[i + 1..])
  {
    assert fs[i..][1..] == fs[i + 1..] && cs[i..][1..] == cs[i + 1..];
    var c, kind := cs[i], KindOf(fs[i].ty.id);
    Regroup(out, WriteColumn(kind, c), WriteColumns(fs[i + 1..], cs[i + 1..]));
    Regroup(out, List(U64, c.words), WriteData(kind, c));
  }

  lemma TableParts(start: seq<Byte>, t: SavedTable)
    requires |t.fields| == |t.cols|
    ensures start + Text(t.name) + List(WriteField, t.fields) + U64(t.rows) + WriteColumns(t.fields, t.cols) == start + WriteTable(t)
  {
    Regroup5(start, Text(t.name), List(WriteField, t.fields), U64(t.rows), WriteColumns(t.fields, t.cols));
  }

  lemma FileParts(start: seq<Byte>, ts: seq<SavedTable>)
    ensures start + MAGIC + U32(VERSION) + U64(|ts|) + Many(WriteTable, ts) == start + Encode(ts)
  {
    Regroup5(start, MAGIC, U32(VERSION), U64(|ts|), Many(WriteTable, ts));
  }

  // ---- Reader ----

  class FileReader {
    const data: seq<Byte>
    var pos: nat

    /** The bytes from the position on. */
    ghost var rest: seq<Byte>

    constructor (file: seq<Byte>)
      ensures data == file && Valid() && rest == file
    {
      data, pos, rest := file, 0, file;
    }

    ghost predicate Valid()
      reads this
    {
      pos <= |data| && rest == data[pos..]
    }

    /** A method's result is what the specification reads, and the position is where it stops. */
    ghost predicate Answers<T>(r: Result<T>, spec: Result<(T, seq<Byte>)>)
      reads this
    {
      match spec
      case Err => r.Err?
      case Ok(p) => r == Ok(p.0) && rest == p.1
    }

    method Take(n: nat) returns (r: Result<seq<Byte>>)
      requires Valid()
      modifies this
      ensures Valid() && Answers(r, ReadBytes(n, old(rest)))
    {
      if pos + n > |data| { return Err; }
      r := Ok(data[pos..pos + n]);
      assert data[pos..pos + n] == rest[..n] && data[pos + n..] == rest[n..];
      pos, rest := pos + n, rest[n..];
    }

    /** A little-endian number of n bytes. */
    method Number(n: nat) returns (r: Result<nat>)
      requires Valid()
      modifies this
      ensures Valid() && Answers(r, ReadNumber(n, old(rest)))
    {
      var b := Take(n);
      if b.Err? { return Err; }
      var v := SumBytes(b.value);
      r := Ok(v);
    }

    method Signed() returns (r: Result<int>)
      requires Valid()
      modifies this
      ensures Valid() && Answers(r, ReadI64(old(rest)))
    {
      var w := Number(8);
      r := if w.Ok? then Ok(ToSigned(w.value)) else Err;
    }

    method TakeText() returns (r: Result<seq<Byte>>)
      requires Valid()
      modifies this
      ensures Valid() && Answers(r, ReadText(old(rest)))
    {
      var n := Number(8);
      if n.Err? { return Err; }
      r := Take(n.value);
    }

    method Type() returns (r: Result<DataType>)
      requires Valid()
      modifies this
      ensures Valid() && Answers(r, ReadType(old(rest)))
    {
      var id := Number(4);
      if id.Err? { return Err; }
      var nullable := Number(1);
      if nullable.Err? { return Err; }
      var scale := Number(1);
      if scale.Err? { return Err; }
      var precision := Number(1);
      if precision.Err? { return Err; }
      var maxLength := Number(4);
      if maxLength.Err? { return Err; }
      r := Ok(DataType(id.value % 256, nullable.value != 0, scale.value, precision.value, ToInt32(maxLength.value)));
    }

    method Field() returns (r: Result<SavedField>)
      requires Valid()
      modifies this
      ensures Valid() && Answers(r, ReadField(old(rest)))
    {
      var name := TakeText();
      if name.Err? { return Err; }
      var ty := Type();
      r := if ty.Ok? then Ok(SavedField(name.value, ty.value)) else Err;
    }

    method Fields() returns (r: Result<seq<SavedField>>)
      requires Valid()
      modifies this
      ensures Valid() && Answers(r, ReadList(ReadField, old(rest)))
    {
      hide ReadField, ReadMany;
      var n := Number(8);
      if n.Err? { return Err; }
      ghost var spec := ReadMany(ReadField, n.value, rest);
      var list: seq<SavedField> := [];
      BehindNothing(spec);
      for i := 0 to n.value
        invariant Valid() && spec == Behind(list, ReadMany(ReadField, n.value - i, rest))
      {
        ReadManyStep(ReadField, list, n.value - i, rest);
        var x := Field();
        if x.Err? { return Err; }
        list := list + [x.value];
      }
      ReadManyStep(ReadField, list, 0, rest);
      r := Ok(list);
    }

    method Numbers(n: nat) returns (r: Result<seq<nat>>)
      requires Valid()
      modifies this
      ensures Valid() && Answers(r, ReadMany(ReadU64, n, old(rest)))
    {
      ghost var spec := ReadMany(ReadU64, n, rest);
      var list: seq<nat> := [];
      BehindNothing(spec);
      for i := 0 to n
        invariant Valid() && spec == Behind(list, ReadMany(ReadU64, n - i, rest))
      {
        ReadManyStep(ReadU64, list, n - i, rest);
        var x := Number(8);
        if x.Err? { return Err; }
        list := list + [x.value];
      }
      ReadManyStep(ReadU64, list, 0, rest);
      r := Ok(list);
    }

    method SignedNumbers(n: nat) returns (r: Result<seq<int>>)
      requires Valid()
      modifies this
      ensures Valid() && Answers(r, ReadMany(ReadI64, n, old(rest)))
    {
      ghost var spec := ReadMany(ReadI64, n, rest);
      var list: seq<int> := [];
      BehindNothing(spec);
      for i := 0 to n
        invariant Valid() && spec == Behind(list, ReadMany(ReadI64, n - i, rest))
      {
        ReadManyStep(ReadI64, list, n - i, rest);
        var x := Signed();
        if x.Err? { return Err; }
        list := list + [x.value];
      }
      ReadManyStep(ReadI64, list, 0, rest);
      r := Ok(list);
    }

    method Texts(n: nat) returns (r: Result<seq<seq<Byte>>>)
      requires Valid()
      modifies this
      ensures Valid() && Answers(r, ReadMany(ReadText, n, old(rest)))
    {
      ghost var spec := ReadMany(ReadText, n, rest);
      var list: seq<seq<Byte>> := [];
      BehindNothing(spec);
      for i := 0 to n
        invariant Valid() && spec == Behind(list, ReadMany(ReadText, n - i, rest))
      {
        ReadManyStep(ReadText, list, n - i, rest);
        var x := TakeText();
        if x.Err? { return Err; }
        list := list + [x.value];
      }
      ReadManyStep(ReadText, list, 0, rest);
      r := Ok(list);
    }

    method Column(kind: Kind, rows: nat) returns (r: Result<SavedColumn>)
      requires Valid()
      modifies this
      ensures Valid() && Answers(r, ReadColumn(kind, rows, old(rest)))
    {
      var n := Number(8);
      if n.Err? { return Err; }
      var words := Numbers(n.value);
      if words.Err? { return Err; }
      match kind {
        case Int64 =>
          var data := SignedNumbers(rows);
          r := if data.Ok? then Ok(SavedColumn(words.value, data.value, [], [])) else Err;
        case Double =>
          var data := Numbers(rows);
          r := if data.Ok? then Ok(SavedColumn(words.value, [], data.value, [])) else Err;
        case String =>
          var data := Texts(rows);
          r := if data.Ok? then Ok(SavedColumn(words.value, [], [], data.value)) else Err;
      }
    }

    method Columns(fs: seq<SavedField>, rows: nat) returns (r: Result<seq<SavedColumn>>)
      requires Valid()
      modifies this
      ensures Valid() && Answers(r, ReadColumns(fs, rows, old(rest)))
    {
      ghost var spec := ReadColumns(fs, rows, rest);
      var list: seq<SavedColumn> := [];
      BehindNothing(spec);
      for i := 0 to |fs|
        invariant Valid() && spec == Behind(list, ReadColumns(fs[i..], rows, rest))
      {
        ReadColumnsStep(list, fs, i, rows, rest);
        var c := Column(KindOf(fs[i].ty.id), rows);
        if c.Err? { return Err; }
        list := list + [c.value];
      }
      AddNothing(list);
      r := Ok(list);
    }

    method Table() returns (r: Result<SavedTable>)
      requires Valid()
      modifies this
      ensures Valid() && Answers(r, ReadTable(old(rest)))
    {
      var name := TakeText();
      if name.Err? { return Err; }
      var fields := Fields();
      if fields.Err? { return Err; }
      var rows := Number(8);
      if rows.Err? { return Err; }
      var cols := Columns(fields.value, rows.value);
      r := if cols.Ok? then Ok(SavedTable(name.value, fields.value, rows.value, cols.value)) else Err;
    }

    /** Magic and version; false for a foreign or a newer file. */
    method Header() returns (ok: bool)
      requires Valid()
      modifies this
      ensures Valid() && (ok ==> AfterHeader(old(rest)) == Ok(rest)) && (!ok ==> AfterHeader(old(rest)).Err?)
    {
      var magic := Take(4);
      if magic.Err? || magic.value != MAGIC { return false; }
      var version := Number(4);
      ok := version.Ok? && version.value <= VERSION;
    }

    /**
     loadDatabase: checks magic and version, then reads and registers table by table. A load that fails midway leaves
     the tables it could read registered.
     */
    method Load(into: SavedCatalog) returns (ok: bool, cat: SavedCatalog)
      requires Valid()
      modifies this
      ensures Valid() && cat == Register(into, FileTables(old(rest)))
      ensures if ok then LoadInto(into, old(rest)) == Ok(cat) else LoadInto(into, old(rest)).Err?
    {
      ok, cat := false, into;
      DecodeAfterHeader(rest);
      var known := Header();
      if !known { return; }
      var count := Number(8);
      if count.Err? { return; }
      TablesOfCount(count.value, rest);
      ok, cat := Tables(count.value, into);
    }

    method Tables(count: nat, into: SavedCatalog) returns (ok: bool, cat: SavedCatalog)
      requires Valid()
      modifies this
      ensures Valid() && cat == Register(into, FirstTables(count, old(rest)))
      ensures ok <==> ReadMany(ReadTable, count, old(rest)).Ok?
    {
      hide ReadTable;
      ok, cat := false, into;
      ghost var spec, tables: seq<SavedTable>, all := ReadMany(ReadTable, count, rest), [], FirstTables(count, rest);
      BehindNothing(spec);
      AddNothing(all);
      for i := 0 to count
        invariant Valid() && spec == Behind(tables, ReadMany(ReadTable, count - i, rest))
        invariant all == tables + FirstTables(count - i, rest)
        invariant cat == Register(into, tables)
      {
        ReadManyStep(ReadTable, tables, count - i, rest);
        FirstTablesStep(tables, count - i, rest);
        var t := Table();
        if t.Err? { return; }
        cat := cat[t.value.name := t.value];
        RegisterOne(into, tables, t.value);
        tables := tables + [t.value];
      }
      ReadManyStep(ReadTable, tables, 0, rest);
      AddNothing(tables);
      ok := true;
    }
  }

  /** The first tables of the file, up to one that cannot be read. */
  function FirstTables(count: nat, bs: seq<Byte>): seq<SavedTable> {
    if count == 0 then []
    else match ReadTable(bs)
      case Err => []
      case Ok(t) => [t.0] + FirstTables(count - 1, t.1)
  }

  lemma FirstTablesStep(tables: seq<SavedTable>, n: nat, bs: seq<Byte>)
    requires n > 0
    ensures tables + FirstTables(n, bs) == match ReadTable(bs)
                                           case Err => tables
                                           case Ok(t) => (tables + [t.0]) + FirstTables(n - 1, t.1)
  {
    AddNothing(tables);
    if ReadTable(bs).Ok? {
      var t := ReadTable(bs).value;
      Regroup(tables, [t.0], FirstTables(n - 1, t.1));
    }
  }

  lemma {:induction false} TablesOfCount(n: nat, bs: seq<Byte>)
    ensures ReadMany(ReadTable, n, bs).Ok? ==> FirstTables(n, bs) == ReadMany(ReadTable, n, bs).value.0
    decreases n
  {
    hide ReadTable;
    if n > 0 && ReadTable(bs).Ok? {
      TablesOfCount(n - 1, ReadTable(bs).value.1);
    }
  }

  /** The tables a file registers, whether or not all of it can be read. */
  function FileTables(bs: seq<Byte>): seq<SavedTable> {
    match AfterHeader(bs)
    case Err => []
    case Ok(rest) =>
      match ReadU64(rest)
      case Err => []
      case Ok(n) => FirstTables(n.0, n.1)
  }

  function AfterHeader(bs: seq<Byte>): Result<seq<Byte>> {
    var magic :- ReadBytes(4, bs);
    if magic.0 != MAGIC then Err
    else
      var version :- ReadU32(magic.1);
      if version.0 > VERSION then Err else Ok(version.1)
  }

  lemma DecodeAfterHeader(bs: seq<Byte>)
    ensures Decode(bs) == match AfterHeader(bs) case Err => Err case Ok(rest) => ReadList(ReadTable, rest)
  {
  }

  lemma RegisterOne(into: SavedCatalog, ts: seq<SavedTable>, t: SavedTable)
    ensures Register(into, ts + [t]) == Register(into, ts)[t.name := t]
  {
    DropLast(ts, t);
  }

  /** The bytes weighed with their powers of 256. */
  method SumBytes(b: seq<Byte>) returns (v: nat)
    ensures v == FromLow(b)
  {
    var scale: nat := 1;
    v := 0;
    assert b[0..] == b;
    TimesOne(FromLow(b));
    for i := 0 to |b|
      invariant FromLow(b) == v + Times(scale, FromLow(b[i..]))
    {
      FromLowStep(b, i);
      ScaleUp(scale, b[i], FromLow(b[i + 1..]));
      v, scale := v + Times(scale, b[i]), Times(scale, 256);
    }
    NoBytesLeft(b);
    TimesNothing(scale);
  }

  function Times(a: nat, b: nat): nat {
    a * b
  }

  lemma TimesOne(x: nat)
    ensures Times(1, x) == x
  {
  }

  lemma TimesNothing(x: nat)
    ensures Times(x, 0) == 0
  {
  }

  lemma FromLowStep(bs: seq<Byte>, i: nat)
    requires i < |bs|
    ensures FromLow(bs[i..]) == bs[i] + 256 * FromLow(bs[i + 1..])
  {
    assert bs[i..][1..] == bs[i + 1..];
  }

  lemma NoBytesLeft(bs: seq<Byte>)
    ensures FromLow(bs[|bs|..]) == 0
  {
  }

  lemma ScaleUp(scale: nat, b: nat, high: nat)
    ensures Times(scale, b + 256 * high) == Times(scale, b) + Times(Times(scale, 256), high)
  {
    assert scale * (256 * high) == (scale * 256) * high;
  }

  lemma ReadColumnsStep(list: seq<SavedColumn>, fs: seq<SavedField>, i: nat, rows: nat, bs: seq<Byte>)
    requires i < |fs|
    ensures Behind(list, ReadColumns(fs[i..], rows, bs)) ==
            match ReadColumn(KindOf(fs[i].ty.id), rows, bs)
            case Err => Err
            case Ok(c) => Behind(list + [c.0], ReadColumns(fs[i + 1..], rows, c.1))
  {
    assert fs[i..][1..] == fs[i + 1..];
    var c := ReadColumn(KindOf(fs[i].ty.id), rows, bs);
    if c.Ok? {
      var more := ReadColumns(fs[i + 1..], rows, c.value.1);
      if more.Ok? {
        Regroup(list, [c.value.0], more.value.0);
      }
    }
  }

  /** Saving a catalog and loading the file into another one gives map override. */
  method SaveAndLoad(cat: SavedCatalog, names: seq<seq<Byte>>, into: SavedCatalog) returns (ok: bool, result: SavedCatalog)
    requires WellNamed(cat) && Enumerates(names, cat) && ShortList(Named(cat, names), TableFits)
    ensures ok && result == into + cat
  {
    var w := new Writer();
    w.Save(Named(cat, names));
    AddNothing(Encode(Named(cat, names)));
    var r := new FileReader(w.out);
    LoadRestores(cat, into, names);
    ok, result := r.Load(into);
  }
}
