/** Tables through a database file: what a loaded table shows is what the saved one showed. */
module TableFiles {
  import opened Results
  import opened Types
  import opened Bits
  import opened Bytes
  import opened Tables
  import opened Storage
  import opened Persistence
  import opened DatabaseFile

  // ---- Values and their saved form ----

  /** The bit pattern of a double, and the double of a bit pattern. */
  datatype DoubleBits = DoubleBits(bits: real -> nat, value: nat -> real)

  predicate KeepsDouble(d: DoubleBits, r: real) {
    IsWord(d.bits(r)) && d.value(d.bits(r)) == r
  }

  /** Every character is one byte. */
  predicate ByteText(s: string) {
    forall i :: 0 <= i < |s| ==> s[i] as int < 256
  }

  function SaveText(s: string): (r: seq<Byte>)
    ensures |r| == |s|
  {
    seq(|s|, i requires 0 <= i < |s| => s[i] as int % 256)
  }

  function LoadText(bs: seq<Byte>): (r: string)
    ensures |r| == |bs|
  {
    seq(|bs|, i requires 0 <= i < |bs| => bs[i] as char)
  }

  lemma TextKept(s: string)
    requires ByteText(s)
    ensures LoadText(SaveText(s)) == s
  {
  }

  function SaveDoubles(d: DoubleBits, rs: seq<real>): (r: seq<nat>)
    ensures |r| == |rs|
  {
    seq<nat>(|rs|, i requires 0 <= i < |rs| => d.bits(rs[i]))
  }

  function LoadDoubles(d: DoubleBits, ns: seq<nat>): (r: seq<real>)
    ensures |r| == |ns|
  {
    seq(|ns|, i requires 0 <= i < |ns| => d.value(ns[i]))
  }

  function SaveTexts(ss: seq<string>): (r: seq<seq<Byte>>)
    ensures |r| == |ss|
  {
    seq(|ss|, i requires 0 <= i < |ss| => SaveText(ss[i]))
  }

  function LoadTexts(bs: seq<seq<Byte>>): (r: seq<string>)
    ensures |r| == |bs|
  {
    seq(|bs|, i requires 0 <= i < |bs| => LoadText(bs[i]))
  }

  // ---- Columns ----

  function SaveColumn(d: DoubleBits, c: ColumnData, words: seq<Word>): SavedColumn {
    SavedColumn(words, c.i64, SaveDoubles(d, c.f64), SaveTexts(c.str))
  }

  function WordsOf(ns: seq<nat>): (r: seq<Word>)
    ensures |r| == |ns|
  {
    seq(|ns|, i requires 0 <= i < |ns| => ns[i] % 0x1_0000_0000_0000_0000)
  }

  function LoadColumn(d: DoubleBits, ty: DataType, s: SavedColumn, rows: nat): ColumnData {
    ColumnData(ty, FlagsOf(WordsOf(s.words), rows), s.i64, LoadDoubles(d, s.f64), LoadTexts(s.str))
  }

  /** The cells survive the way to bytes, and the words hold the column's flags. */
  predicate ColumnSavable(d: DoubleBits, c: ColumnData, words: seq<Word>) {
    && ColumnOk(c) && Pure(c) && FlagsOf(words, |c.valid|) == c.valid && WordsFor(|c.valid|) <= |words|
    && (forall i :: 0 <= i < |c.f64| ==> KeepsDouble(d, c.f64[i]))
    && (forall i :: 0 <= i < |c.str| ==> ByteText(c.str[i]))
  }

  lemma WordsKept(words: seq<Word>)
    ensures WordsOf(words) == words
  {
    forall i | 0 <= i < |words| ensures WordsOf(words)[i] == words[i] {
      SmallRest(words[i]);
    }
  }

  lemma SmallRest(w: Word)
    ensures w % 0x1_0000_0000_0000_0000 == w
  {
  }

  lemma ColumnKept(d: DoubleBits, c: ColumnData, words: seq<Word>)
    requires ColumnSavable(d, c, words)
    ensures LoadColumn(d, c.ty, SaveColumn(d, c, words), |c.valid|) == c
  {
    WordsKept(words);
    forall i | 0 <= i < |c.str| ensures LoadTexts(SaveTexts(c.str))[i] == c.str[i] {
      TextKept(c.str[i]);
    }
    assert LoadDoubles(d, SaveDoubles(d, c.f64)) == c.f64;
    assert LoadTexts(SaveTexts(c.str)) == c.str;
  }

  // ---- Tables ----

  function SaveFields(s: Schema): (r: seq<SavedField>)
    ensures |r| == |s|
  {
    seq(|s|, i requires 0 <= i < |s| => SavedField(SaveText(s[i].name), s[i].ty))
  }

  function LoadFields(fs: seq<SavedField>): (r: Schema)
    ensures |r| == |fs|
  {
    seq(|fs|, i requires 0 <= i < |fs| => ColumnDef(LoadText(fs[i].name), fs[i].ty))
  }

  function SaveTable(d: DoubleBits, t: TableData, words: seq<seq<Word>>): (s: SavedTable)
    requires |words| == |t.cols| == |t.schema|
    ensures |s.cols| == |s.fields| == |t.cols|
  {
    SavedTable(SaveText(t.name), SaveFields(t.schema), RowCount(t),
               seq(|t.cols|, c requires 0 <= c < |t.cols| => SaveColumn(d, t.cols[c], words[c])))
  }

  function LoadTable(d: DoubleBits, s: SavedTable): (t: TableData)
    requires |s.cols| == |s.fields|
    ensures |t.cols| == |t.schema| == |s.cols|
  {
    TableData(LoadText(s.name), LoadFields(s.fields),
              seq(|s.cols|, c requires 0 <= c < |s.cols| => LoadColumn(d, s.fields[c].ty, s.cols[c], s.rows)))
  }

  predicate Savable(d: DoubleBits, t: TableData, words: seq<seq<Word>>) {
    && TableOk(t) && |words| == |t.cols| && ByteText(t.name)
    && (forall c :: 0 <= c < |t.cols| ==> ByteText(t.schema[c].name) && ColumnSavable(d, t.cols[c], words[c]))
  }

  lemma FieldsKept(s: Schema)
    requires forall c :: 0 <= c < |s| ==> ByteText(s[c].name)
    ensures LoadFields(SaveFields(s)) == s
  {
    forall c | 0 <= c < |s| ensures LoadFields(SaveFields(s))[c] == s[c] {
      TextKept(s[c].name);
    }
  }

  /** Loading the saved form of a table gives the table. */
  lemma TableKept(d: DoubleBits, t: TableData, words: seq<seq<Word>>)
    requires Savable(d, t, words)
    ensures LoadTable(d, SaveTable(d, t, words)) == t
  {
    TextKept(t.name);
    FieldsKept(t.schema);
    var back := LoadTable(d, SaveTable(d, t, words));
    forall c | 0 <= c < |t.cols| ensures back.cols[c] == t.cols[c] {
      ColumnKept(d, t.cols[c], words[c]);
    }
  }

  // ---- Catalogs ----

  /** The saved catalog holds exactly the tables of the catalog, in their saved form. */
  ghost predicate SavedAs(d: DoubleBits, cat: map<string, TableData>, words: map<string, seq<seq<Word>>>, saved: SavedCatalog) {
    && (forall n :: n in cat ==> n in words && cat[n].name == n && Savable(d, cat[n], words[n]))
    && (forall n :: n in cat ==> SaveText(n) in saved && saved[SaveText(n)] == SaveTable(d, cat[n], words[n]))
    && (forall b :: b in saved ==> LoadText(b) in cat && SaveText(LoadText(b)) == b)
  }

  /** A loaded database shows every table as it was, whatever the order of writing and whatever was in memory before. */
  lemma DatabaseKept(d: DoubleBits, cat: map<string, TableData>, words: map<string, seq<seq<Word>>>, saved: SavedCatalog, into: SavedCatalog, names: seq<seq<Byte>>)
    requires SavedAs(d, cat, words, saved) && Enumerates(names, saved) && ShortList(Named(saved, names), TableFits)
    ensures var r := LoadInto(into, Encode(Named(saved, names)));
            r.Ok? && forall n :: n in cat ==>
              SaveText(n) in r.value && var s := r.value[SaveText(n)]; |s.cols| == |s.fields| && LoadTable(d, s) == cat[n]
  {
    forall b | b in saved ensures saved[b].name == b {
      var n := LoadText(b);
      assert saved[SaveText(n)] == SaveTable(d, cat[n], words[n]);
    }
    LoadRestores(saved, into, names);
    forall n | n in cat ensures LoadTable(d, saved[SaveText(n)]) == cat[n] {
      TableKept(d, cat[n], words[n]);
    }
  }

  // ---- Table objects ----

  ghost function WordsIn(t: Table): (r: seq<seq<Word>>)
    reads t.Repr()
    ensures |r| == |t.columns|
  {
    seq(|t.columns|, c requires 0 <= c < |t.columns| reads t.Repr() => t.columns[c].validity.bits)
  }

  method SaveObject(d: DoubleBits, t: Table) returns (s: SavedTable)
    requires t.Readable() && TableOk(t.View())
    ensures s == SaveTable(d, t.View(), WordsIn(t))
  {
    ghost var view, words := t.View(), WordsIn(t);
    var cols: seq<SavedColumn> := [];
    for c := 0 to |t.columns|
      invariant |cols| == c && forall j :: 0 <= j < c ==> cols[j] == SaveColumn(d, view.cols[j], words[j])
    {
      var col := t.columns[c];
      assert view.cols[c] == col.View();
      cols := cols + [SavedColumn(col.validity.bits, col.i64, SaveDoubles(d, col.f64), SaveTexts(col.str))];
    }
    var rows: nat := 0;
    if |t.columns| > 0 {
      rows := t.columns[0].validity.count;
      assert view.cols[0] == t.columns[0].View();
    }
    s := SavedTable(SaveText(t.name), SaveFields(t.schema), rows, cols);
  }

  /** The typed buffer of the column's kind and the validity words, moved into a new column. */
  method RestoreColumn(d: DoubleBits, ty: DataType, s: SavedColumn, rows: nat, c: Column)
    requires c.Valid() && c.ty == ty && c.View() == NewColumn(ty)
    requires ColumnFits(KindOf(ty.id), rows, s) && WordsFor(rows) <= |s.words|
    modifies c, c.validity
    ensures c.Valid() && c.View() == LoadColumn(d, ty, s, rows)
  {
    var words := WordsOf(s.words);
    match KindOf(ty.id) {
      case Int64 => c.RestoreInt64(s.i64, words, rows);
      case Double => c.RestoreDouble(LoadDoubles(d, s.f64), words, rows);
      case String => c.RestoreString(LoadTexts(s.str), words, rows);
    }
  }

  /** Column c of a new table gets its saved contents; the other columns are untouched. */
  method RestoreInto(d: DoubleBits, s: SavedColumn, rows: nat, t: Table, c: nat)
    requires t.Readable() && c < |t.columns| && t.View().cols[c] == NewColumn(t.columns[c].ty)
    requires ColumnFits(KindOf(t.columns[c].ty.id), rows, s) && WordsFor(rows) <= |s.words|
    modifies t.columns[c], t.columns[c].validity
    ensures t.Readable()
    ensures t.View().cols == old(t.View()).cols[c := LoadColumn(d, t.columns[c].ty, s, rows)]
  {
    ghost var before := t.View().cols;
    assert before[c] == t.columns[c].View();
    RestoreColumn(d, t.columns[c].ty, s, rows, t.columns[c]);
    ghost var after := before[c := LoadColumn(d, t.columns[c].ty, s, rows)];
    forall j | 0 <= j < |t.columns| ensures t.columns[j].View() == after[j] {
      if j != c {
        assert t.columns[j].View() == old(t.columns[j].View()) == before[j];
      }
    }
  }

  lemma FillNext<T>(now: seq<T>, whole: seq<T>, blank: seq<T>, c: nat)
    requires |whole| == |blank| && c < |whole| && now == whole[..c] + blank[c..]
    ensures now[c] == blank[c] && now[c := whole[c]] == whole[..c + 1] + blank[c + 1..]
  {
  }

  /** A new table with the columns of a saved one. */
  method RestoreObject(d: DoubleBits, s: SavedTable) returns (t: Table)
    requires TableFits(s) && forall c :: 0 <= c < |s.cols| ==> WordsFor(s.rows) <= |s.cols[c].words|
    ensures fresh(t.Repr()) && t.Readable() && t.View() == LoadTable(d, s)
  {
    t := new Table(LoadText(s.name), LoadFields(s.fields));
    assert forall j :: 0 <= j < |t.columns| ==> t.columns[j] in t.Repr() && t.columns[j].validity in t.Repr();
    ghost var blank, whole := t.View().cols, LoadTable(d, s).cols;
    var c := 0;
    while c < |t.columns|
      invariant 0 <= c <= |t.columns| == |whole| == |blank|
      invariant forall j :: 0 <= j < |t.columns| ==> fresh(t.columns[j]) && fresh(t.columns[j].validity)
      invariant t.Readable()
      invariant t.View().cols == whole[..c] + blank[c..]
    {
      ghost var now := t.View().cols;
      FillNext(now, whole, blank, c);
      RestoreInto(d, s.cols[c], s.rows, t, c);
      assert t.View().cols == now[c := whole[c]];
      c := c + 1;
    }
    assert whole[..c] + blank[c..] == whole;
  }

  /** A catalog of one table, saved and loaded into an empty one. */
  method ThroughFile(s: SavedTable) returns (r: SavedTable)
    requires TableFits(s)
    ensures r == s
  {
    var ok, cat := SaveAndLoad(map[s.name := s], [s.name], map[]);
    assert map[] + map[s.name := s] == map[s.name := s];
    r := cat[s.name];
  }

  lemma WordsSuffice(d: DoubleBits, t: TableData, words: seq<seq<Word>>)
    requires Savable(d, t, words)
    ensures var s := SaveTable(d, t, words); forall c :: 0 <= c < |s.cols| ==> WordsFor(s.rows) <= |s.cols[c].words|
  {
  }

  /** Saving a table and loading the file into an empty catalog gives a new table that shows what the old one shows. */
  method SaveAndReopen(d: DoubleBits, t: Table) returns (r: Table)
    requires t.Readable() && Savable(d, t.View(), WordsIn(t)) && TableFits(SaveTable(d, t.View(), WordsIn(t)))
    ensures fresh(r.Repr()) && r.Readable() && r.View() == t.View()
  {
    var s := SaveObject(d, t);
    TableKept(d, t.View(), WordsIn(t));
    WordsSuffice(d, t.View(), WordsIn(t));
    var loaded := ThroughFile(s);
    r := RestoreObject(d, loaded);
  }
}
