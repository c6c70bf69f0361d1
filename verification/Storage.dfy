/** The storage classes: validity bitmap, typed column, table. Each is tied to its value in module Tables. */
module Storage {
  import opened Results
  import opened Types
  import opened Bits
  import opened Tables

  function WordsFor(n: nat): nat {
    (n + 63) / 64
  }

  /** Bit i of a sequence of words. */
  predicate BitAt(words: seq<Word>, i: nat)
    requires i < 64 * |words|
  {
    Bit(words[i / 64], i % 64)
  }

  /** The first n flags held in the words; a flag beyond the words counts as unset. */
  function FlagsOf(words: seq<Word>, n: nat): (r: seq<bool>)
    ensures |r| == n
  {
    seq(n, i requires 0 <= i < n => i < 64 * |words| && BitAt(words, i))
  }

  /** The words of n flags, nothing above the last one. */
  predicate TightWords(words: seq<Word>, n: nat) {
    && |words| == WordsFor(n)
    && (n % 64 != 0 ==> words[n / 64] < Pow2(n % 64))
  }

  function PushBit(words: seq<Word>, n: nat, valid: bool): (r: seq<Word>)
    requires TightWords(words, n)
    ensures TightWords(r, n + 1)
  {
    var grown := if n / 64 >= |words| then words + [0] else words;
    var k, w := n % 64, grown[n / 64];
    WordBounds(w, k);
    assert (n + 1) % 64 != 0 ==> (n + 1) % 64 == k + 1 && (n + 1) / 64 == n / 64;
    if valid then grown[n / 64 := SetBit(w, k)] else grown
  }

  lemma WordBounds(w: nat, k: nat)
    requires k < 64 && w < Pow2(k)
    ensures !Bit(w, k) && SetBit(w, k) == w + Pow2(k) < Pow2(k + 1) <= 0x1_0000_0000_0000_0000
  {
    SmallHasNoBit(w, k);
    Pow2Of64();
    Pow2Monotone(k + 1, 64);
  }

  lemma PushBitFlags(words: seq<Word>, n: nat, valid: bool)
    requires TightWords(words, n)
    ensures FlagsOf(PushBit(words, n, valid), n + 1) == FlagsOf(words, n) + [valid]
  {
    var r := PushBit(words, n, valid);
    var grown := if n / 64 >= |words| then words + [0] else words;
    var k, w := n % 64, grown[n / 64];
    WordBounds(w, k);
    forall i | 0 <= i <= n ensures FlagsOf(r, n + 1)[i] == (FlagsOf(words, n) + [valid])[i] {
      if i / 64 == n / 64 {
        TopBit(w, k, i % 64);
      }
    }
  }

  /** Only the buffer of the column's kind is in use. */
  predicate Pure(c: ColumnData) {
    match KindOf(c.ty.id)
    case Int64 => c.f64 == [] && c.str == []
    case Double => c.i64 == [] && c.str == []
    case String => c.i64 == [] && c.f64 == []
  }

  class ValidityBitmap {
    var bits: seq<Word>
    var count: nat
    var anyNull: bool

    /** Enough words, and the NULL flag tells the truth. */
    ghost predicate Valid()
      reads this
    {
      WordsFor(count) <= |bits| && (anyNull <==> false in Flags())
    }

    /** As built by pushes: exactly the words needed. */
    ghost predicate Tight()
      reads this
    {
      TightWords(bits, count)
    }

    ghost function Flags(): (r: seq<bool>)
      reads this
      ensures |r| == count
    {
      FlagsOf(bits, count)
    }

    constructor ()
      ensures Valid() && Tight() && Flags() == []
    {
      bits, count, anyNull := [], 0, false;
    }

    method Push(valid: bool)
      requires Valid() && Tight()
      modifies this
      ensures Valid() && Tight()
      ensures Flags() == old(Flags()) + [valid]
    {
      PushBitFlags(bits, count, valid);
      ghost var before, flags := bits, Flags();
      var word := count / 64;
      if word >= |bits| {
        bits := bits + [0];
      }
      if valid {
        WordBounds(bits[word], count % 64);
        bits := bits[word := SetBit(bits[word], count % 64)];
      }
      assert bits == PushBit(before, count, valid);
      count := count + 1;
      if !valid {
        anyNull := true;
      }
      assert false in Flags() <==> false in flags || !valid by {
        assert Flags() == flags + [valid];
        assert (flags + [valid])[|flags|] == valid;
      }
    }

    method IsValid(i: nat) returns (r: bool)
      requires Valid() && i < count
      ensures r == Flags()[i]
    {
      r := Bit(bits[i / 64], i % 64);
    }

    /** Rebuilds the bitmap from raw words and a row count. */
    method AssignRaw(words: seq<Word>, n: nat)
      requires WordsFor(n) <= |words|
      modifies this
      ensures Valid() && bits == words && count == n
      ensures forall i :: 0 <= i < n ==> Flags()[i] == BitAt(words, i)
    {
      bits, count, anyNull := words, n, false;
      var i := 0;
      while i < n && !anyNull
        invariant 0 <= i <= n && bits == words && count == n
        invariant anyNull ==> false in Flags()
        invariant !anyNull ==> forall j :: 0 <= j < i ==> Flags()[j]
        decreases n - i, !anyNull
      {
        assert Flags()[i] == BitAt(bits, i);
        if !Bit(bits[i / 64], i % 64) {
          anyNull := true;
        } else {
          i := i + 1;
        }
      }
    }

    /** assignRaw undoes words() and size(): the same words, flags and NULL flag. */
    method CopyRaw(other: ValidityBitmap)
      requires other.Valid() && other != this
      modifies this
      ensures Valid() && Flags() == other.Flags()
      ensures bits == other.bits && count == other.count && anyNull == other.anyNull
    {
      AssignRaw(other.bits, other.count);
    }
  }

  class Column {
    const ty: DataType
    var i64: seq<int>
    var f64: seq<real>
    var str: seq<string>
    const validity: ValidityBitmap

    ghost predicate Valid()
      reads this, validity
    {
      validity.Valid() && ColumnOk(View()) && Pure(View())
    }

    /** Its validity words are as pushes leave them, so that more can be pushed. */
    ghost predicate Growable()
      reads this, validity
    {
      Valid() && validity.Tight()
    }

    /** The column as a value. */
    ghost function View(): ColumnData
      reads this, validity
    {
      ColumnData(ty, validity.Flags(), i64, f64, str)
    }

    constructor (t: DataType)
      ensures Growable() && fresh(validity) && ty == t
      ensures View() == NewColumn(t)
    {
      ty := t;
      i64, f64, str := [], [], [];
      validity := new ValidityBitmap();
    }

    method PushNullCell()
      requires Growable()
      modifies this, validity
      ensures Growable() && View() == PushNull(old(View()))
    {
      match KindOf(ty.id) {
        case Int64 => i64 := i64 + [0];
        case Double => f64 := f64 + [0.0];
        case String => str := str + [""];
      }
      validity.Push(false);
    }

    /** False, with nothing changed, if the column cannot hold the value (the source throws). */
    method AppendValue(v: Value) returns (ok: bool)
      requires Growable()
      modifies this, validity
      ensures Growable()
      ensures ok <==> Append(old(View()), v).Ok?
      ensures View() == if ok then Append(old(View()), v).value else old(View())
    {
      if v.Null? {
        PushNullCell();
        return true;
      }
      match KindOf(ty.id) {
        case Int64 =>
          var i := StoredInt(v);
          if i.Err? { return false; }
          i64 := i64 + [i.value];
        case Double =>
          var d := ToDouble(v);
          if d.Err? { return false; }
          f64 := f64 + [d.value];
        case String =>
          str := str + [StoredString(v)];
      }
      validity.Push(true);
      ok := true;
    }

    method RestoreInt64(data: seq<int>, words: seq<Word>, n: nat)
      requires Valid() && KindOf(ty.id) == Int64 && |data| == n && WordsFor(n) <= |words|
      modifies this, validity
      ensures Valid() && i64 == data && f64 == old(f64) && str == old(str)
      ensures validity.bits == words && View().valid == FlagsOf(words, n) && (TightWords(words, n) ==> Growable())
    {
      i64 := data;
      validity.AssignRaw(words, n);
    }

    method RestoreDouble(data: seq<real>, words: seq<Word>, n: nat)
      requires Valid() && KindOf(ty.id) == Double && |data| == n && WordsFor(n) <= |words|
      modifies this, validity
      ensures Valid() && f64 == data && i64 == old(i64) && str == old(str)
      ensures validity.bits == words && View().valid == FlagsOf(words, n) && (TightWords(words, n) ==> Growable())
    {
      f64 := data;
      validity.AssignRaw(words, n);
    }

    method RestoreString(data: seq<string>, words: seq<Word>, n: nat)
      requires Valid() && KindOf(ty.id) == String && |data| == n && WordsFor(n) <= |words|
      modifies this, validity
      ensures Valid() && str == data && i64 == old(i64) && f64 == old(f64)
      ensures validity.bits == words && View().valid == FlagsOf(words, n) && (TightWords(words, n) ==> Growable())
    {
      str := data;
      validity.AssignRaw(words, n);
    }

    /** A new column restored from the raw parts of another one shows what the other shows. */
    method RestoreFrom(other: Column)
      requires other.Valid() && other != this && other.validity != validity && other.ty == ty && Valid() && View() == NewColumn(ty)
      modifies this, validity
      ensures Valid() && View() == other.View() && (other.Growable() ==> Growable())
    {
      var words, n := other.validity.bits, other.validity.count;
      match KindOf(ty.id) {
        case Int64 => RestoreInt64(other.i64, words, n);
        case Double => RestoreDouble(other.f64, words, n);
        case String => RestoreString(other.str, words, n);
      }
    }

    method Get(i: nat) returns (v: Value)
      requires Valid() && i < |View().valid|
      ensures v == ValueAt(View(), i)
    {
      var present := validity.IsValid(i);
      if !present {
        return Null;
      }
      match KindOf(ty.id) {
        case Int64 => v := MakeIntValue(ty, i64[i]);
        case Double => v := Dbl(f64[i]);
        case String => v := Str(str[i]);
      }
    }
  }

  class Table {
    const name: string
    const schema: Schema
    const columns: seq<Column>

    ghost function Repr(): set<object> {
      (set c | 0 <= c < |columns| :: columns[c] as object) + (set c | 0 <= c < |columns| :: columns[c].validity as object)
    }

    /** One column object a schema field, none shared. */
    ghost predicate Shape() {
      && |columns| == |schema|
      && (forall c :: 0 <= c < |columns| ==> columns[c].ty == schema[c].ty)
      && (forall c, d :: 0 <= c < d < |columns| ==> columns[c] != columns[d] && columns[c].validity != columns[d].validity)
    }

    /** All columns can be read. */
    ghost predicate Readable()
      reads Repr()
    {
      Shape() && forall c :: 0 <= c < |columns| ==> columns[c].Valid()
    }

    /** All columns can take another cell. */
    ghost predicate Valid()
      reads Repr()
    {
      Shape() && forall c :: 0 <= c < |columns| ==> columns[c].Growable()
    }

    ghost function View(): (t: TableData)
      reads Repr()
      ensures |t.cols| == |columns| && t.name == name && t.schema == schema
    {
      TableData(name, schema, seq(|columns|, c requires 0 <= c < |columns| reads Repr() => columns[c].View()))
    }

    constructor (n: string, s: Schema)
      ensures Valid() && fresh(Repr()) && name == n && schema == s
      ensures View() == NewTable(n, s)
    {
      name, schema := n, s;
      var cols: seq<Column> := [];
      for c := 0 to |s|
        invariant |cols| == c
        invariant forall j :: 0 <= j < c ==> fresh(cols[j]) && fresh(cols[j].validity)
        invariant forall j :: 0 <= j < c ==> cols[j].Growable() && cols[j].View() == NewColumn(s[j].ty)
        invariant forall i, j :: 0 <= i < j < c ==> cols[i] != cols[j] && cols[i].validity != cols[j].validity
      {
        var col := new Column(s[c].ty);
        cols := cols + [col];
      }
      columns := cols;
    }

    /** Appends one cell to column c; the other columns are untouched. */
    method AppendCell(c: nat, v: Value) returns (ok: bool)
      requires Valid() && c < |columns|
      modifies columns[c], columns[c].validity
      ensures Valid()
      ensures ok <==> Append(old(View()).cols[c], v).Ok?
      ensures View().cols == if ok then old(View()).cols[c := Append(old(View()).cols[c], v).value] else old(View()).cols
    {
      ghost var before := View().cols;
      assert before[c] == columns[c].View();
      ok := columns[c].AppendValue(v);
      ghost var after := if ok then before[c := Append(before[c], v).value] else before;
      forall j | 0 <= j < |columns| ensures columns[j].View() == after[j] {
        if j != c {
          assert columns[j].View() == old(columns[j].View()) == before[j];
        }
      }
    }

    /** Appends one row, column by column; stops at the first column that rejects its value. */
    method Insert(row: Row) returns (ok: bool)
      requires Valid() && |row| == |columns|
      modifies Repr()
      ensures Valid()
      ensures (ok, View()) == InsertRow(old(View()), row)
    {
      ghost var cols := View().cols;
      ghost var all := InsertCells(cols, row);
      assert cols[0..] == cols && row[0..] == row && cols[..0] + all.1 == all.1;
      var c := 0;
      ok := true;
      while c < |columns| && ok
        invariant 0 <= c <= |columns| == |cols|
        invariant Valid() && View().cols == cols
        invariant all == if ok then AfterPrefix(cols[..c], InsertCells(cols[c..], row[c..])) else (false, cols)
        decreases |columns| - c, ok
      {
        InsertStep(cols, row, c);
        ok := AppendCell(c, row[c]);
        cols := View().cols;
        if ok {
          c := c + 1;
        }
      }
      assert c == |cols| ==> cols[..c] + [] == cols;
    }

    method GetRow(r: nat) returns (row: Row)
      requires Readable() && TableOk(View()) && r < RowCount(View())
      ensures row == RowAt(View(), r)
    {
      row := [];
      ghost var t := View();
      for c := 0 to |columns|
        invariant |row| == c
        invariant forall j :: 0 <= j < c ==> row[j] == ValueAt(t.cols[j], r)
      {
        assert t.cols[c] == columns[c].View();
        var v := columns[c].Get(r);
        row := row + [v];
      }
    }
  }

  lemma InsertStep(cols: seq<ColumnData>, row: Row, c: nat)
    requires |row| == |cols| && c < |cols|
    ensures AfterPrefix(cols[..c], InsertCells(cols[c..], row[c..])) ==
            match Append(cols[c], row[c])
              case Err => (false, cols)
              case Ok(d) => AfterPrefix(cols[c := d][..c + 1], InsertCells(cols[c := d][c + 1..], row[c + 1..]))
  {
    assert cols[c..][1..] == cols[c + 1..] && row[c..][1..] == row[c + 1..];
    assert cols[..c] + cols[c..] == cols;
    if Append(cols[c], row[c]).Ok? {
      var d := Append(cols[c], row[c]).value;
      var rest := InsertCells(cols[c + 1..], row[c + 1..]).1;
      assert cols[c := d][..c + 1] == cols[..c] + [d] && cols[c := d][c + 1..] == cols[c + 1..];
      assert cols[..c] + ([d] + rest) == cols[..c] + [d] + rest;
    }
  }

  function AfterPrefix(done: seq<ColumnData>, rest: (bool, seq<ColumnData>)): (bool, seq<ColumnData>) {
    (rest.0, done + rest.1)
  }
}
