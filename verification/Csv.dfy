/** CSV text: the quoting state machine of the reader, the writer of the shell, and their round trip. */
module Csv {
  import opened Seqs

  datatype Options = Options(delimiter: char, quote: char)

  const COMMAS: Options := Options(',', '"')

  type Grid = seq<seq<string>>

  // ---- The state machine ----

  datatype State = State(rows: Grid, row: seq<string>, field: string, inQuotes: bool, fieldStarted: bool)

  const START: State := State([], [], "", false, false)

  function EndField(s: State): State {
    s.(row := s.row + [s.field], field := "", fieldStarted := false)
  }

  function EndRow(s: State): State {
    var e := EndField(s);
    e.(rows := e.rows + [e.row], row := [])
  }

  /** One character outside quotes. */
  function StepPlain(s: State, c: char, opts: Options): State {
    if c == opts.quote then s.(inQuotes := true, fieldStarted := true)
    else if c == opts.delimiter then EndField(s).(fieldStarted := true)
    else if c == '\r' then s
    else if c == '\n' then EndRow(s)
    else s.(field := s.field + [c], fieldStarted := true)
  }

  function Run(s: State, text: string, opts: Options): State
    decreases |text|
  {
    if text == [] then s
    else if !s.inQuotes then Run(StepPlain(s, text[0], opts), text[1..], opts)
    else if text[0] != opts.quote then Run(s.(field := s.field + [text[0]]), text[1..], opts)
    else if |text| > 1 && text[1] == opts.quote then Run(s.(field := s.field + [opts.quote]), text[2..], opts)
    else Run(s.(inQuotes := false), text[1..], opts)
  }

  /** What is left in the last line becomes a record; a final line feed leaves nothing. */
  function Flush(s: State): Grid {
    if s.fieldStarted || s.field != "" || s.row != [] then EndRow(s).rows else s.rows
  }

  predicate BlankRecord(row: seq<string>) {
    |row| <= 1 && forall f :: f in row ==> f == ""
  }

  /** Without the blank records at the end. */
  function Trim(rows: Grid): Grid {
    if rows != [] && BlankRecord(rows[|rows| - 1]) then Trim(rows[..|rows| - 1]) else rows
  }

  const BOM: string := ['\U{EF}', '\U{BB}', '\U{BF}']

  function ParseGrid(text: string, opts: Options): Grid {
    Trim(Flush(Run(START, if BOM <= text then text[3..] else text, opts)))
  }

  /** The reader's loop over the text. */
  method ReadGrid(text: string, opts: Options) returns (grid: Grid)
    ensures grid == ParseGrid(text, opts)
  {
    var row: seq<string>, field: string, inQuotes, fieldStarted := [], "", false, false;
    var i := 0;
    if |text| >= 3 && text[0] == '\U{EF}' && text[1] == '\U{BB}' && text[2] == '\U{BF}' {
      i := 3;
    }
    assert BOM <= text <==> i == 3;
    ghost var start := text[i..];
    grid := [];
    while i < |text|
      invariant i <= |text|
      invariant Run(START, start, opts) == Run(State(grid, row, field, inQuotes, fieldStarted), text[i..], opts)
    {
      var c := text[i];
      assert text[i..][0] == c && text[i..][1..] == text[i + 1..];
      assert i + 1 < |text| ==> text[i..][1] == text[i + 1] && text[i..][2..] == text[i + 2..];
      if inQuotes {
        if c == opts.quote {
          if i + 1 < |text| && text[i + 1] == opts.quote {
            field := field + [opts.quote];
            i := i + 1;
          } else {
            inQuotes := false;
          }
        } else {
          field := field + [c];
        }
      } else if c == opts.quote {
        inQuotes, fieldStarted := true, true;
      } else if c == opts.delimiter {
        row, field, fieldStarted := row + [field], "", true;
      } else if c == '\r' {
      } else if c == '\n' {
        grid := grid + [row + [field]];
        row, field, fieldStarted := [], "", false;
      } else {
        field, fieldStarted := field + [c], true;
      }
      i := i + 1;
    }
    if fieldStarted || field != "" || row != [] {
      grid := grid + [row + [field]];
    }
    ghost var all := grid;
    while grid != [] && BlankRecord(grid[|grid| - 1])
      invariant Trim(grid) == Trim(all)
    {
      grid := grid[..|grid| - 1];
    }
  }

  // ---- The writer ----

  function Special(c: char): bool {
    c == ',' || c == '"' || c == '\n' || c == '\r'
  }

  predicate NeedsQuotes(f: string) {
    exists i :: 0 <= i < |f| && Special(f[i])
  }

  /** Every quote doubled. */
  function Doubled(f: string): string {
    if f == [] then [] else (if f[0] == '"' then ['"', '"'] else [f[0]]) + Doubled(f[1..])
  }

  function CsvField(f: string): string {
    if NeedsQuotes(f) then ['"'] + (Doubled(f) + ['"']) else f
  }

  /** The fields separated by commas, then a line feed. */
  function Line(fields: seq<string>): string {
    if fields == [] then ['\n']
    else if |fields| == 1 then CsvField(fields[0]) + ['\n']
    else CsvField(fields[0]) + ([','] + Line(fields[1..]))
  }

  function PrintGrid(grid: Grid): string {
    if grid == [] then [] else Line(grid[0]) + PrintGrid(grid[1..])
  }

  lemma {:induction false} DoubledSnoc(f: string, c: char)
    ensures Doubled(f + [c]) == Doubled(f) + if c == '"' then ['"', '"'] else [c]
    decreases |f|
  {
    if f == [] {
      assert ([] + [c])[1..] == [];
    } else {
      assert (f + [c])[1..] == f[1..] + [c];
      DoubledSnoc(f[1..], c);
    }
  }

  method WriteField(f: string) returns (o: string)
    ensures o == CsvField(f)
  {
    var needQuote := false;
    for i := 0 to |f|
      invariant needQuote <==> exists j :: 0 <= j < i && Special(f[j])
    {
      needQuote := needQuote || Special(f[i]);
    }
    if !needQuote { return f; }
    o := ['"'];
    for i := 0 to |f|
      invariant o == ['"'] + Doubled(f[..i])
    {
      PrefixSnoc(f, i);
      DoubledSnoc(f[..i], f[i]);
      if f[i] == '"' { o := o + ['"']; }
      o := o + [f[i]];
    }
    WholePrefix(f);
    o := o + ['"'];
  }

  /** One line of printCsv. */
  method WriteLine(fields: seq<string>) returns (o: string)
    ensures o == Line(fields)
  {
    o := [];
    for c := 0 to |fields|
      invariant if c == 0 then o == [] else o + Tail(fields[c..]) == Line(fields)
    {
      ghost var before := o;
      if c > 0 { o := o + [',']; }
      var f := WriteField(fields[c]);
      LineStep(before, fields, c);
      o := o + f;
    }
    if fields != [] { assert fields[|fields|..] == []; }
    o := o + ['\n'];
  }

  /** What follows the fields already written. */
  function Tail(fields: seq<string>): string {
    if fields == [] then ['\n'] else [','] + Line(fields)
  }

  lemma LineHead(fields: seq<string>, rest: seq<string>)
    requires fields != [] && rest == fields[1..]
    ensures Line(fields) == CsvField(fields[0]) + Tail(rest)
  {
  }

  lemma LineStep(o: string, fields: seq<string>, c: nat)
    requires c < |fields|
    ensures CsvField(fields[c]) + Tail(fields[c + 1..]) == Line(fields[c..])
    ensures o + [','] + CsvField(fields[c]) + Tail(fields[c + 1..]) == o + Tail(fields[c..])
    ensures c == 0 ==> fields[c..] == fields && [] + CsvField(fields[c]) + Tail(fields[c + 1..]) == Line(fields)
  {
    LineHead(fields[c..], fields[c + 1..]);
    AddNothing(CsvField(fields[c]));
    CommaStep(o, CsvField(fields[c]), Tail(fields[c + 1..]));
  }

  lemma CommaStep(o: string, f: string, tail: string)
    ensures o + [','] + f + tail == o + ([','] + (f + tail))
  {
  }

  method WriteGrid(header: seq<string>, body: Grid) returns (o: string)
    ensures o == PrintGrid([header] + body)
  {
    o := WriteLine(header);
    assert ([header] + body)[1..] == body;
    ghost var all := PrintGrid([header] + body);
    for r := 0 to |body|
      invariant o + PrintGrid(body[r..]) == all
    {
      var line := WriteLine(body[r]);
      assert body[r..][1..] == body[r + 1..];
      Regroup(o, line, PrintGrid(body[r + 1..]));
      o := o + line;
    }
    AddNothing(o);
  }

  // ---- Reading undoes writing ----

  /** Between fields: nothing of the next one has been read. */
  function Ready(rows: Grid, row: seq<string>, started: bool): State {
    State(rows, row, "", false, started)
  }

  predicate EndsField(rest: string) {
    rest != [] && (rest[0] == ',' || rest[0] == '\n')
  }

  lemma RunOne(s: State, c: char, rest: string)
    requires !s.inQuotes
    ensures Run(s, [c] + rest, COMMAS) == Run(StepPlain(s, c, COMMAS), rest, COMMAS)
  {
    assert ([c] + rest)[1..] == rest;
  }

  /** Plain characters are appended one by one. */
  lemma {:induction false} PlainRead(s: State, f: string, rest: string)
    requires !s.inQuotes && forall i :: 0 <= i < |f| ==> !Special(f[i])
    ensures Run(s, f + rest, COMMAS) == Run(s.(field := s.field + f, fieldStarted := s.fieldStarted || f != ""), rest, COMMAS)
    decreases |f|
  {
    if f == [] {
      AddNothing(rest);
      AddNothing(s.field);
    } else {
      SplitFirst(f);
      Regroup([f[0]], f[1..], rest);
      RunOne(s, f[0], f[1..] + rest);
      PlainRead(StepPlain(s, f[0], COMMAS), f[1..], rest);
      Regroup(s.field, [f[0]], f[1..]);
    }
  }

  lemma QuotedChar(s: State, c: char, rest: string)
    requires s.inQuotes
    ensures Run(s, (if c == '"' then ['"', '"'] else [c]) + rest, COMMAS) == Run(s.(field := s.field + [c]), rest, COMMAS)
  {
    if c == '"' {
      var t := ['"', '"'] + rest;
      assert t[0] == '"' && t[1] == '"' && t[2..] == rest;
    } else {
      assert ([c] + rest)[1..] == rest;
    }
  }

  /** Inside quotes everything is taken as it is, until a single quote. */
  lemma {:induction false} QuotedRead(s: State, f: string, rest: string)
    requires s.inQuotes && EndsField(rest)
    ensures Run(s, Doubled(f) + (['"'] + rest), COMMAS) == Run(s.(field := s.field + f, inQuotes := false), rest, COMMAS)
    decreases |f|
  {
    var close := ['"'] + rest;
    if f == [] {
      AddNothing(close);
      AddNothing(s.field);
      assert close[0] == '"' && close[1..] == rest && close[1] == rest[0];
    } else {
      var head := if f[0] == '"' then ['"', '"'] else [f[0]];
      Regroup(head, Doubled(f[1..]), close);
      QuotedChar(s, f[0], Doubled(f[1..]) + close);
      QuotedRead(s.(field := s.field + [f[0]]), f[1..], rest);
      SplitFirst(f);
      Regroup(s.field, [f[0]], f[1..]);
    }
  }

  /** A written field is read back whole. */
  lemma FieldRead(rows: Grid, row: seq<string>, started: bool, f: string, rest: string)
    requires EndsField(rest)
    ensures exists started' :: Run(Ready(rows, row, started), CsvField(f) + rest, COMMAS) == Run(State(rows, row, f, false, started'), rest, COMMAS)
  {
    var s := Ready(rows, row, started);
    if NeedsQuotes(f) {
      Regroup(['"'], Doubled(f) + ['"'], rest);
      Regroup(Doubled(f), ['"'], rest);
      RunOne(s, '"', Doubled(f) + (['"'] + rest));
      QuotedRead(StepPlain(s, '"', COMMAS), f, rest);
      AddNothing(f);
      assert Run(s, CsvField(f) + rest, COMMAS) == Run(State(rows, row, f, false, true), rest, COMMAS);
    } else {
      PlainRead(s, f, rest);
      AddNothing(f);
      assert Run(s, CsvField(f) + rest, COMMAS) == Run(State(rows, row, f, false, started || f != ""), rest, COMMAS);
    }
  }

  /** A written line is read back as one record. */
  lemma {:induction false} LineRead(rows: Grid, row: seq<string>, started: bool, fields: seq<string>, rest: string)
    requires fields != []
    ensures Run(Ready(rows, row, started), Line(fields) + rest, COMMAS) == Run(Ready(rows + [row + fields], [], false), rest, COMMAS)
    decreases |fields|
  {
    var f := fields[0];
    SplitFirst(fields);
    if |fields| == 1 {
      Regroup(CsvField(f), ['\n'], rest);
      FieldRead(rows, row, started, f, ['\n'] + rest);
      var started' :| Run(Ready(rows, row, started), CsvField(f) + (['\n'] + rest), COMMAS) == Run(State(rows, row, f, false, started'), ['\n'] + rest, COMMAS);
      RunOne(State(rows, row, f, false, started'), '\n', rest);
    } else {
      var more := Line(fields[1..]) + rest;
      Regroup(CsvField(f), [','] + Line(fields[1..]), rest);
      Regroup([','], Line(fields[1..]), rest);
      FieldRead(rows, row, started, f, [','] + more);
      var started' :| Run(Ready(rows, row, started), CsvField(f) + ([','] + more), COMMAS) == Run(State(rows, row, f, false, started'), [','] + more, COMMAS);
      RunOne(State(rows, row, f, false, started'), ',', more);
      LineRead(rows, row + [f], true, fields[1..], rest);
      Regroup(row, [f], fields[1..]);
    }
  }

  /** At least one field a row: what a result set with columns has. */
  predicate Wide(grid: Grid) {
    forall i :: 0 <= i < |grid| ==> grid[i] != []
  }

  lemma {:induction false} GridRead(rows: Grid, grid: Grid)
    requires Wide(grid)
    ensures Run(Ready(rows, [], false), PrintGrid(grid), COMMAS) == Ready(rows + grid, [], false)
    decreases |grid|
  {
    if grid == [] {
      AddNothing(rows);
    } else {
      LineRead(rows, [], false, grid[0], PrintGrid(grid[1..]));
      AddNothing(grid[0]);
      assert Wide(grid[1..]) by { assert forall i :: 0 <= i < |grid[1..]| ==> grid[1..][i] == grid[i + 1]; }
      GridRead(rows + [grid[0]], grid[1..]);
      SplitFirst(grid);
      Regroup(rows, [grid[0]], grid[1..]);
    }
  }

  lemma ReadsTrimmed(grid: Grid)
    requires Wide(grid)
    ensures Trim(Flush(Run(START, PrintGrid(grid), COMMAS))) == Trim(grid)
  {
    GridRead([], grid);
    AddNothing(grid);
  }

  // ---- The byte order mark ----

  lemma BomIsUnquoted(grid: Grid)
    requires Wide(grid) && BOM <= PrintGrid(grid)
    ensures grid != [] && BOM <= grid[0][0] && !NeedsQuotes(grid[0][0])
  {
    var text, f := PrintGrid(grid), grid[0][0];
    var line := Line(grid[0]);
    QuotedLine(grid[0]);
    assert line[0] == text[0] == BOM[0];
    var tail := line[|f|..];
    assert line == f + tail && (tail[0] == '\n' || tail[0] == ',');
    assert text == f + (tail + PrintGrid(grid[1..]));
    BomInFirst(f, tail + PrintGrid(grid[1..]));
  }

  lemma BomInFirst(f: string, rest: string)
    requires BOM <= f + rest && rest != [] && rest[0] !in BOM
    ensures BOM <= f
  {
    FirstOfRest(f, rest);
    var text := f + rest;
    assert text[0] == BOM[0] && text[1] == BOM[1] && text[2] == BOM[2];
  }

  lemma FirstOfRest(f: string, rest: string)
    requires rest != []
    ensures (f + rest)[|f|] == rest[0]
  {
  }

  lemma QuotedLine(fields: seq<string>)
    requires fields != []
    ensures Line(fields) != [] && (NeedsQuotes(fields[0]) ==> Line(fields)[0] == '"')
  {
  }

  /** The grid whose first field lost its first three characters. */
  function Bitten(grid: Grid): Grid
    requires grid != [] && grid[0] != [] && |grid[0][0]| >= 3
  {
    [[grid[0][0][3..]] + grid[0][1..]] + grid[1..]
  }

  lemma BittenText(grid: Grid)
    requires Wide(grid) && grid != [] && BOM <= grid[0][0] && !NeedsQuotes(grid[0][0])
    ensures PrintGrid(Bitten(grid)) == PrintGrid(grid)[3..]
  {
    var f, g := grid[0][0], grid[0][0][3..];
    assert !NeedsQuotes(g) by {
      assert forall i :: 0 <= i < |g| ==> g[i] == f[i + 3];
    }
    var row', tail := Bitten(grid)[0], if |grid[0]| == 1 then ['\n'] else [','] + Line(grid[0][1..]);
    assert row'[1..] == grid[0][1..] && Bitten(grid)[1..] == grid[1..];
    DropInFirst(f, tail, 3);
    DropInFirst(Line(grid[0]), PrintGrid(grid[1..]), 3);
    assert Line(grid[0]) == f + tail && Line(row') == g + tail;
  }

  lemma DropInFirst(a: string, b: string, n: nat)
    requires n <= |a|
    ensures (a + b)[n..] == a[n..] + b
  {
  }

  lemma TrimKeepsFirst(grid: Grid)
    requires grid != [] && grid[0] != [] && grid[0][0] != ""
    ensures Trim(grid) != [] && Trim(grid)[0] == grid[0]
  {
    if BlankRecord(grid[|grid| - 1]) {
      assert |grid| > 1 by {
        assert grid[0][0] in grid[0];
      }
      TrimKeepsFirst(grid[..|grid| - 1]);
    }
  }

  lemma TrimIsPrefix(grid: Grid)
    ensures Trim(grid) <= grid
  {
    if grid != [] && BlankRecord(grid[|grid| - 1]) {
      TrimIsPrefix(grid[..|grid| - 1]);
    }
  }

  /**
   Parsing what the shell printed gives back the grid, less its blank records at the end, whatever commas, quotes, CR
   or LF the fields hold: exactly when the text does not start with a byte order mark.
   */
  lemma CsvRoundTrip(grid: Grid)
    requires Wide(grid)
    ensures ParseGrid(PrintGrid(grid), COMMAS) == Trim(grid) <==> !(BOM <= PrintGrid(grid))
  {
    if BOM <= PrintGrid(grid) {
      BomIsUnquoted(grid);
      BittenText(grid);
      ReadsTrimmed(Bitten(grid));
      TrimKeepsFirst(grid);
      TrimIsPrefix(Bitten(grid));
      assert |Bitten(grid)[0][0]| < |grid[0][0]|;
    } else {
      ReadsTrimmed(grid);
    }
  }
}
