/** The fast path's pass over the typed buffers computes, group by group, what the hash aggregation computes. */
module FastGrouping {
  import opened Results
  import opened Seqs
  import opened Types
  import opened Doubles
  import opened Ast
  import opened Eval
  import opened Tables
  import opened RowKeys
  import opened Aggregation
  import opened Plans
  import opened FastPredicate
  import opened FastAggregate

  // ---- The two sides ----

  /**
   A fast shape over a table, beside the keys and aggregates of the general plan: `at[m]` is the aggregate that
   computes what spec m computes, and `back[j]` a spec that computes what aggregate j computes.
   */
  datatype Setting = Setting(t: TableData, shape: Shape, keys: seq<Expr>, aggs: seq<Agg>, at: seq<nat>, back: seq<nat>)

  function FuncFor(fn: AggFn): AggFunc {
    match fn
    case FnCount => COUNT
    case FnSum => SUM
    case FnAvg => AVG
    case FnMin => MIN
    case FnMax => MAX
  }

  /** The same function of the same column. */
  predicate Reads(t: TableData, s: AggSpec, a: Agg) {
    && a.star == s.star && FuncOf(a.func) == FuncFor(s.fn) && SpecOk(t, s)
    && (!a.star ==> !a.distinct && a.arg.Some? && a.arg.value.ColumnRef? && IndexOf(t.schema, a.arg.value.column) == s.col)
  }

  predicate KeyMatches(t: TableData, groupCol: int, keys: seq<Expr>) {
    if groupCol < 0 then keys == [] else |keys| == 1 && keys[0].ColumnRef? && IndexOf(t.schema, keys[0].column) == groupCol
  }

  ghost predicate Set(c: Setting) {
    && TableOk(c.t) && ShapeOk(c.t, c.shape) && Followed(c.t, c.shape) && ReadsResolve(c)
    && KeyMatches(c.t, c.shape.groupCol, c.keys)
    && |c.at| == |c.shape.specs| && |c.back| == |c.aggs|
    && (forall m :: 0 <= m < |c.at| ==> Served(c, m))
    && (forall j :: 0 <= j < |c.back| ==> Needed(c, j))
  }

  predicate ArgResolves(schema: Schema, a: Agg) {
    !a.star && a.arg.Some? && a.arg.value.ColumnRef? ==> RefResolves(schema, a.arg.value)
  }

  /** The keys and arguments of the general plan find the columns of their bare names. */
  predicate ReadsResolve(c: Setting) {
    && (forall i :: 0 <= i < |c.keys| && c.keys[i].ColumnRef? ==> RefResolves(c.t.schema, c.keys[i]))
    && forall j :: 0 <= j < |c.aggs| ==> ArgResolves(c.t.schema, c.aggs[j])
  }

  predicate Computes(c: Setting, m: nat, j: nat) {
    m < |c.shape.specs| && j < |c.aggs| && Reads(c.t, c.shape.specs[m], c.aggs[j])
  }

  predicate Served(c: Setting, m: nat) {
    m < |c.at| && Computes(c, m, c.at[m])
  }

  predicate Needed(c: Setting, j: nat) {
    j < |c.back| && Computes(c, c.back[j], j)
  }

  // ---- What the stored integers must satisfy ----

  predicate CellFits(c: ColumnData, r: nat)
    requires ColumnOk(c) && r < |c.valid|
  {
    c.valid[r] && KindOf(c.ty.id) == Int64 ==> FitsType(c.ty, c.i64[r])
  }

  predicate IsExtremeFn(fn: AggFn) {
    fn == FnMin || fn == FnMax
  }

  /** COUNT asks nothing of the cells; sums and averages that they fit; extremes also that they are within 2^53. */
  predicate ArgExact(t: TableData, s: AggSpec, r: nat)
    requires TableOk(t) && SpecOk(t, s) && r < RowCount(t)
  {
    !s.star ==> (s.fn != FnCount ==> CellFits(t.cols[s.col], r)) && (IsExtremeFn(s.fn) ==> CellExact(t.cols[s.col], r))
  }

  predicate KeyExact(t: TableData, groupCol: int, r: nat)
    requires TableOk(t) && groupCol < |t.cols| && r < RowCount(t)
  {
    groupCol >= 0 ==> CellFits(t.cols[groupCol], r)
  }

  predicate InputExact(t: TableData, shape: Shape, r: nat)
    requires TableOk(t) && ShapeOk(t, shape) && r < RowCount(t)
  {
    KeyExact(t, shape.groupCol, r) && forall m :: 0 <= m < |shape.specs| ==> ArgExact(t, shape.specs[m], r)
  }

  /** Compared cells in every row; keys and arguments in the rows that pass. */
  predicate CellsExact(t: TableData, shape: Shape)
    requires TableOk(t) && ShapeOk(t, shape) && AllReadable(t, shape.preds)
  {
    forall r :: 0 <= r < RowCount(t) ==> RowExact(t, shape.preds, r) && (AllHold(t, shape.preds, r) ==> InputExact(t, shape, r))
  }

  /** A value of the alternative that cells of this type show. */
  function Sample(ty: DataType): Value {
    match KindOf(ty.id)
    case Int64 => MakeIntValue(ty, 0)
    case Double => Dbl(0.0)
    case String => Str("")
  }

  predicate Shows(ty: DataType, v: Value) {
    v.Null? || SameVariant(v, Sample(ty))
  }

  lemma CellShows(c: ColumnData, r: nat)
    requires ColumnOk(c) && r < |c.valid|
    ensures Shows(c.ty, ValueAt(c, r))
  {
  }

  predicate SmallInt(v: Value) {
    v.Int? ==> Small(v.i)
  }

  // ---- Inputs ----

  /** A cell as the general path sees it, and as the fast path does. */
  predicate ArgPair(t: TableData, s: AggSpec, v: Value, w: Value) {
    && (v.Null? <==> w.Null?) && (w.Null? || w.Dbl?)
    && (s.fn != FnCount && !v.Null? ==> ToDouble(v) == Ok(w.r))
    && (IsExtremeFn(s.fn) && !v.Null? ==> 0 <= s.col < |t.cols| && Shows(t.cols[s.col].ty, v) && SmallInt(v))
  }

  lemma ArgIsPair(t: TableData, s: AggSpec, r: nat)
    requires TableOk(t) && SpecOk(t, s) && r < RowCount(t) && !s.star && ArgExact(t, s, r)
    ensures ArgPair(t, s, ValueAt(t.cols[s.col], r), ArgAtRow(t, s, r))
  {
    var c := t.cols[s.col];
    CellShows(c, r);
    if c.valid[r] {
      if KindOf(c.ty.id) == Int64 {
        ShownIffFits(c.ty, c.i64[r]);
        CastIsExact(0);
        CastIsExact(1);
      }
    }
  }

  /** The fast key of a value. */
  function FastKeyOf(v: Value): string {
    match v
    case Null => ""
    case Str(s) => "S" + s
    case Dbl(r) => "D" + RealToString(r)
    case Int(_, i) => "I" + IntToString(i)
    case Bool(b) => "I" + IntToString(if b then 1 else 0)
  }

  lemma FastKeyIsOfValue(t: TableData, groupCol: nat, r: nat)
    requires TableOk(t) && groupCol < |t.cols| && r < RowCount(t) && KeyExact(t, groupCol, r)
    ensures KeyAtRow(t, groupCol, r) == FastKeyOf(ValueAt(t.cols[groupCol], r))
  {
    var c := t.cols[groupCol];
    if c.valid[r] && KindOf(c.ty.id) == Int64 {
      ShownIffFits(c.ty, c.i64[r]);
    }
  }

  lemma SameTail(a: char, x: string, y: string)
    ensures [a] + x == [a] + y <==> x == y
  {
    assert ([a] + x)[1..] == x && ([a] + y)[1..] == y;
  }

  /** Both key renderings tell the values of one column apart in the same cases. */
  lemma KeysTellAlike(ty: DataType, v: Value, w: Value)
    requires Shows(ty, v) && Shows(ty, w)
    ensures RowKey([v]) == RowKey([w]) <==> FastKeyOf(v) == FastKeyOf(w)
  {
    OneKey(v);
    OneKey(w);
    SameTail(SEPARATOR, KeyBody(v), KeyBody(w));
    BodyTellsValue(v, w);
    if !v.Null? && !w.Null? {
      match v {
        case Str(_) => SameTail('S', v.s, w.s);
        case Dbl(_) => SameTail('D', RealToString(v.r), RealToString(w.r));
        case Int(_, _) =>
          SameTail('I', IntToString(v.i), IntToString(w.i));
          if IntToString(v.i) == IntToString(w.i) { IntToStringInjective(v.i, w.i); }
        case Bool(_) => BoolKeys();
      }
    }
  }

  lemma BoolKeys()
    ensures FastKeyOf(Bool(true)) != FastKeyOf(Bool(false))
  {
    assert FastKeyOf(Bool(true))[1] == '1' && FastKeyOf(Bool(false))[1] == '0';
  }

  lemma OneKey(v: Value)
    ensures RowKey([v]) == [SEPARATOR] + KeyBody(v)
  {
    assert [v][1..] == [];
    AddNothing(KeyBody(v));
  }

  predicate KeyPair(c: Setting, x: Input, y: Input) {
    if c.shape.groupCol < 0 then x.keyValues == [] && x.key == RowKey([]) && y.key == "" && |y.keyValues| == 1
    else
      && c.shape.groupCol < |c.t.cols| && |y.keyValues| == 1 && x.keyValues == y.keyValues
      && Shows(c.t.cols[c.shape.groupCol].ty, y.keyValues[0])
      && x.key == RowKey([y.keyValues[0]]) && y.key == FastKeyOf(y.keyValues[0])
  }

  ghost predicate ArgsPair(c: Setting, x: Row, y: Row) {
    && |x| == |c.aggs| && |y| == |c.shape.specs|
    && forall m: nat, j: nat :: Computes(c, m, j) && !c.aggs[j].star ==> ArgPair(c.t, c.shape.specs[m], x[j], y[m])
  }

  ghost predicate InputPair(c: Setting, x: Input, y: Input) {
    KeyPair(c, x, y) && ArgsPair(c, x.args, y.args)
  }

  lemma {:induction false} ArgValuesExist(pow: Pow, aggs: seq<Agg>, schema: Schema, row: Row)
    requires forall j :: 0 <= j < |aggs| ==> ArgValue(pow, aggs[j], schema, row).Ok?
    ensures ArgValues(pow, aggs, schema, row).Ok?
    decreases |aggs|
  {
    if aggs != [] {
      assert forall j :: 0 <= j < |aggs[1..]| ==> aggs[1..][j] == aggs[j + 1];
      ArgValuesExist(pow, aggs[1..], schema, row);
    }
  }

  /** An aggregate argument on the general path is the cell of the column the fast path reads. */
  lemma ArgRead(pow: Pow, t: TableData, s: AggSpec, a: Agg, r: nat)
    requires TableOk(t) && ArgResolves(t.schema, a) && Reads(t, s, a) && r < RowCount(t)
    ensures ArgValue(pow, a, t.schema, RowAt(t, r)) == Ok(if a.star then Null else ValueAt(t.cols[s.col], r))
  {
    if !a.star {
      PlainLookup(t.schema, RowAt(t, r), a.arg.value);
    }
  }

  lemma ArgsRead(pow: Pow, c: Setting, r: nat) returns (args: Row)
    requires Set(c) && r < RowCount(c.t) && InputExact(c.t, c.shape, r)
    ensures ArgValues(pow, c.aggs, c.t.schema, RowAt(c.t, r)) == Ok(args)
    ensures ArgsPair(c, args, ArgsAtRow(c.t, c.shape.specs, r))
  {
    var row, specs := RowAt(c.t, r), c.shape.specs;
    forall j | 0 <= j < |c.aggs| ensures ArgValue(pow, c.aggs[j], c.t.schema, row).Ok? {
      assert Needed(c, j) && ArgResolves(c.t.schema, c.aggs[j]);
      ArgRead(pow, c.t, specs[c.back[j]], c.aggs[j], r);
    }
    ArgValuesExist(pow, c.aggs, c.t.schema, row);
    args := ArgValues(pow, c.aggs, c.t.schema, row).value;
    forall m: nat, j: nat | Computes(c, m, j) && !c.aggs[j].star
      ensures ArgPair(c.t, c.shape.specs[m], args[j], ArgsAtRow(c.t, specs, r)[m])
    {
      assert ArgResolves(c.t.schema, c.aggs[j]);
      ArgRead(pow, c.t, specs[m], c.aggs[j], r);
      ArgIsPair(c.t, specs[m], r);
    }
  }

  lemma KeyRead(pow: Pow, c: Setting, r: nat, args: Row) returns (kv: Row)
    requires Set(c) && r < RowCount(c.t) && InputExact(c.t, c.shape, r)
    ensures EvaluateAll(pow, c.keys, c.t.schema, RowAt(c.t, r)) == Ok(kv)
    ensures KeyPair(c, Input(RowKey(kv), kv, args), FastInput(c.t, c.shape, r))
  {
    var row := RowAt(c.t, r);
    kv := [];
    if c.shape.groupCol >= 0 {
      PlainLookup(c.t.schema, row, c.keys[0]);
      FastKeyIsOfValue(c.t, c.shape.groupCol, r);
      CellShows(c.t.cols[c.shape.groupCol], r);
      var v := ValueAt(c.t.cols[c.shape.groupCol], r);
      kv := [v];
      OneKeyEvaluates(pow, c.keys[0], c.t.schema, row, v);
      assert c.keys == [c.keys[0]];
      var y := FastInput(c.t, c.shape, r);
      assert y.keyValues == kv && y.keyValues[0] == v && kv == [y.keyValues[0]];
    }
  }

  lemma OneKeyEvaluates(pow: Pow, e: Expr, schema: Schema, row: Row, v: Value)
    requires Evaluate(pow, e, schema, row) == Ok(v)
    ensures EvaluateAll(pow, [e], schema, row) == Ok([v])
  {
    var none: seq<Expr> := [];
    assert [e][1..] == none && EvaluateAll(pow, none, schema, row) == Ok([]);
    AddNothing([v]);
  }

  lemma InputRead(pow: Pow, c: Setting, r: nat) returns (x: Input)
    requires Set(c) && r < RowCount(c.t) && InputExact(c.t, c.shape, r)
    ensures InputOf(pow, c.keys, c.aggs, c.t.schema, RowAt(c.t, r)) == Ok(x)
    ensures InputPair(c, x, FastInput(c.t, c.shape, r))
  {
    var args := ArgsRead(pow, c, r);
    var kv := KeyRead(pow, c, r, args);
    x := Input(RowKey(kv), kv, args);
  }

  /** The first n rows that pass the predicate. */
  function PassingRows(t: TableData, preds: seq<PredAtom>, n: nat): seq<Row>
    requires TableOk(t) && AllReadable(t, preds) && n <= RowCount(t)
  {
    if n == 0 then []
    else
      var before := PassingRows(t, preds, n - 1);
      if AllHold(t, preds, n - 1) then before + [RowAt(t, n - 1)] else before
  }

  ghost predicate InputsPair(c: Setting, xs: seq<Input>, ys: seq<Input>) {
    |xs| == |ys| && forall i :: 0 <= i < |xs| ==> InputPair(c, xs[i], ys[i])
  }

  /** xs are the inputs of the first n passing rows, paired with those of the fast path. */
  ghost predicate ReadSoFar(pow: Pow, c: Setting, n: nat, xs: seq<Input>)
    requires Set(c) && n <= RowCount(c.t)
  {
    && InputsOf(pow, c.keys, c.aggs, c.t.schema, PassingRows(c.t, c.shape.preds, n)) == Ok(xs)
    && InputsPair(c, xs, FastInputs(c.t, c.shape, n))
  }

  lemma PairsExtend(c: Setting, xs: seq<Input>, ys: seq<Input>, x: Input, y: Input)
    requires InputsPair(c, xs, ys) && InputPair(c, x, y)
    ensures InputsPair(c, xs + [x], ys + [y])
  {
  }

  lemma ReadOneMore(pow: Pow, c: Setting, n: nat, before: seq<Input>) returns (xs: seq<Input>)
    requires Set(c) && n < RowCount(c.t) && (AllHold(c.t, c.shape.preds, n) ==> InputExact(c.t, c.shape, n)) && ReadSoFar(pow, c, n, before)
    ensures ReadSoFar(pow, c, n + 1, xs)
  {
    xs := before;
    if AllHold(c.t, c.shape.preds, n) {
      var x := InputRead(pow, c, n);
      InputsSnoc(pow, c.keys, c.aggs, c.t.schema, PassingRows(c.t, c.shape.preds, n), RowAt(c.t, n));
      PairsExtend(c, before, FastInputs(c.t, c.shape, n), x, FastInput(c.t, c.shape, n));
      xs := before + [x];
    }
  }

  lemma NothingRead(pow: Pow, c: Setting)
    requires Set(c)
    ensures ReadSoFar(pow, c, 0, [])
  {
  }

  /** The inputs of the hash aggregation over the passing rows pair off with those of the fast path. */
  lemma InputsRead(pow: Pow, c: Setting, n: nat) returns (xs: seq<Input>)
    requires Set(c) && n <= RowCount(c.t) && CellsExact(c.t, c.shape)
    ensures ReadSoFar(pow, c, n, xs)
  {
    xs := [];
    NothingRead(pow, c);
    for i := 0 to n
      invariant ReadSoFar(pow, c, i, xs)
    {
      xs := ReadOneMore(pow, c, i, xs);
    }
  }

  // ---- Groups ----

  /** Two rows share a group on one path exactly when they do on the other. */
  lemma KeysAgree(c: Setting, x: Input, y: Input, x': Input, y': Input)
    requires KeyPair(c, x, y) && KeyPair(c, x', y')
    ensures x.key == x'.key <==> y.key == y'.key
  {
    if c.shape.groupCol >= 0 {
      KeysTellAlike(c.t.cols[c.shape.groupCol].ty, y.keyValues[0], y'.keyValues[0]);
    }
  }

  lemma {:induction false} PositionsAgree(ks: seq<string>, ls: seq<string>, k: string, l: string)
    requires |ks| == |ls| && forall g :: 0 <= g < |ks| ==> (ks[g] == k <==> ls[g] == l)
    ensures PositionOf(ks, k) == PositionOf(ls, l)
    decreases |ks|
  {
    if ks != [] {
      assert forall g :: 0 <= g < |ks[1..]| ==> ks[1..][g] == ks[g + 1] && ls[1..][g] == ls[g + 1];
      PositionsAgree(ks[1..], ls[1..], k, l);
    }
  }

  lemma GroupKey(xs: seq<Input>, g: nat)
    requires g < |Groups(xs)|
    ensures Groups(xs)[g] != [] && Groups(xs)[g][0].key == KeysInOrder(xs)[g]
  {
    KeysComeFromInputs(xs);
    assert KeysInOrder(xs)[g] in KeysInOrder(xs);
  }

  ghost predicate GroupsPair(c: Setting, gs: seq<seq<Input>>, hs: seq<seq<Input>>) {
    |gs| == |hs| && forall i :: 0 <= i < |gs| ==> InputsPair(c, gs[i], hs[i])
  }

  lemma SlotsAgree(c: Setting, xs: seq<Input>, ys: seq<Input>, x: Input, y: Input)
    requires GroupsPair(c, Groups(xs), Groups(ys)) && InputPair(c, x, y)
    ensures PositionOf(KeysInOrder(xs), x.key) == PositionOf(KeysInOrder(ys), y.key)
  {
    forall g | 0 <= g < |Groups(xs)| ensures KeysInOrder(xs)[g] == x.key <==> KeysInOrder(ys)[g] == y.key {
      GroupKey(xs, g);
      GroupKey(ys, g);
      assert InputsPair(c, Groups(xs)[g], Groups(ys)[g]);
      KeysAgree(c, Groups(xs)[g][0], Groups(ys)[g][0], x, y);
    }
    PositionsAgree(KeysInOrder(xs), KeysInOrder(ys), x.key, y.key);
  }

  lemma PairsGrow(c: Setting, gs: seq<seq<Input>>, hs: seq<seq<Input>>, x: Input, y: Input, p: nat)
    requires GroupsPair(c, gs, hs) && InputPair(c, x, y) && p <= |gs|
    ensures GroupsPair(c, if p < |gs| then gs[p := gs[p] + [x]] else gs + [[x]], if p < |hs| then hs[p := hs[p] + [y]] else hs + [[y]])
  {
    assert p < |gs| ==> InputsPair(c, gs[p], hs[p]);
  }

  lemma OneMoreAgrees(c: Setting, xs: seq<Input>, ys: seq<Input>, x: Input, y: Input)
    requires GroupsPair(c, Groups(xs), Groups(ys)) && InputPair(c, x, y)
    ensures GroupsPair(c, Groups(xs + [x]), Groups(ys + [y]))
  {
    SlotsAgree(c, xs, ys, x, y);
    GroupsGrow(xs, x);
    GroupsGrow(ys, y);
    PairsGrow(c, Groups(xs), Groups(ys), x, y, PositionOf(KeysInOrder(xs), x.key));
  }

  /** Paired inputs fall into paired groups, in the same first-appearance order. */
  lemma GroupsAgree(c: Setting, xs: seq<Input>, ys: seq<Input>)
    requires InputsPair(c, xs, ys)
    ensures GroupsPair(c, Groups(xs), Groups(ys))
  {
    for i := 0 to |xs|
      invariant GroupsPair(c, Groups(xs[..i]), Groups(ys[..i]))
    {
      OneMoreAgrees(c, xs[..i], ys[..i], xs[i], ys[i]);
      PrefixSnoc(xs, i);
      PrefixSnoc(ys, i);
    }
    WholePrefix(xs);
    WholePrefix(ys);
  }

  // ---- Accumulators ----

  predicate ExtremePair(ty: DataType, m: Option<real>, v: Value) {
    if v.Null? then m.None? else m.Some? && Shows(ty, v) && SmallInt(v) && ToDouble(v) == Ok(m.value)
  }

  predicate StatePair(t: TableData, s: AggSpec, st: AggState, acc: Acc) {
    && st.count == acc.count
    && (s.fn == FnSum || s.fn == FnAvg ==> st.sum == acc.sum)
    && (IsExtremeFn(s.fn) && !s.star ==>
          0 <= s.col < |t.cols| && ExtremePair(t.cols[s.col].ty, if s.fn == FnMin then st.mn else st.mx, acc.minmax)
          && (st.count > 0 <==> !acc.minmax.Null?))
  }

  /** Values of one column compare as their doubles do. */
  lemma CompareAsDoubles(ty: DataType, v: Value, u: Value)
    requires !v.Null? && !u.Null? && Shows(ty, v) && Shows(ty, u) && KindOf(ty.id) != String && SmallInt(v) && SmallInt(u)
    ensures ToDouble(v).Ok? && ToDouble(u).Ok? && ValueLess(v, u) == Ok(ToDouble(v).value < ToDouble(u).value)
  {
    if v.Int? {
      CastIsExact(v.i);
      CastIsExact(u.i);
    }
  }

  lemma StepPaired(t: TableData, s: AggSpec, a: Agg, st: AggState, acc: Acc, v: Value, w: Value)
    requires Reads(t, s, a) && Finite(s) && StatePair(t, s, st, acc) && (!a.star ==> ArgPair(t, s, v, w))
    ensures AccStep(a, acc, v).Ok? && StatePair(t, s, Step(s, st, w), AccStep(a, acc, v).value)
  {
    if !a.star && !v.Null? && IsExtremeFn(s.fn) && !acc.minmax.Null? {
      var ty := t.cols[s.col].ty;
      CompareAsDoubles(ty, v, acc.minmax);
      CompareAsDoubles(ty, acc.minmax, v);
    }
  }

  lemma {:induction false} FoldPaired(t: TableData, s: AggSpec, a: Agg, vs: Row, ws: Row)
    requires Reads(t, s, a) && Finite(s) && |vs| == |ws|
    requires !a.star ==> forall i :: 0 <= i < |vs| ==> ArgPair(t, s, vs[i], ws[i])
    ensures AccFold(a, vs).Ok? && StatePair(t, s, Fold(s, ws), AccFold(a, vs).value)
    decreases |vs|
  {
    if vs != [] {
      var n := |vs| - 1;
      FoldPaired(t, s, a, vs[..n], ws[..n]);
      StepPaired(t, s, a, Fold(s, ws[..n]), AccFold(a, vs[..n]).value, vs[n], ws[n]);
    }
  }

  lemma GroupFoldPaired(c: Setting, g: seq<Input>, h: seq<Input>, m: nat, j: nat)
    requires Set(c) && InputsPair(c, g, h) && Computes(c, m, j)
    ensures AccFold(c.aggs[j], ArgsOf(g, j)).Ok?
    ensures StatePair(c.t, c.shape.specs[m], Fold(c.shape.specs[m], ArgsOf(h, m)), AccFold(c.aggs[j], ArgsOf(g, j)).value)
  {
    forall i | 0 <= i < |g| && !c.aggs[j].star ensures ArgPair(c.t, c.shape.specs[m], ArgsOf(g, j)[i], ArgsOf(h, m)[i]) {
      assert InputPair(c, g[i], h[i]);
    }
    FoldPaired(c.t, c.shape.specs[m], c.aggs[j], ArgsOf(g, j), ArgsOf(h, m));
  }

  lemma {:induction false} GroupAccsExist(c: Setting, g: seq<Input>, h: seq<Input>, n: nat)
    requires Set(c) && InputsPair(c, g, h) && n <= |c.aggs|
    ensures GroupAccs(c.aggs, g, n).Ok?
  {
    if n > 0 {
      GroupAccsExist(c, g, h, n - 1);
      assert Needed(c, n - 1);
      GroupFoldPaired(c, g, h, c.back[n - 1], n - 1);
    }
  }

  // ---- Output rows ----

  /** An aggregate's value on the general path, and as the fast path shows it. */
  predicate CellPair(t: TableData, s: AggSpec, v: Value, w: Value) {
    if !IsExtremeFn(s.fn) then v == w && (if s.fn == FnCount then v.Int? && v.w == W64 else v.Null? || v.Dbl?)
    else
      && 0 <= s.col < |t.cols| && KindOf(t.cols[s.col].ty.id) != String
      && (v.Null? <==> w.Null?)
      && (!v.Null? ==> Shows(t.cols[s.col].ty, v) && SmallInt(v) && w.Dbl? && ToDouble(v) == Ok(w.r))
  }

  ghost predicate OutPair(c: Setting, out: Row, g: Group) {
    && GroupShowable(c.shape, g)
    && |out| == |c.keys| + |c.aggs|
    && (c.shape.groupCol >= 0 ==> |c.keys| == 1 && out[0] == g.key && c.shape.groupCol < |c.t.cols| && Shows(c.t.cols[c.shape.groupCol].ty, g.key))
    && forall m: nat, j: nat :: Computes(c, m, j) ==>
         CellPair(c.t, c.shape.specs[m], out[|c.keys| + j], Show(c.shape.specs[m], g.aggs[m]))
  }

  lemma ShownPair(t: TableData, s: AggSpec, a: Agg, st: AggState, acc: Acc)
    requires Reads(t, s, a) && Finite(s) && StatePair(t, s, st, acc) && Showable(s, st)
    ensures CellPair(t, s, AccOut(a, acc), Show(s, st))
  {
  }

  lemma GroupCellPaired(c: Setting, g: seq<Input>, h: seq<Input>, accs: seq<Acc>, m: nat, j: nat)
    requires Set(c) && InputsPair(c, g, h) && GroupAccs(c.aggs, g, |c.aggs|) == Ok(accs) && Computes(c, m, j)
    ensures CellPair(c.t, c.shape.specs[m], Outputs(c.aggs, accs)[j], Show(c.shape.specs[m], StatesOf(c.shape.specs, h)[m]))
  {
    GroupFoldPaired(c, g, h, m, j);
    GroupAccsAt(c.aggs, g, |c.aggs|, j);
    ShownPair(c.t, c.shape.specs[m], c.aggs[j], Fold(c.shape.specs[m], ArgsOf(h, m)), accs[j]);
  }

  lemma OutPairFromCells(c: Setting, kv: Row, outs: Row, f: Group)
    requires |kv| == |c.keys| && |outs| == |c.aggs| && GroupShowable(c.shape, f)
    requires c.shape.groupCol >= 0 ==> kv == [f.key] && c.shape.groupCol < |c.t.cols| && Shows(c.t.cols[c.shape.groupCol].ty, f.key)
    requires forall m: nat, j: nat :: Computes(c, m, j) ==> CellPair(c.t, c.shape.specs[m], outs[j], Show(c.shape.specs[m], f.aggs[m]))
    ensures OutPair(c, kv + outs, f)
  {
  }

  /** One group of paired inputs gives a paired output row. */
  lemma GroupPaired(c: Setting, g: seq<Input>, h: seq<Input>, kv: Row)
    requires Set(c) && InputsPair(c, g, h) && |kv| == |c.keys|
    requires c.keys != [] ==> h != [] && kv == h[0].keyValues
    ensures GroupAccs(c.aggs, g, |c.aggs|).Ok?
    ensures OutPair(c, kv + Outputs(c.aggs, GroupAccs(c.aggs, g, |c.aggs|).value), GroupFrom(c.shape.specs, h))
  {
    GroupAccsExist(c, g, h, |c.aggs|);
    var accs := GroupAccs(c.aggs, g, |c.aggs|).value;
    var f := GroupFrom(c.shape.specs, h);
    if c.keys != [] {
      assert InputPair(c, g[0], h[0]);
    }
    forall m: nat, j: nat | Computes(c, m, j) ensures CellPair(c.t, c.shape.specs[m], Outputs(c.aggs, accs)[j], Show(c.shape.specs[m], f.aggs[m])) {
      GroupCellPaired(c, g, h, accs, m, j);
    }
    OutPairFromCells(c, kv, Outputs(c.aggs, accs), f);
  }

  ghost predicate OutsPair(c: Setting, out: seq<Row>, gs: seq<Group>) {
    |out| == |gs| && forall i :: 0 <= i < |out| ==> OutPair(c, out[i], gs[i])
  }

  lemma GroupRowPaired(c: Setting, g: seq<Input>, h: seq<Input>)
    requires Set(c) && InputsPair(c, g, h) && g != []
    ensures GroupRow(c.aggs, g).Ok? && OutPair(c, GroupRow(c.aggs, g).value, GroupFrom(c.shape.specs, h))
  {
    assert InputPair(c, g[0], h[0]);
    GroupPaired(c, g, h, g[0].keyValues);
  }

  lemma GroupRowsPaired(c: Setting, gs: seq<seq<Input>>, hs: seq<seq<Input>>)
    requires Set(c) && GroupsPair(c, gs, hs) && forall i :: 0 <= i < |gs| ==> gs[i] != []
    ensures GroupRows(c.aggs, gs).Ok? && OutsPair(c, GroupRows(c.aggs, gs).value, GroupsFrom(c.shape.specs, hs))
  {
    forall i | 0 <= i < |gs|
      ensures GroupRow(c.aggs, gs[i]).Ok? && OutPair(c, GroupRow(c.aggs, gs[i]).value, GroupFrom(c.shape.specs, hs[i]))
    {
      GroupRowPaired(c, gs[i], hs[i]);
    }
  }

  /**
   The hash aggregation over the passing rows succeeds, and pairs off with the fast path's groups: the same keys in
   the same order, the same counts, sums and averages, extremes equal as numbers, and one row when there is no GROUP BY.
   */
  lemma AggregationsAgree(pow: Pow, c: Setting) returns (out: seq<Row>)
    requires Set(c) && CellsExact(c.t, c.shape)
    ensures AggregateRows(pow, c.keys, c.aggs, c.t.schema, PassingRows(c.t, c.shape.preds, RowCount(c.t))) == Ok(out)
    ensures OutsPair(c, out, FastGroups(c.t, c.shape))
  {
    var n := RowCount(c.t);
    var rows, ys := PassingRows(c.t, c.shape.preds, n), FastInputs(c.t, c.shape, n);
    var xs := InputsRead(pow, c, n);
    if c.keys == [] && rows == [] {
      NewAccsHold(c.aggs);
      GroupPaired(c, [], [], []);
      AddNothing(Outputs(c.aggs, NewAccs(c.aggs)));
      out := [Outputs(c.aggs, NewAccs(c.aggs))];
    } else {
      GroupsAgree(c, xs, ys);
      GroupsPartition(xs);
      GroupRowsPaired(c, Groups(xs), Groups(ys));
      out := GroupRows(c.aggs, Groups(xs)).value;
    }
  }
}
