/**
 The typed fast path for `SELECT [key,] AGG(column).. FROM t [WHERE atoms] [GROUP BY key] [ORDER BY ..] [LIMIT ..]`:
 the shape gate, the pass over the typed buffers, and the sort and trim of the small result.
 */
module FastAggregate {
  import opened Results
  import opened Types
  import opened Ast
  import opened Eval
  import opened Tables
  import opened Ordering
  import opened RowOrder
  import opened Aggregation
  import opened Plans
  import opened Planner
  import opened FastPredicate

  datatype AggFn = FnCount | FnSum | FnAvg | FnMin | FnMax

  /** `col` is -1 for a call on `*`. */
  datatype AggSpec = AggSpec(fn: AggFn, star: bool, col: int, outName: string, outType: DataType)

  /** `mn` and `mx` are None while they are still the infinities they start from. */
  datatype AggState = AggState(count: nat, sum: real, mn: Option<real>, mx: Option<real>)

  const NEW_STATE: AggState := AggState(0, 0.0, None, None)

  datatype Group = Group(aggs: seq<AggState>, key: Value)

  /** What the gate reads off a statement; `groupCol` is -1 without GROUP BY. */
  datatype Shape = Shape(groupCol: int, groupName: string, hasKey: bool, specs: seq<AggSpec>, preds: seq<PredAtom>)

  // ---- The shape gate ----

  function FnOf(name: string): Option<AggFn> {
    if name == "COUNT" then Some(FnCount)
    else if name == "SUM" then Some(FnSum)
    else if name == "AVG" then Some(FnAvg)
    else if name == "MIN" then Some(FnMin)
    else if name == "MAX" then Some(FnMax)
    else None
  }

  /** The single unaliased base table of a statement without set operation, DISTINCT and HAVING. */
  function FastTable(stmt: SelectStmt, cat: Catalog): Option<TableData> {
    if stmt.setOp.Some? || stmt.distinct || |stmt.from| != 1 || stmt.having.Some? then None
    else if !stmt.from[0].TableRef? || stmt.from[0].name !in cat then None
    else Some(cat[stmt.from[0].name])
  }

  function ReadGroupBy(groupBy: Option<seq<Expr>>, t: TableData): Option<(int, string)> {
    if groupBy.None? then Some((-1, ""))
    else
      var keys := groupBy.value;
      if |keys| != 1 || !keys[0].ColumnRef? || IndexOf(t.schema, keys[0].column) < 0 then None
      else Some((IndexOf(t.schema, keys[0].column), keys[0].column))
  }

  /** The argument column of a call: -1 for `*`, otherwise one column with a numeric buffer. */
  function ReadArgument(f: Expr, t: TableData): Option<int>
    requires f.FunctionCall? && |t.cols| == |t.schema|
  {
    if f.star then Some(-1)
    else if f.distinct || |f.args| != 1 || !f.args[0].ColumnRef? then None
    else
      var col := IndexOf(t.schema, f.args[0].column);
      if col < 0 || KindOf(t.cols[col].ty.id) == String then None else Some(col)
  }

  function ReadSpec(item: SelectItem, t: TableData): Option<AggSpec>
    requires |t.cols| == |t.schema|
  {
    if !item.expr.FunctionCall? then None
    else
      var f := item.expr;
      var fn, col := FnOf(f.name), ReadArgument(f, t);
      if fn.None? || col.None? then None
      else Some(AggSpec(fn.value, f.star, col.value, if item.alias.Some? then item.alias.value else f.name,
                        if f.name == "COUNT" then SimpleType(INT64) else NullableDouble()))
  }

  /** Whether the key is selected, and the aggregates in order; other items are refused. */
  function ReadItems(items: seq<SelectItem>, t: TableData, groupCol: int, groupName: string): Option<(bool, seq<AggSpec>)>
    requires |t.cols| == |t.schema|
  {
    if items == [] then Some((false, []))
    else
      var n := |items| - 1;
      var before := ReadItems(items[..n], t, groupCol, groupName);
      if before.None? then None
      else if items[n].expr.ColumnRef? then
        if groupCol < 0 || items[n].expr.column != groupName then None else Some((true, before.value.1))
      else
        var spec := ReadSpec(items[n], t);
        if spec.None? then None else Some((before.value.0, before.value.1 + [spec.value]))
  }

  function ReadWhere(where: Option<Expr>, t: TableData): Option<seq<PredAtom>> {
    if where.None? then Some([]) else ParsePredicate(where.value, t)
  }

  function ReadShape(stmt: SelectStmt, t: TableData): Option<Shape>
    requires |t.cols| == |t.schema|
  {
    var key := ReadGroupBy(stmt.groupBy, t);
    if key.None? then None
    else
      var items := ReadItems(stmt.selectList, t, key.value.0, key.value.1);
      var preds := ReadWhere(stmt.where, t);
      if items.None? || items.value.1 == [] || preds.None? then None
      else Some(Shape(key.value.0, key.value.1, items.value.0, items.value.1, preds.value))
  }

  lemma {:induction false} ItemsErrorStays(items: seq<SelectItem>, n: nat, t: TableData, groupCol: int, groupName: string)
    requires |t.cols| == |t.schema| && n <= |items| && ReadItems(items[..n], t, groupCol, groupName).None?
    ensures ReadItems(items, t, groupCol, groupName).None?
    decreases |items|
  {
    if n < |items| {
      assert items[..|items| - 1][..n] == items[..n];
      ItemsErrorStays(items[..|items| - 1], n, t, groupCol, groupName);
    } else {
      assert items[..n] == items;
    }
  }

  method ReadSelectList(items: seq<SelectItem>, t: TableData, groupCol: int, groupName: string) returns (r: Option<(bool, seq<AggSpec>)>)
    requires |t.cols| == |t.schema|
    ensures r == ReadItems(items, t, groupCol, groupName)
  {
    var hasKey, specs := false, [];
    for i := 0 to |items|
      invariant ReadItems(items[..i], t, groupCol, groupName) == Some((hasKey, specs))
    {
      assert items[..i + 1][..i] == items[..i];
      if items[i].expr.ColumnRef? {
        if groupCol < 0 || items[i].expr.column != groupName {
          ItemsErrorStays(items, i + 1, t, groupCol, groupName);
          return None;
        }
        hasKey := true;
      } else {
        var spec := ReadSpec(items[i], t);
        if spec.None? {
          ItemsErrorStays(items, i + 1, t, groupCol, groupName);
          return None;
        }
        specs := specs + [spec.value];
      }
    }
    assert items[..|items|] == items;
    r := Some((hasKey, specs));
  }

  // ---- What the gate guarantees ----

  predicate SpecOk(t: TableData, s: AggSpec) {
    if s.star then s.col == -1 else 0 <= s.col < |t.cols| && KindOf(t.cols[s.col].ty.id) != String
  }

  predicate ShapeOk(t: TableData, shape: Shape) {
    && shape.groupCol < |t.cols|
    && (shape.hasKey ==> shape.groupCol >= 0)
    && shape.specs != []
    && forall i :: 0 <= i < |shape.specs| ==> SpecOk(t, shape.specs[i])
  }

  lemma {:induction false} ItemsAreOk(items: seq<SelectItem>, t: TableData, groupCol: int, groupName: string)
    requires |t.cols| == |t.schema| && ReadItems(items, t, groupCol, groupName).Some?
    ensures var r := ReadItems(items, t, groupCol, groupName).value;
            (r.0 ==> groupCol >= 0) && forall i :: 0 <= i < |r.1| ==> SpecOk(t, r.1[i])
    decreases |items|
  {
    if items != [] {
      ItemsAreOk(items[..|items| - 1], t, groupCol, groupName);
    }
  }

  lemma GateIsOk(stmt: SelectStmt, t: TableData)
    requires |t.cols| == |t.schema| && ReadShape(stmt, t).Some?
    ensures ShapeOk(t, ReadShape(stmt, t).value)
  {
    var key := ReadGroupBy(stmt.groupBy, t).value;
    ItemsAreOk(stmt.selectList, t, key.0, key.1);
  }

  /** MIN(*) and MAX(*) come out infinite, which is no real number. */
  predicate Finite(s: AggSpec) {
    s.star ==> s.fn != FnMin && s.fn != FnMax
  }

  /** What the model of doubles and of buffers can follow. */
  predicate Followed(t: TableData, shape: Shape) {
    AllReadable(t, shape.preds) && forall i :: 0 <= i < |shape.specs| ==> Finite(shape.specs[i])
  }

  // ---- One row ----

  /** The argument of an aggregate at row r: NULL, or the raw cell as a double. */
  function ArgAtRow(t: TableData, s: AggSpec, r: nat): Value
    requires TableOk(t) && SpecOk(t, s) && r < RowCount(t)
  {
    if s.star || !t.cols[s.col].valid[r] then Null else Dbl(RawDouble(t.cols[s.col], r))
  }

  function ArgsAtRow(t: TableData, specs: seq<AggSpec>, r: nat): (args: Row)
    requires TableOk(t) && r < RowCount(t) && forall i :: 0 <= i < |specs| ==> SpecOk(t, specs[i])
    ensures |args| == |specs|
  {
    seq(|specs|, i requires 0 <= i < |specs| => ArgAtRow(t, specs[i], r))
  }

  /** The C string literal the source starts a NULL's key with ends at its first byte: the key is empty. */
  function KeyAtRow(t: TableData, groupCol: int, r: nat): string
    requires TableOk(t) && groupCol < |t.cols| && r < RowCount(t)
  {
    if groupCol < 0 then ""
    else
      var c := t.cols[groupCol];
      if !c.valid[r] then ""
      else match KindOf(c.ty.id)
        case String => "S" + c.str[r]
        case Double => "D" + RealToString(c.f64[r])
        case Int64 => "I" + IntToString(c.i64[r])
  }

  function KeyValueAtRow(t: TableData, groupCol: int, r: nat): Value
    requires TableOk(t) && groupCol < |t.cols| && r < RowCount(t)
  {
    if groupCol < 0 then Null else ValueAt(t.cols[groupCol], r)
  }

  function FastInput(t: TableData, shape: Shape, r: nat): Input
    requires TableOk(t) && ShapeOk(t, shape) && r < RowCount(t)
  {
    Input(KeyAtRow(t, shape.groupCol, r), [KeyValueAtRow(t, shape.groupCol, r)], ArgsAtRow(t, shape.specs, r))
  }

  /** The inputs of the first n rows that pass the predicate. */
  function FastInputs(t: TableData, shape: Shape, n: nat): seq<Input>
    requires TableOk(t) && ShapeOk(t, shape) && AllReadable(t, shape.preds) && n <= RowCount(t)
  {
    if n == 0 then []
    else
      var before := FastInputs(t, shape, n - 1);
      if AllHold(t, shape.preds, n - 1) then before + [FastInput(t, shape, n - 1)] else before
  }

  // ---- Accumulators ----

  function Step(s: AggSpec, st: AggState, v: Value): AggState {
    if s.star then st.(count := st.count + 1)
    else if !v.Dbl? then st
    else
      var next := st.(count := st.count + 1);
      match s.fn
      case FnCount => next
      case FnSum => next.(sum := st.sum + v.r)
      case FnAvg => next.(sum := st.sum + v.r)
      case FnMin => if st.mn.None? || v.r < st.mn.value then next.(mn := Some(v.r)) else next
      case FnMax => if st.mx.None? || v.r > st.mx.value then next.(mx := Some(v.r)) else next
  }

  /** The state can be shown: a minimum or maximum over some values is finite. */
  predicate Showable(s: AggSpec, st: AggState) {
    st.count > 0 ==> (s.fn == FnMin ==> st.mn.Some?) && (s.fn == FnMax ==> st.mx.Some?)
  }

  function Fold(s: AggSpec, vs: Row): (st: AggState)
    ensures Finite(s) ==> Showable(s, st)
  {
    if vs == [] then NEW_STATE else Step(s, Fold(s, vs[..|vs| - 1]), vs[|vs| - 1])
  }

  function StatesOf(specs: seq<AggSpec>, g: seq<Input>): (r: seq<AggState>)
    ensures |r| == |specs|
  {
    seq(|specs|, i requires 0 <= i < |specs| => Fold(specs[i], ArgsOf(g, i)))
  }

  function GroupFrom(specs: seq<AggSpec>, g: seq<Input>): Group {
    Group(StatesOf(specs, g), if g == [] || g[0].keyValues == [] then Null else g[0].keyValues[0])
  }

  function GroupsFrom(specs: seq<AggSpec>, gs: seq<seq<Input>>): (r: seq<Group>)
    ensures |r| == |gs|
  {
    seq(|gs|, i requires 0 <= i < |gs| => GroupFrom(specs, gs[i]))
  }

  /** The groups of the fast path; without GROUP BY there is always one. */
  function FastGroups(t: TableData, shape: Shape): seq<Group>
    requires TableOk(t) && ShapeOk(t, shape) && AllReadable(t, shape.preds)
  {
    var xs := FastInputs(t, shape, RowCount(t));
    if shape.groupCol < 0 && xs == [] then [GroupFrom(shape.specs, [])] else GroupsFrom(shape.specs, Groups(xs))
  }

  // ---- The pass over the rows ----

  /** `groups` and `index` after the inputs xs. */
  ghost predicate Built(shape: Shape, xs: seq<Input>, groups: seq<Group>, index: map<string, nat>) {
    && groups == GroupsFrom(shape.specs, Groups(xs))
    && (shape.groupCol >= 0 ==> IndexMatches(KeysInOrder(xs), index))
    && (shape.groupCol < 0 ==> forall k :: k in KeysInOrder(xs) ==> k == "")
  }

  ghost predicate IndexMatches(ks: seq<string>, index: map<string, nat>) {
    && (forall k :: k in index <==> k in ks)
    && forall k :: k in index ==> index[k] == PositionOf(ks, k)
  }

  lemma PositionInLonger(ks: seq<string>, key: string, k: string)
    requires key !in ks
    ensures PositionOf(ks + [key], k) == if k in ks then PositionOf(ks, k) else if k == key then |ks| else |ks| + 1
    decreases |ks|
  {
    if ks == [] {
      assert (ks + [key])[1..] == [];
    } else {
      assert (ks + [key])[1..] == ks[1..] + [key];
      PositionInLonger(ks[1..], key, k);
    }
  }

  lemma IndexGrows(ks: seq<string>, index: map<string, nat>, key: string)
    requires IndexMatches(ks, index) && key !in ks
    ensures IndexMatches(ks + [key], index[key := |ks|])
  {
    forall k | k in index[key := |ks|] ensures index[key := |ks|][k] == PositionOf(ks + [key], k) {
      PositionInLonger(ks, key, k);
    }
  }

  lemma FoldOneMore(s: AggSpec, g: seq<Input>, x: Input, i: nat)
    ensures Fold(s, ArgsOf(g + [x], i)) == Step(s, Fold(s, ArgsOf(g, i)), ArgAt(x, i))
  {
    assert ArgsOf(g + [x], i)[..|g|] == ArgsOf(g, i);
  }

  /** The group of a key after one more of its rows. */
  lemma GroupOneMore(specs: seq<AggSpec>, g: seq<Input>, x: Input, states: seq<AggState>)
    requires |x.keyValues| == 1 && |states| == |specs|
    requires forall i :: 0 <= i < |specs| ==> states[i] == Step(specs[i], StatesOf(specs, g)[i], ArgAt(x, i))
    ensures GroupFrom(specs, g + [x]) == Group(states, if g == [] then x.keyValues[0] else GroupFrom(specs, g).key)
  {
    forall i | 0 <= i < |specs| ensures StatesOf(specs, g + [x])[i] == states[i] {
      FoldOneMore(specs[i], g, x, i);
    }
  }

  /** The slot of a row's key: an existing group, or one past the last. */
  function SlotOf(shape: Shape, key: string, groups: seq<Group>, index: map<string, nat>): nat {
    if shape.groupCol < 0 then 0
    else if key in index then index[key] else |groups|
  }

  lemma SlotIsPosition(shape: Shape, xs: seq<Input>, x: Input, groups: seq<Group>, index: map<string, nat>)
    requires Built(shape, xs, groups, index) && (shape.groupCol < 0 ==> x.key == "")
    ensures SlotOf(shape, x.key, groups, index) == PositionOf(KeysInOrder(xs), x.key) <= |groups|
  {
    var ks := KeysInOrder(xs);
    if shape.groupCol < 0 && ks != [] {
      assert ks[0] in ks;
    }
  }

  /** Group by group: the group at `slot` has one input more, or a new last group has its first. */
  lemma GroupsFromGrow(specs: seq<AggSpec>, gs: seq<seq<Input>>, gs': seq<seq<Input>>, x: Input, slot: nat, states: seq<AggState>)
    requires slot <= |gs| && gs' == (if slot < |gs| then gs[slot := gs[slot] + [x]] else gs + [[x]])
    requires slot < |gs| ==> gs[slot] != []
    requires |x.keyValues| == 1 && |states| == |specs|
    requires var g := if slot < |gs| then gs[slot] else [];
             forall i :: 0 <= i < |specs| ==> states[i] == Step(specs[i], StatesOf(specs, g)[i], ArgAt(x, i))
    ensures var groups := GroupsFrom(specs, gs);
            GroupsFrom(specs, gs') == if slot < |gs| then groups[slot := Group(states, groups[slot].key)] else groups + [Group(states, x.keyValues[0])]
  {
    GroupOneMore(specs, if slot < |gs| then gs[slot] else [], x, states);
    assert [] + [x] == [x];
  }

  /** The states a slot starts from. */
  function StatesBefore(shape: Shape, groups: seq<Group>, slot: nat): seq<AggState> {
    if slot < |groups| then groups[slot].aggs else seq(|shape.specs|, _ => NEW_STATE)
  }

  lemma BeforeIsStates(shape: Shape, xs: seq<Input>, groups: seq<Group>, index: map<string, nat>, slot: nat)
    requires Built(shape, xs, groups, index) && slot <= |groups|
    ensures StatesBefore(shape, groups, slot) == StatesOf(shape.specs, if slot < |groups| then Groups(xs)[slot] else [])
  {
    if slot == |groups| {
      assert forall i :: 0 <= i < |shape.specs| ==> Fold(shape.specs[i], ArgsOf([], i)) == NEW_STATE;
    }
  }

  lemma BuiltGrows(shape: Shape, xs: seq<Input>, x: Input, groups: seq<Group>, index: map<string, nat>, slot: nat, states: seq<AggState>)
    requires Built(shape, xs, groups, index) && |x.keyValues| == 1 && (shape.groupCol < 0 ==> x.key == "")
    requires slot == SlotOf(shape, x.key, groups, index) <= |groups| && |states| == |shape.specs| == |StatesBefore(shape, groups, slot)|
    requires forall i :: 0 <= i < |shape.specs| ==> states[i] == Step(shape.specs[i], StatesBefore(shape, groups, slot)[i], ArgAt(x, i))
    ensures var groups' := if slot < |groups| then groups[slot := Group(states, groups[slot].key)] else groups + [Group(states, x.keyValues[0])];
            var index' := if slot < |groups| || shape.groupCol < 0 then index else index[x.key := |groups|];
            Built(shape, xs + [x], groups', index')
  {
    SlotIsPosition(shape, xs, x, groups, index);
    GroupsGrow(xs, x);
    BeforeIsStates(shape, xs, groups, index, slot);
    GroupsPartition(xs);
    GroupsFromGrow(shape.specs, Groups(xs), Groups(xs + [x]), x, slot, states);
    if slot == |groups| && shape.groupCol >= 0 {
      IndexGrows(KeysInOrder(xs), index, x.key);
    }
  }

  /** One row into the states of its group. */
  method FeedStates(t: TableData, specs: seq<AggSpec>, before: seq<AggState>, r: nat) returns (states: seq<AggState>)
    requires TableOk(t) && r < RowCount(t) && |before| == |specs| && forall i :: 0 <= i < |specs| ==> SpecOk(t, specs[i])
    ensures |states| == |specs| && forall i :: 0 <= i < |specs| ==> states[i] == Step(specs[i], before[i], ArgAtRow(t, specs[i], r))
  {
    states := before;
    for i := 0 to |specs|
      invariant |states| == |specs|
      invariant forall j :: 0 <= j < i ==> states[j] == Step(specs[j], before[j], ArgAtRow(t, specs[j], r))
      invariant forall j :: i <= j < |specs| ==> states[j] == before[j]
    {
      states := states[i := Step(specs[i], states[i], ArgAtRow(t, specs[i], r))];
    }
  }

  /** One passing row: finds or makes its group and updates the group's states. */
  method AddRow(t: TableData, shape: Shape, r: nat, groups: seq<Group>, index: map<string, nat>, ghost xs: seq<Input>)
    returns (groups': seq<Group>, index': map<string, nat>)
    requires TableOk(t) && ShapeOk(t, shape) && r < RowCount(t) && Built(shape, xs, groups, index)
    ensures Built(shape, xs + [FastInput(t, shape, r)], groups', index')
  {
    ghost var x := FastInput(t, shape, r);
    SlotIsPosition(shape, xs, x, groups, index);
    var key := KeyAtRow(t, shape.groupCol, r);
    var slot := SlotOf(shape, key, groups, index);
    BeforeIsStates(shape, xs, groups, index, slot);
    var before := StatesBefore(shape, groups, slot);
    var states := FeedStates(t, shape.specs, before, r);
    BuiltGrows(shape, xs, x, groups, index, slot, states);
    groups', index' := groups, index;
    if slot < |groups| {
      groups' := groups[slot := Group(states, groups[slot].key)];
    } else {
      groups' := groups + [Group(states, KeyValueAtRow(t, shape.groupCol, r))];
      if shape.groupCol >= 0 {
        index' := index[key := |groups|];
      }
    }
  }

  method AccumulateRows(t: TableData, shape: Shape) returns (groups: seq<Group>)
    requires TableOk(t) && ShapeOk(t, shape) && AllReadable(t, shape.preds)
    ensures groups == FastGroups(t, shape)
  {
    groups := [];
    var index: map<string, nat> := map[];
    for r := 0 to RowCount(t)
      invariant Built(shape, FastInputs(t, shape, r), groups, index)
    {
      var pass := RowPasses(t, shape.preds, r);
      if pass {
        groups, index := AddRow(t, shape, r, groups, index, FastInputs(t, shape, r));
      }
    }
    NoGroupsNoInputs(FastInputs(t, shape, RowCount(t)));
    if shape.groupCol < 0 && groups == [] {
      groups := [Group(seq(|shape.specs|, _ => NEW_STATE), Null)];
      assert groups[0] == GroupFrom(shape.specs, []);
    }
  }

  lemma NoGroupsNoInputs(xs: seq<Input>)
    ensures Groups(xs) == [] <==> xs == []
  {
    if xs != [] {
      assert xs[0] in xs && xs[0].key in KeysInOrder(xs);
    }
  }

  // ---- The result rows ----

  function Show(s: AggSpec, st: AggState): Value
    requires Showable(s, st)
  {
    if s.fn == FnCount then Int(W64, st.count)
    else if st.count == 0 then Null
    else match s.fn
      case FnSum => Dbl(st.sum)
      case FnAvg => Dbl(st.sum / st.count as real)
      case FnMin => Dbl(st.mn.value)
      case FnMax => Dbl(st.mx.value)
      case FnCount => Int(W64, st.count)
  }

  predicate GroupShowable(shape: Shape, g: Group) {
    |g.aggs| == |shape.specs| && forall i :: 0 <= i < |g.aggs| ==> Showable(shape.specs[i], g.aggs[i])
  }

  function Shown(shape: Shape, g: Group): (r: Row)
    requires GroupShowable(shape, g)
    ensures |r| == |shape.specs|
  {
    seq(|shape.specs|, i requires 0 <= i < |shape.specs| => Show(shape.specs[i], g.aggs[i]))
  }

  /** The key comes first, whatever its place in the SELECT list. */
  function FastRow(shape: Shape, g: Group): Row
    requires GroupShowable(shape, g)
  {
    (if shape.hasKey then [g.key] else []) + Shown(shape, g)
  }

  function FastRows(shape: Shape, gs: seq<Group>): (r: seq<Row>)
    requires forall g :: g in gs ==> GroupShowable(shape, g)
    ensures |r| == |gs|
  {
    seq(|gs|, i requires 0 <= i < |gs| => FastRow(shape, gs[i]))
  }

  lemma GroupsAreShowable(t: TableData, shape: Shape)
    requires TableOk(t) && ShapeOk(t, shape) && Followed(t, shape)
    ensures forall g :: g in FastGroups(t, shape) ==> GroupShowable(shape, g)
  {
  }

  method AssembleRow(shape: Shape, g: Group) returns (row: Row)
    requires GroupShowable(shape, g)
    ensures row == FastRow(shape, g)
  {
    row := if shape.hasKey then [g.key] else [];
    ghost var start := row;
    for i := 0 to |shape.specs|
      invariant row == start + Shown(shape, g)[..i]
    {
      row := row + [Show(shape.specs[i], g.aggs[i])];
    }
  }

  method AssembleRows(shape: Shape, groups: seq<Group>) returns (rows: seq<Row>)
    requires forall g :: g in groups ==> GroupShowable(shape, g)
    ensures rows == FastRows(shape, groups)
  {
    rows := [];
    for i := 0 to |groups|
      invariant rows == FastRows(shape, groups)[..i]
    {
      var row := AssembleRow(shape, groups[i]);
      rows := rows + [row];
    }
  }

  // ---- ORDER BY and LIMIT over the result rows ----

  function FastSchema(t: TableData, shape: Shape): (r: Schema)
    requires ShapeOk(t, shape)
    ensures |r| == (if shape.hasKey then 1 else 0) + |shape.specs|
  {
    (if shape.hasKey then [ColumnDef(shape.groupName, t.cols[shape.groupCol].ty)] else [])
    + seq(|shape.specs|, i requires 0 <= i < |shape.specs| => ColumnDef(shape.specs[i].outName, shape.specs[i].outType))
  }

  /** The result columns the sort keys name; None sends the statement to the general path. */
  function ResolveKeys(schema: Schema, keys: seq<SortKey>): (r: Option<seq<nat>>)
    ensures r.Some? ==> |r.value| == |keys|
    ensures r.Some? ==> forall i :: 0 <= i < |keys| ==> keys[i].expr.ColumnRef? && IndexOf(schema, keys[i].expr.column) == r.value[i]
    ensures r.Some? ==> forall i :: 0 <= i < |keys| ==> r.value[i] < |schema|
  {
    if keys == [] then Some([])
    else if !keys[0].expr.ColumnRef? || IndexOf(schema, keys[0].expr.column) < 0 then None
    else
      var rest := ResolveKeys(schema, keys[1..]);
      if rest.None? then None else Some([IndexOf(schema, keys[0].expr.column)] + rest.value)
  }

  /** The comparator looks at the direction of a key only: NULLS FIRST and NULLS LAST are ignored. */
  function Directions(keys: seq<SortKey>): (r: seq<SortKey>)
    ensures |r| == |keys|
  {
    seq(|keys|, i requires 0 <= i < |keys| => keys[i].(nulls := UNSPECIFIED))
  }

  function Pick(cols: seq<nat>, row: Row): (r: Row)
    ensures |r| == |cols|
  {
    seq(|cols|, i requires 0 <= i < |cols| => if cols[i] < |row| then row[cols[i]] else Null)
  }

  function PickAll(cols: seq<nat>, rows: seq<Row>): (r: seq<Keyed>)
    ensures |r| == |rows| && forall x :: x in r ==> |x.keys| == |cols|
  {
    seq(|rows|, i requires 0 <= i < |rows| => Keyed(Pick(cols, rows[i]), rows[i]))
  }

  function FastSort(keys: seq<SortKey>, cols: seq<nat>, rows: seq<Row>): (r: seq<Row>)
    requires |cols| == |keys|
    ensures |r| == |rows|
  {
    Undecorate(StableSort(Directions(keys), PickAll(cols, rows)))
  }

  /** A literal bound; None for any other expression, an error for a literal that is no integer. */
  function LiteralBound(e: Option<Expr>, default: int): Result<Option<int>> {
    if e.None? then Ok(Some(default))
    else if !e.value.Literal? then Ok(None)
    else
      var i :- ToInt64(e.value.value);
      Ok(Some(i))
  }

  function FastLimit(limit: Option<LimitClause>, rows: seq<Row>): Result<Option<seq<Row>>> {
    if limit.None? then Ok(Some(rows))
    else
      var offset :- LiteralBound(limit.value.offset, 0);
      if offset.None? then Ok(None)
      else
        var count :- LiteralBound(limit.value.limit, -1);
        if count.None? then Ok(None) else Ok(Some(LimitRows(count.value, offset.value, rows)))
  }

  function FastOrder(schema: Schema, orderBy: Option<seq<SortKey>>, rows: seq<Row>): Option<seq<Row>> {
    if orderBy.None? then Some(rows)
    else
      var cols := ResolveKeys(schema, orderBy.value);
      if cols.None? then None else Some(FastSort(orderBy.value, cols.value, rows))
  }

  /** The result of a SELECT. */
  datatype Answer = Answer(schema: Schema, rows: seq<Row>)

  function FastTail(stmt: SelectStmt, schema: Schema, rows: seq<Row>): Result<Option<Answer>> {
    var sorted := FastOrder(schema, stmt.orderBy, rows);
    if sorted.None? then Ok(None)
    else
      var out :- FastLimit(stmt.limit, sorted.value);
      if out.None? then Ok(None) else Ok(Some(Answer(schema, out.value)))
  }

  // ---- tryFastAggregate ----

  /** The tables are well formed, and the model follows what the fast path would do with the statement. */
  ghost predicate FastModelled(stmt: SelectStmt, cat: Catalog) {
    CatalogOk(cat)
    && var t := FastTable(stmt, cat);
       (t.Some? && ReadShape(stmt, t.value).Some? ==> Followed(t.value, ReadShape(stmt, t.value).value))
  }

  /** None sends the statement to the general path; an error is an exception. */
  ghost function FastResult(stmt: SelectStmt, cat: Catalog): Result<Option<Answer>>
    requires FastModelled(stmt, cat)
  {
    var t := FastTable(stmt, cat);
    if t.None? || ReadShape(stmt, t.value).None? then Ok(None)
    else
      var shape := ReadShape(stmt, t.value).value;
      GateIsOk(stmt, t.value);
      GroupsAreShowable(t.value, shape);
      FastTail(stmt, FastSchema(t.value, shape), FastRows(shape, FastGroups(t.value, shape)))
  }

  method SortAndTrim(stmt: SelectStmt, schema: Schema, input: seq<Row>) returns (r: Result<Option<Answer>>)
    ensures r == FastTail(stmt, schema, input)
  {
    var rows := input;
    if stmt.orderBy.Some? {
      var keys := stmt.orderBy.value;
      var cols := ResolveKeys(schema, keys);
      if cols.None? { return Ok(None); }
      var sorted := SortStably(Directions(keys), PickAll(cols.value, rows));
      rows := Undecorate(sorted);
    }
    if stmt.limit.Some? {
      var offset := LiteralBound(stmt.limit.value.offset, 0);
      if offset.Err? { return Err; }
      if offset.value.None? { return Ok(None); }
      var count := LiteralBound(stmt.limit.value.limit, -1);
      if count.Err? { return Err; }
      if count.value.None? { return Ok(None); }
      var off, lim := offset.value.value, count.value.value;
      if off > 0 {
        rows := if off >= |rows| then [] else rows[off..];
      }
      if 0 <= lim < |rows| {
        rows := rows[..lim];
      }
    }
    r := Ok(Some(Answer(schema, rows)));
  }

  method TryFastAggregate(stmt: SelectStmt, cat: Catalog) returns (r: Result<Option<Answer>>)
    requires FastModelled(stmt, cat)
    ensures r == FastResult(stmt, cat)
  {
    var table := FastTable(stmt, cat);
    if table.None? { return Ok(None); }
    var t := table.value;
    var key := ReadGroupBy(stmt.groupBy, t);
    if key.None? { return Ok(None); }
    var items := ReadSelectList(stmt.selectList, t, key.value.0, key.value.1);
    if items.None? || items.value.1 == [] { return Ok(None); }
    var preds := ReadWhere(stmt.where, t);
    if preds.None? { return Ok(None); }
    var shape := Shape(key.value.0, key.value.1, items.value.0, items.value.1, preds.value);
    GateIsOk(stmt, t);
    var groups := AccumulateRows(t, shape);
    GroupsAreShowable(t, shape);
    var rows := AssembleRows(shape, groups);
    r := SortAndTrim(stmt, FastSchema(t, shape), rows);
  }
}
