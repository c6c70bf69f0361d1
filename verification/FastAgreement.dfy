/** The typed fast path returns what the operator tree returns. */
module FastAgreement {
  import opened Results
  import opened Seqs
  import opened Types
  import opened Ast
  import opened Eval
  import opened Tables
  import opened Ordering
  import opened RowOrder
  import opened Aggregation
  import opened Plans
  import opened Operators
  import opened Names
  import opened Rewrite
  import opened RewriteMeaning
  import opened Planner
  import opened FastPredicate
  import opened FastAggregate
  import opened FastGrouping

  // ---- SELECT items and result columns ----

  /** The calls among the items, in order. */
  function Calls(items: seq<SelectItem>): seq<Expr> {
    if items == [] then []
    else
      var n := |items| - 1;
      if items[n].expr.FunctionCall? then Calls(items[..n]) + [items[n].expr] else Calls(items[..n])
  }

  /** The column of the fast result that shows item i: the key is first, the calls follow in order. */
  function OutputColumn(items: seq<SelectItem>, hasKey: bool, i: nat): nat
    requires i < |items|
  {
    if items[i].expr.ColumnRef? then 0 else (if hasKey then 1 else 0) + |Calls(items[..i])|
  }

  predicate CallRead(t: TableData, f: Expr, s: AggSpec)
    requires |t.cols| == |t.schema|
  {
    f.FunctionCall? && FnOf(f.name) == Some(s.fn) && ReadArgument(f, t) == Some(s.col) && s.star == f.star
  }

  predicate ItemRead(item: SelectItem, groupCol: int, groupName: string) {
    if item.expr.ColumnRef? then groupCol >= 0 && item.expr.column == groupName
    else item.expr.FunctionCall? && FnOf(item.expr.name).Some?
  }

  /** What the items of an accepted SELECT list are. */
  predicate AllRead(items: seq<SelectItem>, t: TableData, groupCol: int, groupName: string, hasKey: bool, specs: seq<AggSpec>)
    requires |t.cols| == |t.schema|
  {
    && |Calls(items)| == |specs| && (forall m :: 0 <= m < |specs| ==> CallRead(t, Calls(items)[m], specs[m]))
    && (forall i :: 0 <= i < |items| ==> ItemRead(items[i], groupCol, groupName) && (items[i].expr.ColumnRef? ==> hasKey))
  }

  lemma {:induction false} ItemsRead(items: seq<SelectItem>, t: TableData, groupCol: int, groupName: string)
    requires |t.cols| == |t.schema| && ReadItems(items, t, groupCol, groupName).Some?
    ensures var r := ReadItems(items, t, groupCol, groupName).value; AllRead(items, t, groupCol, groupName, r.0, r.1)
    decreases |items|
  {
    if items != [] {
      var n := |items| - 1;
      ItemsRead(items[..n], t, groupCol, groupName);
      var r := ReadItems(items[..n], t, groupCol, groupName).value;
      assert items == items[..n] + [items[n]];
      if items[n].expr.ColumnRef? {
        KeyItemRead(items[..n], items[n], t, groupCol, groupName, r.0, r.1);
      } else {
        CallItemRead(items[..n], items[n], t, groupCol, groupName, r.0, r.1, ReadSpec(items[n], t).value);
      }
    }
  }

  lemma KeyItemRead(items: seq<SelectItem>, item: SelectItem, t: TableData, groupCol: int, groupName: string, hasKey: bool, specs: seq<AggSpec>)
    requires |t.cols| == |t.schema| && AllRead(items, t, groupCol, groupName, hasKey, specs)
    requires item.expr.ColumnRef? && ItemRead(item, groupCol, groupName)
    ensures AllRead(items + [item], t, groupCol, groupName, true, specs)
  {
    DropLast(items, item);
  }

  lemma CallItemRead(items: seq<SelectItem>, item: SelectItem, t: TableData, groupCol: int, groupName: string, hasKey: bool, specs: seq<AggSpec>, spec: AggSpec)
    requires |t.cols| == |t.schema| && AllRead(items, t, groupCol, groupName, hasKey, specs)
    requires item.expr.FunctionCall? && ReadSpec(item, t) == Some(spec)
    ensures AllRead(items + [item], t, groupCol, groupName, hasKey, specs + [spec])
  {
    DropLast(items, item);
    assert CallRead(t, item.expr, spec);
  }

  /** A call item is the call of its result column. */
  lemma {:induction false} CallOfItem(items: seq<SelectItem>, i: nat)
    requires i < |items| && items[i].expr.FunctionCall?
    ensures |Calls(items[..i])| < |Calls(items)| && Calls(items)[|Calls(items[..i])|] == items[i].expr
    decreases |items|
  {
    var n := |items| - 1;
    if i < n {
      CallOfItem(items[..n], i);
      assert items[..n][..i] == items[..i];
    }
  }

  lemma {:induction false} CallsAreItems(items: seq<SelectItem>, f: Expr) returns (i: nat)
    requires f in Calls(items)
    ensures i < |items| && items[i].expr == f
    decreases |items|
  {
    if f in Calls(items[..|items| - 1]) {
      i := CallsAreItems(items[..|items| - 1], f);
    } else {
      i := |items| - 1;
    }
  }

  // ---- The slots of the general plan are the calls ----

  lemma {:induction false} AddedAreAmong(slots: seq<Expr>, calls: seq<Expr>, allowed: seq<Expr>)
    requires forall f :: f in slots || f in calls ==> f in allowed
    ensures forall f :: f in AddSlots(slots, calls) ==> f in allowed
    decreases |calls|
  {
    if calls != [] {
      AddedAreAmong(if FindSlot(slots, calls[0]) < |slots| then slots else slots + [calls[0]], calls[1..], allowed);
    }
  }

  lemma {:induction false} CollectedAreAmong(slots: seq<Expr>, es: seq<Expr>, allowed: seq<Expr>)
    requires forall f :: f in slots ==> f in allowed
    requires forall e, f :: e in es && f in CollectAggs(e) ==> f in allowed
    ensures forall f :: f in CollectInto(slots, es) ==> f in allowed
    decreases |es|
  {
    if es != [] {
      AddedAreAmong(slots, CollectAggs(es[0]), allowed);
      CollectedAreAmong(AddSlots(slots, CollectAggs(es[0])), es[1..], allowed);
    }
  }

  /** The part of the gate that concerns the SELECT list and the sort keys. */
  ghost predicate Gated(stmt: SelectStmt, t: TableData, shape: Shape) {
    && |t.cols| == |t.schema| && ReadShape(stmt, t) == Some(shape) && stmt.having.None?
    && forall k :: k in OrderBy(stmt) ==> k.expr.ColumnRef?
  }

  lemma CallIsAggregate(f: Expr)
    requires f.FunctionCall? && FnOf(f.name).Some?
    ensures IsAggregateName(f.name) && CollectAggs(f) == [f]
  {
  }

  /** A source of aggregate calls is a column or one of the calls. */
  lemma SourceIsColumnOrCall(stmt: SelectStmt, t: TableData, shape: Shape, e: Expr)
    requires Gated(stmt, t, shape) && e in AggregateSources(stmt)
    ensures if e.ColumnRef? then CollectAggs(e) == [] else CollectAggs(e) == [e] && e in Calls(stmt.selectList)
  {
    var items, keys := ItemExpressions(stmt.selectList), SortExpressions(OrderBy(stmt));
    if e in items {
      var i :| 0 <= i < |items| && items[i] == e;
      ItemsRead(stmt.selectList, t, shape.groupCol, shape.groupName);
      assert ItemRead(stmt.selectList[i], shape.groupCol, shape.groupName);
      if e.FunctionCall? {
        CallIsAggregate(e);
        CallOfItem(stmt.selectList, i);
      }
    } else {
      var i :| 0 <= i < |keys| && keys[i] == e;
      assert OrderBy(stmt)[i].expr == e;
    }
  }

  lemma SlotsAreAmongCalls(stmt: SelectStmt, t: TableData, shape: Shape)
    requires Gated(stmt, t, shape)
    ensures forall s :: s in SlotsOf(stmt) ==> s in Calls(stmt.selectList)
  {
    forall e, f | e in AggregateSources(stmt) && f in CollectAggs(e) ensures f in Calls(stmt.selectList) {
      SourceIsColumnOrCall(stmt, t, shape, e);
    }
    CollectedAreAmong([], AggregateSources(stmt), Calls(stmt.selectList));
  }

  lemma CallsHaveSlots(stmt: SelectStmt, t: TableData, shape: Shape, f: Expr)
    requires Gated(stmt, t, shape) && f in Calls(stmt.selectList)
    ensures FindSlot(SlotsOf(stmt), f) < |SlotsOf(stmt)|
  {
    ItemsRead(stmt.selectList, t, shape.groupCol, shape.groupName);
    var i := CallsAreItems(stmt.selectList, f);
    assert ItemRead(stmt.selectList[i], shape.groupCol, shape.groupName);
    assert ItemExpressions(stmt.selectList)[i] == f;
    assert f in AggregateSources(stmt);
    CollectionCovers([], AggregateSources(stmt));
    assert Covered(f, SlotsOf(stmt));
    var m :| 0 <= m < |Calls(stmt.selectList)| && Calls(stmt.selectList)[m] == f;
    CallIsAggregate(f);
  }

  // ---- One slot for calls of one column ----

  /** The slot that serves a call computes what the call's spec computes. */
  lemma SlotReads(t: TableData, f: Expr, s: AggSpec, slot: Expr, s': AggSpec, j: nat)
    requires |t.cols| == |t.schema| && LexedCall(f) && LexedCall(slot) && CallRead(t, f, s) && CallRead(t, slot, s') && ServedBy(f, slot) && SpecOk(t, s)
    ensures Reads(t, s, AggOf(slot, j))
  {
    if f != slot && !f.star {
      RefStringInjective(slot.args[0], f.args[0]);
    }
  }

  function SettingOf(stmt: SelectStmt, t: TableData, shape: Shape): Setting {
    var slots, calls := SlotsOf(stmt), Calls(stmt.selectList);
    SlotsAreCalls(stmt);
    Setting(t, shape, GroupKeys(stmt), SlotAggs(slots),
            seq(|calls|, m requires 0 <= m < |calls| => FindSlot(slots, calls[m])),
            seq(|slots|, j requires 0 <= j < |slots| => PositionOf(calls, slots[j])))
  }

  /** As the parser makes it, and finding the column of its bare name. */
  predicate RefFound(schema: Schema, e: Expr) {
    LexedRef(e) && (e.ColumnRef? ==> RefResolves(schema, e))
  }

  predicate CallFound(schema: Schema, f: Expr) {
    LexedCall(f) && (!f.star ==> forall a :: a in f.args ==> RefFound(schema, a))
  }

  /** Keys and arguments find the columns of their bare names, and the group column is not named like a slot in use. */
  ghost predicate NamesFound(stmt: SelectStmt, t: TableData) {
    && (forall i :: 0 <= i < |stmt.selectList| ==> LexedRef(stmt.selectList[i].expr))
    && (forall k :: k in GroupKeys(stmt) ==> RefFound(t.schema, k))
    && (forall f :: f in Calls(stmt.selectList) ==> CallFound(t.schema, f))
    && NoSlotName(KeyNames(GroupKeys(stmt)), |SlotsOf(stmt)|)
  }

  ghost predicate Ready(stmt: SelectStmt, t: TableData, shape: Shape) {
    Gated(stmt, t, shape) && TableOk(t) && Followed(t, shape) && NamesFound(stmt, t)
  }

  lemma ReadsAreFound(stmt: SelectStmt, t: TableData, shape: Shape)
    requires Ready(stmt, t, shape)
    ensures ReadsResolve(SettingOf(stmt, t, shape))
  {
    var c, slots := SettingOf(stmt, t, shape), SlotsOf(stmt);
    SlotsAreCalls(stmt);
    SlotsAreAmongCalls(stmt, t, shape);
    forall j | 0 <= j < |c.aggs| ensures ArgResolves(c.t.schema, c.aggs[j]) {
      assert slots[j] in slots && CallFound(t.schema, slots[j]);
      if !slots[j].star && slots[j].args != [] {
        assert slots[j].args[0] in slots[j].args;
      }
    }
    forall i | 0 <= i < |c.keys| ensures RefFound(t.schema, c.keys[i]) {
    }
  }

  lemma SettingIsSet(stmt: SelectStmt, t: TableData, shape: Shape)
    requires Ready(stmt, t, shape)
    ensures Set(SettingOf(stmt, t, shape))
  {
    var c := SettingOf(stmt, t, shape);
    var slots, calls := SlotsOf(stmt), Calls(stmt.selectList);
    GateIsOk(stmt, t);
    ItemsRead(stmt.selectList, t, shape.groupCol, shape.groupName);
    SlotsAreAmongCalls(stmt, t, shape);
    ReadsAreFound(stmt, t, shape);
    forall m | 0 <= m < |c.at| ensures Served(c, m) {
      CallsHaveSlots(stmt, t, shape, calls[m]);
      var j := c.at[m];
      var b := PositionOf(calls, slots[j]);
      assert CallFound(t.schema, calls[m]) && CallFound(t.schema, slots[j]);
      SlotReads(t, calls[m], shape.specs[m], slots[j], shape.specs[b], j);
    }
    forall j | 0 <= j < |c.back| ensures Needed(c, j) {
      var m := c.back[j];
      assert slots[j] in slots && CallFound(t.schema, slots[j]);
      SlotReads(t, calls[m], shape.specs[m], slots[j], shape.specs[m], j);
    }
  }

  // ---- Values over the aggregate output ----

  /** Reading an output row of the general plan beside the fast row: columns of the fast result. */
  ghost predicate ColumnPair(c: Setting, col: nat, v: Value, w: Value) {
    if c.shape.hasKey && col == 0 then v == w && 0 <= c.shape.groupCol < |c.t.cols| && Shows(c.t.cols[c.shape.groupCol].ty, v)
    else
      var m := col - (if c.shape.hasKey then 1 else 0);
      0 <= m < |c.shape.specs| && CellPair(c.t, c.shape.specs[m], v, w)
  }

  ghost predicate RowPair(c: Setting, out: Row, f: Row) {
    exists g :: OutPair(c, out, g) && f == FastRow(c.shape, g)
  }

  function OutSchema(stmt: SelectStmt): Schema {
    SlotsAreCalls(stmt);
    AggregateSchema(KeyNames(GroupKeys(stmt)), SlotAggs(SlotsOf(stmt)))
  }

  lemma GroupNames(stmt: SelectStmt, t: TableData, shape: Shape)
    requires Ready(stmt, t, shape)
    ensures KeyNames(GroupKeys(stmt)) == if shape.groupCol < 0 then [] else [shape.groupName]
    ensures |GroupKeys(stmt)| == if shape.groupCol < 0 then 0 else 1
    ensures shape.groupCol >= 0 ==> LexedName(shape.groupName) && shape.groupName != "*"
  {
    if shape.groupCol >= 0 {
      assert RefFound(t.schema, GroupKeys(stmt)[0]);
    }
  }

  /** A reference to the group column, qualified or not, finds the key. */
  lemma KeyRefValue(pow: Pow, stmt: SelectStmt, t: TableData, shape: Shape, e: Expr, out: Row)
    requires Ready(stmt, t, shape) && shape.groupCol >= 0 && e.ColumnRef? && LexedRef(e) && SameName(shape.groupName, e.column) && |out| > 0
    ensures Yields(pow, e, OutSchema(stmt), out, out[0])
  {
    GroupNames(stmt, t, shape);
    var names, slots := [shape.groupName], SlotsOf(stmt);
    SlotsAreCalls(stmt);
    assert OutSchema(stmt)[0].name == shape.groupName;
    OnlyStarMatchesStar(shape.groupName);
    if e.table.Some? {
      QualifiedIsAbsent(names, SlotAggs(slots), e.table.value, e.column);
    }
  }

  lemma CloneOfCall(f: Expr, slots: seq<Expr>)
    requires f.FunctionCall? && IsAggregateName(f.name)
    ensures CloneSubstAggs(f, slots) == Column(SlotName(FindSlot(slots, f)))
  {
  }

  lemma CallIsRead(stmt: SelectStmt, t: TableData, shape: Shape, f: Expr)
    requires Ready(stmt, t, shape) && f in Calls(stmt.selectList)
    ensures f.FunctionCall? && IsAggregateName(f.name) && FindSlot(SlotsOf(stmt), f) < |SlotsOf(stmt)|
  {
    ItemsRead(stmt.selectList, t, shape.groupCol, shape.groupName);
    var m :| 0 <= m < |Calls(stmt.selectList)| && Calls(stmt.selectList)[m] == f;
    CallIsAggregate(f);
    CallsHaveSlots(stmt, t, shape, f);
  }

  lemma CallValue(pow: Pow, stmt: SelectStmt, t: TableData, shape: Shape, f: Expr, out: Row)
    requires Ready(stmt, t, shape) && f in Calls(stmt.selectList) && |out| == |GroupKeys(stmt)| + |SlotsOf(stmt)|
    ensures FindSlot(SlotsOf(stmt), f) < |SlotsOf(stmt)|
    ensures Yields(pow, CloneSubstAggs(f, SlotsOf(stmt)), OutSchema(stmt), out, out[|GroupKeys(stmt)| + FindSlot(SlotsOf(stmt), f)])
  {
    hide SlotsOf, CloneSubstAggs, OutSchema, NoSlotName;
    CallIsRead(stmt, t, shape, f);
    CloneOfCall(f, SlotsOf(stmt));
    SlotYields(pow, stmt, out, FindSlot(SlotsOf(stmt), f));
  }

  lemma SlotYields(pow: Pow, stmt: SelectStmt, out: Row, j: nat)
    requires NoSlotName(KeyNames(GroupKeys(stmt)), |SlotsOf(stmt)|) && j < |SlotsOf(stmt)|
    requires |out| == |GroupKeys(stmt)| + |SlotsOf(stmt)|
    ensures Yields(pow, Column(SlotName(j)), OutSchema(stmt), out, out[|GroupKeys(stmt)| + j])
  {
    SlotsAreCalls(stmt);
    SlotLookup(pow, KeyNames(GroupKeys(stmt)), SlotsOf(stmt), out, j);
  }

  lemma FastCell(c: Setting, out: Row, g: Group, m: nat)
    requires OutPair(c, out, g) && Served(c, m)
    ensures var col := (if c.shape.hasKey then 1 else 0) + m;
            col < |FastRow(c.shape, g)| && ColumnPair(c, col, out[|c.keys| + c.at[m]], FastRow(c.shape, g)[col])
  {
  }

  lemma KeyItemValue(pow: Pow, stmt: SelectStmt, t: TableData, shape: Shape, out: Row, g: Group, e: Expr)
    requires Ready(stmt, t, shape) && OutPair(SettingOf(stmt, t, shape), out, g)
    requires shape.hasKey && shape.groupCol >= 0 && e.ColumnRef? && LexedRef(e) && SameName(shape.groupName, e.column)
    ensures |out| > 0 && Yields(pow, CloneSubstAggs(e, SlotsOf(stmt)), OutSchema(stmt), out, out[0])
    ensures ColumnPair(SettingOf(stmt, t, shape), 0, out[0], FastRow(shape, g)[0])
  {
    KeyRefValue(pow, stmt, t, shape, e, out);
  }

  lemma CallItemValue(pow: Pow, stmt: SelectStmt, t: TableData, shape: Shape, out: Row, g: Group, i: nat)
    requires Ready(stmt, t, shape) && OutPair(SettingOf(stmt, t, shape), out, g) && i < |stmt.selectList|
    requires stmt.selectList[i].expr.FunctionCall?
    ensures var c, m := SettingOf(stmt, t, shape), |Calls(stmt.selectList[..i])|;
            Served(c, m) && |c.keys| + c.at[m] < |out|
            && Yields(pow, CloneSubstAggs(stmt.selectList[i].expr, SlotsOf(stmt)), OutSchema(stmt), out, out[|c.keys| + c.at[m]])
  {
    CallOfItem(stmt.selectList, i);
    CallValue(pow, stmt, t, shape, stmt.selectList[i].expr, out);
    SettingIsSet(stmt, t, shape);
    assert Served(SettingOf(stmt, t, shape), |Calls(stmt.selectList[..i])|);
  }

  lemma CallItemCell(pow: Pow, stmt: SelectStmt, t: TableData, shape: Shape, out: Row, g: Group, i: nat, c: Setting, m: nat) returns (v: Value)
    requires Ready(stmt, t, shape) && c == SettingOf(stmt, t, shape) && OutPair(c, out, g) && i < |stmt.selectList|
    requires stmt.selectList[i].expr.FunctionCall? && m == |Calls(stmt.selectList[..i])|
    ensures Yields(pow, CloneSubstAggs(stmt.selectList[i].expr, SlotsOf(stmt)), OutSchema(stmt), out, v)
    ensures var col := (if c.shape.hasKey then 1 else 0) + m;
            col < |FastRow(c.shape, g)| && ColumnPair(c, col, v, FastRow(c.shape, g)[col])
  {
    CallItemValue(pow, stmt, t, shape, out, g, i);
    FastCell(c, out, g, m);
    v := out[|c.keys| + c.at[m]];
  }

  lemma ItemIsRead(stmt: SelectStmt, t: TableData, shape: Shape, i: nat)
    requires Gated(stmt, t, shape) && i < |stmt.selectList|
    ensures var e := stmt.selectList[i].expr;
            if e.ColumnRef? then shape.hasKey && shape.groupCol >= 0 && e.column == shape.groupName else e.FunctionCall?
  {
    ItemsRead(stmt.selectList, t, shape.groupCol, shape.groupName);
    assert ItemRead(stmt.selectList[i], shape.groupCol, shape.groupName);
  }

  /** Item i over a paired output row has the value of its column of the fast row. */
  lemma ItemValue(pow: Pow, stmt: SelectStmt, t: TableData, shape: Shape, out: Row, g: Group, i: nat) returns (v: Value)
    requires Ready(stmt, t, shape) && OutPair(SettingOf(stmt, t, shape), out, g) && i < |stmt.selectList|
    ensures Yields(pow, CloneSubstAggs(stmt.selectList[i].expr, SlotsOf(stmt)), OutSchema(stmt), out, v)
    ensures var col := OutputColumn(stmt.selectList, shape.hasKey, i);
            col < |FastRow(shape, g)| && ColumnPair(SettingOf(stmt, t, shape), col, v, FastRow(shape, g)[col])
  {
    var e := stmt.selectList[i].expr;
    ItemIsRead(stmt, t, shape, i);
    if e.ColumnRef? {
      KeyItemValue(pow, stmt, t, shape, out, g, e);
      v := out[0];
    } else {
      v := CallItemCell(pow, stmt, t, shape, out, g, i, SettingOf(stmt, t, shape), |Calls(stmt.selectList[..i])|);
    }
  }

  // ---- ORDER BY ----

  /** The fast-result column that the general path's resolution of a sort name finds, or -1. */
  function GeneralColumn(items: seq<SelectItem>, shape: Shape, name: string): int {
    var i := AliasedItem(items, name);
    if i < |items| then OutputColumn(items, shape.hasKey, i)
    else if shape.hasKey && SameName(shape.groupName, name) then 0
    else -1
  }

  /** Each sort name means one column to both paths, and NULLs go where the direction puts them. */
  predicate OrderAgrees(stmt: SelectStmt, shape: Shape, schema: Schema) {
    forall i :: 0 <= i < |OrderBy(stmt)| ==> SortKeyAgrees(OrderBy(stmt)[i], stmt.selectList, shape, schema)
  }

  predicate SortKeyAgrees(k: SortKey, items: seq<SelectItem>, shape: Shape, schema: Schema) {
    NullsFirst(k) == k.asc && LexedRef(k.expr)
    && (k.expr.ColumnRef? && IndexOf(schema, k.expr.column) >= 0 ==> SortNameOk(items, shape.hasKey, shape.groupName, k.expr.column))
  }

  /** The name of a call's column: its alias, or the function. */
  function OutName(item: SelectItem): string
    requires item.expr.FunctionCall?
  {
    if item.alias.Some? then item.alias.value else item.expr.name
  }

  /**
   The name is exactly the alias of a call, and no output column before that call has it in any case; or it is no
   alias of a call, and the selected group column has it.
   */
  predicate SortNameOk(items: seq<SelectItem>, hasKey: bool, groupName: string, name: string) {
    var i := AliasedItem(items, name);
    if i < |items| && items[i].expr.FunctionCall? then
      && !(hasKey && SameName(groupName, name))
      && forall j :: 0 <= j < i && items[j].expr.FunctionCall? ==> !SameName(OutName(items[j]), name)
    else hasKey && SameName(groupName, name)
  }

  /** The result column of a call is named and typed as its item says. */
  lemma {:induction false} SpecOfItem(items: seq<SelectItem>, t: TableData, groupCol: int, groupName: string, j: nat)
    requires |t.cols| == |t.schema| && ReadItems(items, t, groupCol, groupName).Some? && j < |items| && items[j].expr.FunctionCall?
    ensures var specs := ReadItems(items, t, groupCol, groupName).value.1;
            var m := |Calls(items[..j])|;
            && m < |specs| && |specs| == |Calls(items)| && specs[m].outName == OutName(items[j])
            && specs[m].outType == if items[j].expr.name == "COUNT" then SimpleType(INT64) else NullableDouble()
    decreases |items|
  {
    var n := |items| - 1;
    CallOfItem(items, j);
    SpecsExtend(items, t, groupCol, groupName);
    if j < n {
      SpecOfItem(items[..n], t, groupCol, groupName, j);
      assert items[..n][..j] == items[..j] && items[..n][j] == items[j];
    } else {
      SpecsCounted(items[..n], t, groupCol, groupName);
    }
  }

  lemma SpecsCounted(items: seq<SelectItem>, t: TableData, groupCol: int, groupName: string)
    requires |t.cols| == |t.schema| && ReadItems(items, t, groupCol, groupName).Some?
    ensures |ReadItems(items, t, groupCol, groupName).value.1| == |Calls(items)|
  {
    ItemsRead(items, t, groupCol, groupName);
  }

  /** The last item adds its spec, if it is a call. */
  lemma SpecsExtend(items: seq<SelectItem>, t: TableData, groupCol: int, groupName: string)
    requires |t.cols| == |t.schema| && items != [] && ReadItems(items, t, groupCol, groupName).Some?
    ensures var before, last := ReadItems(items[..|items| - 1], t, groupCol, groupName), items[|items| - 1];
            && before.Some? && (last.expr.FunctionCall? ==> ReadSpec(last, t).Some?)
            && ReadItems(items, t, groupCol, groupName).value.1
               == before.value.1 + if last.expr.ColumnRef? then [] else [ReadSpec(last, t).value]
  {
    AddNothing(ReadItems(items[..|items| - 1], t, groupCol, groupName).value.1);
  }

  /** The item of the m-th call. */
  lemma {:induction false} ItemOfCall(items: seq<SelectItem>, m: nat) returns (j: nat)
    requires m < |Calls(items)|
    ensures j < |items| && items[j].expr.FunctionCall? && |Calls(items[..j])| == m
    decreases |items|
  {
    var n := |items| - 1;
    if m < |Calls(items[..n])| {
      j := ItemOfCall(items[..n], m);
      assert items[..n][..j] == items[..j];
    } else {
      j := n;
    }
  }

  lemma CallsBefore(items: seq<SelectItem>, i: nat, j: nat)
    requires i < j <= |items| && items[i].expr.FunctionCall?
    ensures |Calls(items[..i])| < |Calls(items[..j])|
  {
    CallOfItem(items[..j], i);
    assert items[..j][..i] == items[..i];
  }

  lemma ColumnNames(stmt: SelectStmt, t: TableData, shape: Shape, j: nat)
    requires Gated(stmt, t, shape) && ShapeOk(t, shape) && j < |stmt.selectList| && stmt.selectList[j].expr.FunctionCall?
    ensures var col := OutputColumn(stmt.selectList, shape.hasKey, j);
            col < |FastSchema(t, shape)| && FastSchema(t, shape)[col].name == OutName(stmt.selectList[j])
  {
    SpecOfItem(stmt.selectList, t, shape.groupCol, shape.groupName, j);
  }

  /** An output column before that of call i, and not the key, is the column of an earlier call. */
  lemma EarlierCall(stmt: SelectStmt, t: TableData, shape: Shape, i: nat, p: nat) returns (j: nat)
    requires Gated(stmt, t, shape) && ShapeOk(t, shape) && i < |stmt.selectList| && stmt.selectList[i].expr.FunctionCall?
    requires (if shape.hasKey then 1 else 0) <= p < OutputColumn(stmt.selectList, shape.hasKey, i)
    ensures j < i && stmt.selectList[j].expr.FunctionCall? && OutputColumn(stmt.selectList, shape.hasKey, j) == p
  {
    var items := stmt.selectList;
    CallOfItem(items, i);
    j := ItemOfCall(items, p - (if shape.hasKey then 1 else 0));
    if i < j {
      CallsBefore(items, i, j);
    }
  }

  /** Whether the name stands before column `col` of the fast result. */
  predicate NameBefore(schema: Schema, col: nat, name: string) {
    exists p :: 0 <= p < col && p < |schema| && SameName(schema[p].name, name)
  }

  lemma NameBeforeIff(stmt: SelectStmt, t: TableData, shape: Shape, i: nat, name: string)
    requires Gated(stmt, t, shape) && ShapeOk(t, shape) && i < |stmt.selectList| && stmt.selectList[i].expr.FunctionCall?
    ensures NameBefore(FastSchema(t, shape), OutputColumn(stmt.selectList, shape.hasKey, i), name) <==>
            (shape.hasKey && SameName(shape.groupName, name))
            || exists j :: 0 <= j < i && stmt.selectList[j].expr.FunctionCall? && SameName(OutName(stmt.selectList[j]), name)
  {
    var items, schema, col := stmt.selectList, FastSchema(t, shape), OutputColumn(stmt.selectList, shape.hasKey, i);
    ColumnNames(stmt, t, shape, i);
    if NameBefore(schema, col, name) {
      var p :| 0 <= p < col && p < |schema| && SameName(schema[p].name, name);
      if !(shape.hasKey && p == 0) {
        var j := EarlierCall(stmt, t, shape, i, p);
        ColumnNames(stmt, t, shape, j);
        assert SameName(OutName(items[j]), name);
      }
    }
    if j :| 0 <= j < i && items[j].expr.FunctionCall? && SameName(OutName(items[j]), name) {
      ColumnNames(stmt, t, shape, j);
      CallsBefore(items, j, i);
      assert SameName(schema[OutputColumn(items, shape.hasKey, j)].name, name);
    }
    if shape.hasKey {
      assert schema[0].name == shape.groupName;
    }
  }

  /** The alias of a call names the first fast column of that name exactly when nothing before it has the name. */
  lemma AliasFoundFirstIff(stmt: SelectStmt, t: TableData, shape: Shape, i: nat, name: string)
    requires Gated(stmt, t, shape) && ShapeOk(t, shape) && i < |stmt.selectList|
    requires stmt.selectList[i].expr.FunctionCall? && stmt.selectList[i].alias == Some(name)
    ensures OutputColumn(stmt.selectList, shape.hasKey, i) == IndexOf(FastSchema(t, shape), name) <==>
            !(shape.hasKey && SameName(shape.groupName, name))
            && forall j :: 0 <= j < i && stmt.selectList[j].expr.FunctionCall? ==> !SameName(OutName(stmt.selectList[j]), name)
  {
    var schema, col := FastSchema(t, shape), OutputColumn(stmt.selectList, shape.hasKey, i);
    ColumnNames(stmt, t, shape, i);
    NameBeforeIff(stmt, t, shape, i, name);
    FirstIff(schema, col, name);
  }

  lemma FirstIff(schema: Schema, col: nat, name: string)
    requires col < |schema| && SameName(schema[col].name, name)
    ensures IndexOf(schema, name) == col <==> !NameBefore(schema, col, name)
  {
    var p := IndexOf(schema, name);
    assert 0 <= p <= col && SameName(schema[p].name, name);
  }

  /** Both paths resolve a sort name that the fast path finds to one column exactly when the name is in order. */
  lemma SortNameIff(stmt: SelectStmt, t: TableData, shape: Shape, name: string)
    requires Gated(stmt, t, shape) && ShapeOk(t, shape) && IndexOf(FastSchema(t, shape), name) >= 0
    ensures GeneralColumn(stmt.selectList, shape, name) == IndexOf(FastSchema(t, shape), name)
            <==> SortNameOk(stmt.selectList, shape.hasKey, shape.groupName, name)
  {
    var i := AliasedItem(stmt.selectList, name);
    if i < |stmt.selectList| {
      ItemIsRead(stmt, t, shape, i);
      if stmt.selectList[i].expr.FunctionCall? {
        AliasFoundFirstIff(stmt, t, shape, i, name);
      }
    }
  }

  lemma SortKeyValue(pow: Pow, stmt: SelectStmt, t: TableData, shape: Shape, out: Row, g: Group, name: Expr, col: nat) returns (v: Value)
    requires Ready(stmt, t, shape) && OutPair(SettingOf(stmt, t, shape), out, g)
    requires name.ColumnRef? && LexedRef(name) && GeneralColumn(stmt.selectList, shape, name.column) == col
    ensures Yields(pow, CloneSubstAggs(KeySource(name, stmt.selectList), SlotsOf(stmt)), OutSchema(stmt), out, v)
    ensures col < |FastRow(shape, g)| && ColumnPair(SettingOf(stmt, t, shape), col, v, FastRow(shape, g)[col])
  {
    var i := AliasedItem(stmt.selectList, name.column);
    if i < |stmt.selectList| {
      v := ItemValue(pow, stmt, t, shape, out, g, i);
    } else {
      GateIsOk(stmt, t);
      KeyItemValue(pow, stmt, t, shape, out, g, name);
      v := out[0];
    }
  }

  ghost predicate KeysPair(c: Setting, cols: seq<nat>, vs: seq<Value>, ws: seq<Value>) {
    |vs| == |cols| == |ws| && forall i :: 0 <= i < |cols| ==> ColumnPair(c, cols[i], vs[i], ws[i])
  }

  ghost predicate KeyedPair(c: Setting, cols: seq<nat>, a: Keyed, b: Keyed) {
    KeysPair(c, cols, a.keys, b.keys) && RowPair(c, a.row, b.row)
  }

  /** Two rows' values of one column compare alike on both paths. */
  lemma CellsCompareAlike(c: Setting, col: nat, v: Value, w: Value, v': Value, w': Value)
    requires ColumnPair(c, col, v, w) && ColumnPair(c, col, v', w')
    ensures (v.Null? <==> w.Null?) && (v'.Null? <==> w'.Null?)
    ensures Comparable(v, v')
    ensures !v.Null? && !v'.Null? ==> Before(v, v') == Before(w, w')
  {
    var m := col - (if c.shape.hasKey then 1 else 0);
    if !(c.shape.hasKey && col == 0) && IsExtremeFn(c.shape.specs[m].fn) && !v.Null? && !v'.Null? {
      CompareAsDoubles(c.t.cols[c.shape.specs[m].col].ty, v, v');
    }
  }

  lemma {:induction false} KeysLessAlike(c: Setting, keys: seq<SortKey>, keys': seq<SortKey>, cols: seq<nat>, vs: Row, ws: Row, vs': Row, ws': Row)
    requires |keys| == |cols| == |keys'| && KeysPair(c, cols, vs, ws) && KeysPair(c, cols, vs', ws')
    requires forall i :: 0 <= i < |keys| ==> keys[i].asc == keys'[i].asc && NullsFirst(keys[i]) == NullsFirst(keys'[i])
    ensures KeysLess(keys, vs, vs') == KeysLess(keys', ws, ws') && KeysComparable(vs, vs')
    decreases |keys|
  {
    if keys != [] {
      CellsCompareAlike(c, cols[0], vs[0], ws[0], vs'[0], ws'[0]);
      CellsCompareAlike(c, cols[0], vs'[0], ws'[0], vs[0], ws[0]);
      TailPairs(c, cols, vs, ws);
      TailPairs(c, cols, vs', ws');
      KeysLessAlike(c, keys[1..], keys'[1..], cols[1..], vs[1..], ws[1..], vs'[1..], ws'[1..]);
      assert forall j :: 0 < j < |vs| ==> vs[j] == vs[1..][j - 1] && vs'[j] == vs'[1..][j - 1];
    }
  }

  lemma TailPairs(c: Setting, cols: seq<nat>, vs: Row, ws: Row)
    requires KeysPair(c, cols, vs, ws) && cols != []
    ensures KeysPair(c, cols[1..], vs[1..], ws[1..])
  {
  }

  /** The same direction and the same place for NULLs, key by key. */
  predicate KeysAlike(keys: seq<SortKey>, keys': seq<SortKey>) {
    |keys| == |keys'| && forall i :: 0 <= i < |keys| ==> keys[i].asc == keys'[i].asc && NullsFirst(keys[i]) == NullsFirst(keys'[i])
  }

  ghost predicate KeyedPairs(c: Setting, cols: seq<nat>, xs: seq<Keyed>, ys: seq<Keyed>) {
    |xs| == |ys| && forall i :: 0 <= i < |xs| ==> KeyedPair(c, cols, xs[i], ys[i])
  }

  lemma PairsAreUniform(c: Setting, cols: seq<nat>, keys: seq<SortKey>, keys': seq<SortKey>, xs: seq<Keyed>, ys: seq<Keyed>)
    requires KeysAlike(keys, keys') && |cols| == |keys| && KeyedPairs(c, cols, xs, ys)
    ensures Uniform(keys, xs) && Aligned(keys', ys)
  {
    forall i, j | 0 <= i < |xs| && 0 <= j < |xs| ensures KeysComparable(xs[i].keys, xs[j].keys) {
      KeysLessAlike(c, keys, keys', cols, xs[i].keys, ys[i].keys, xs[j].keys, ys[j].keys);
    }
  }

  lemma SortPairs(c: Setting, cols: seq<nat>, keys: seq<SortKey>, keys': seq<SortKey>, xs: seq<Keyed>, ys: seq<Keyed>)
    requires KeysAlike(keys, keys') && |cols| == |keys| && KeyedPairs(c, cols, xs, ys)
    requires Aligned(keys, xs) && Aligned(keys', ys)
    ensures KeyedPairs(c, cols, StableSort(keys, xs), StableSort(keys', ys))
  {
    var rel := (a: Keyed, b: Keyed) => KeyedPair(c, cols, a, b);
    forall a, a', b, b' | rel(a, a') && rel(b, b') ensures LessPair(keys, keys', a, a', b, b') {
      KeysLessAlike(c, keys, keys', cols, a.keys, a'.keys, b.keys, b'.keys);
    }
    SortsAlike(keys, xs, keys', ys, rel);
    var sorted, sorted' := StableSort(keys, xs), StableSort(keys', ys);
    forall i | 0 <= i < |sorted| ensures KeyedPair(c, cols, sorted[i], sorted'[i]) {
      assert rel(sorted[i], sorted'[i]);
    }
  }

  function GeneralKeys(stmt: SelectStmt): (r: seq<SortKey>)
    ensures |r| == |OrderBy(stmt)|
  {
    RewrittenKeys(OrderBy(stmt), stmt.selectList, SlotsOf(stmt))
  }

  ghost predicate Sorts(stmt: SelectStmt, t: TableData, shape: Shape, cols: seq<nat>) {
    && Ready(stmt, t, shape) && ShapeOk(t, shape)
    && ResolveKeys(FastSchema(t, shape), OrderBy(stmt)) == Some(cols)
    && OrderAgrees(stmt, shape, FastSchema(t, shape))
  }

  lemma RowKeysPair(pow: Pow, stmt: SelectStmt, t: TableData, shape: Shape, cols: seq<nat>, out: Row, g: Group)
    requires Sorts(stmt, t, shape, cols) && OutPair(SettingOf(stmt, t, shape), out, g)
    ensures KeysEvaluate(pow, GeneralKeys(stmt), OutSchema(stmt), out)
    ensures KeysPair(SettingOf(stmt, t, shape), cols, KeyVector(pow, GeneralKeys(stmt), OutSchema(stmt), out), Pick(cols, FastRow(shape, g)))
  {
    var keys := GeneralKeys(stmt);
    var vals := KeyVector(pow, keys, OutSchema(stmt), out);
    forall i | 0 <= i < |keys|
      ensures Yields(pow, keys[i].expr, OutSchema(stmt), out, vals[i])
      ensures ColumnPair(SettingOf(stmt, t, shape), cols[i], vals[i], Pick(cols, FastRow(shape, g))[i])
    {
      var k := OrderBy(stmt)[i];
      assert SortKeyAgrees(k, stmt.selectList, shape, FastSchema(t, shape));
      SortNameIff(stmt, t, shape, k.expr.column);
      var v := SortKeyValue(pow, stmt, t, shape, out, g, k.expr, cols[i]);
    }
  }

  ghost predicate RowsPair(c: Setting, out: seq<Row>, fs: seq<Row>) {
    |out| == |fs| && forall i :: 0 <= i < |out| ==> RowPair(c, out[i], fs[i])
  }

  /** ORDER BY over the aggregate output and over the fast rows gives paired sequences. */
  lemma SortsAgree(pow: Pow, stmt: SelectStmt, t: TableData, shape: Shape, cols: seq<nat>, out: seq<Row>, gs: seq<Group>) returns (sorted: seq<Row>)
    requires Sorts(stmt, t, shape, cols) && OutsPair(SettingOf(stmt, t, shape), out, gs)
    requires forall g :: g in gs ==> GroupShowable(shape, g)
    ensures SortRows(pow, GeneralKeys(stmt), OutSchema(stmt), out) == Ok(sorted)
    ensures RowsPair(SettingOf(stmt, t, shape), sorted, FastSort(OrderBy(stmt), cols, FastRows(shape, gs)))
  {
    var c, keys, keys' := SettingOf(stmt, t, shape), GeneralKeys(stmt), Directions(OrderBy(stmt));
    var xs, ys := Decorate(pow, keys, OutSchema(stmt), out), PickAll(cols, FastRows(shape, gs));
    forall i | 0 <= i < |out|
      ensures KeysEvaluate(pow, keys, OutSchema(stmt), out[i]) && KeyedPair(c, cols, xs[i], ys[i])
    {
      RowKeysPair(pow, stmt, t, shape, cols, out[i], gs[i]);
      assert RowPair(c, out[i], FastRow(shape, gs[i]));
    }
    forall i | 0 <= i < |keys| ensures keys[i].asc == keys'[i].asc && NullsFirst(keys[i]) == NullsFirst(keys'[i]) {
      assert SortKeyAgrees(OrderBy(stmt)[i], stmt.selectList, shape, FastSchema(t, shape));
    }
    PairsAreUniform(c, cols, keys, keys', xs, ys);
    UniformNoThrow(pow, keys, OutSchema(stmt), out);
    SortPairs(c, cols, keys, keys', xs, ys);
    sorted := Undecorate(StableSort(keys, xs));
  }

  // ---- Projection ----

  /** Equal, or the number on the left as the double on the right. */
  predicate SameNumber(v: Value, w: Value) {
    v == w || (w.Dbl? && ToDouble(v) == Ok(w.r))
  }

  /** Each item of the general row, beside its column of the fast row. */
  predicate RowAgrees(items: seq<SelectItem>, hasKey: bool, row: Row, f: Row) {
    |row| == |items|
    && forall i :: 0 <= i < |items| ==> OutputColumn(items, hasKey, i) < |f| && SameNumber(row[i], f[OutputColumn(items, hasKey, i)])
  }

  predicate AllAgree(items: seq<SelectItem>, hasKey: bool, rows: seq<Row>, fs: seq<Row>) {
    |rows| == |fs| && forall i :: 0 <= i < |rows| ==> RowAgrees(items, hasKey, rows[i], fs[i])
  }

  function GeneralItems(stmt: SelectStmt): (r: seq<ProjectItem>)
    ensures |r| == |stmt.selectList|
    ensures forall i :: 0 <= i < |r| ==> r[i].expr == CloneSubstAggs(stmt.selectList[i].expr, SlotsOf(stmt))
  {
    RewrittenItems(stmt.selectList, SlotsOf(stmt), OutSchema(stmt))
  }

  lemma PairIsSameNumber(c: Setting, col: nat, v: Value, w: Value)
    requires ColumnPair(c, col, v, w)
    ensures SameNumber(v, w)
  {
  }

  lemma RowProjects(pow: Pow, stmt: SelectStmt, t: TableData, shape: Shape, out: Row, f: Row) returns (row: Row)
    requires Ready(stmt, t, shape) && RowPair(SettingOf(stmt, t, shape), out, f)
    ensures EvaluateAll(pow, ItemExprs(GeneralItems(stmt)), OutSchema(stmt), out) == Ok(row)
    ensures RowAgrees(stmt.selectList, shape.hasKey, row, f)
  {
    var c, es := SettingOf(stmt, t, shape), ItemExprs(GeneralItems(stmt));
    var g :| OutPair(c, out, g) && f == FastRow(shape, g);
    row := seq(|es|, i requires 0 <= i < |es| => ValueOr(Evaluate(pow, es[i], OutSchema(stmt), out)));
    forall i | 0 <= i < |es|
      ensures Yields(pow, es[i], OutSchema(stmt), out, row[i])
      ensures OutputColumn(stmt.selectList, shape.hasKey, i) < |f| && SameNumber(row[i], f[OutputColumn(stmt.selectList, shape.hasKey, i)])
    {
      var v := ItemValue(pow, stmt, t, shape, out, g, i);
      PairIsSameNumber(c, OutputColumn(stmt.selectList, shape.hasKey, i), v, f[OutputColumn(stmt.selectList, shape.hasKey, i)]);
    }
    EvaluateAllFrom(pow, es, OutSchema(stmt), out, row);
  }

  ghost predicate Projects(pow: Pow, stmt: SelectStmt, hasKey: bool, out: Row, f: Row, row: Row) {
    EvaluateAll(pow, ItemExprs(GeneralItems(stmt)), OutSchema(stmt), out) == Ok(row) && RowAgrees(stmt.selectList, hasKey, row, f)
  }

  lemma {:induction false} ProjectedStream(pow: Pow, es: seq<Expr>, schema: Schema, out: seq<Row>, rows: seq<Row>)
    requires |rows| == |out| && forall i :: 0 <= i < |out| ==> EvaluateAll(pow, es, schema, out[i]) == Ok(rows[i])
    ensures StepRows(pow, Compute(es), schema, out) == Stream(rows, false)
    decreases |out|
  {
    if out != [] {
      ProjectedStream(pow, es, schema, out[1..], rows[1..]);
      SplitFirst(rows);
    }
  }

  lemma ProjectedRow(pow: Pow, stmt: SelectStmt, t: TableData, shape: Shape, out: seq<Row>, fs: seq<Row>, i: nat) returns (row: Row)
    requires Ready(stmt, t, shape) && RowsPair(SettingOf(stmt, t, shape), out, fs) && i < |out|
    ensures Projects(pow, stmt, shape.hasKey, out[i], fs[i], row)
  {
    assert RowPair(SettingOf(stmt, t, shape), out[i], fs[i]);
    row := RowProjects(pow, stmt, t, shape, out[i], fs[i]);
  }

  lemma ProjectedRows(pow: Pow, stmt: SelectStmt, hasKey: bool, out: seq<Row>, fs: seq<Row>, rows: seq<Row>)
    requires |rows| == |out| == |fs| && forall i :: 0 <= i < |out| ==> Projects(pow, stmt, hasKey, out[i], fs[i], rows[i])
    ensures StepRows(pow, Compute(ItemExprs(GeneralItems(stmt))), OutSchema(stmt), out) == Stream(rows, false)
    ensures AllAgree(stmt.selectList, hasKey, rows, fs)
  {
    ProjectedStream(pow, ItemExprs(GeneralItems(stmt)), OutSchema(stmt), out, rows);
  }

  lemma RowsProject(pow: Pow, stmt: SelectStmt, t: TableData, shape: Shape, out: seq<Row>, fs: seq<Row>) returns (rows: seq<Row>)
    requires Ready(stmt, t, shape) && RowsPair(SettingOf(stmt, t, shape), out, fs)
    ensures StepRows(pow, Compute(ItemExprs(GeneralItems(stmt))), OutSchema(stmt), out) == Stream(rows, false)
    ensures AllAgree(stmt.selectList, shape.hasKey, rows, fs)
  {
    hide Projects, RowPair, StepRows, Ready;
    rows := [];
    while |rows| < |out|
      invariant |rows| <= |out|
      invariant forall i :: 0 <= i < |rows| ==> Projects(pow, stmt, shape.hasKey, out[i], fs[i], rows[i])
    {
      var row := ProjectedRow(pow, stmt, t, shape, out, fs, |rows|);
      rows := rows + [row];
    }
    ProjectedRows(pow, stmt, shape.hasKey, out, fs, rows);
  }
}
