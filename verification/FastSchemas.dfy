/** When the result schemas of the two paths agree, column by column. */
module FastSchemas {
  import opened Results
  import opened Types
  import opened Ast
  import opened Eval
  import opened Tables
  import opened Aggregation
  import opened Plans
  import opened Names
  import opened Rewrite
  import opened RewriteMeaning
  import opened Planner
  import opened FastPredicate
  import opened FastAggregate
  import opened FastGrouping
  import opened FastAgreement
  import opened FastPath

  /** The key's result column is named by its alias and typed as a double on the general path. */
  predicate KeyColumnAgrees(item: SelectItem, t: TableData, shape: Shape)
    requires 0 <= shape.groupCol < |t.cols|
  {
    (item.alias.None? || item.alias.value == shape.groupName) && t.cols[shape.groupCol].ty == NullableDouble()
  }

  /** The column of this item is named and typed alike in both results. */
  predicate ItemAgrees(item: SelectItem, t: TableData, shape: Shape) {
    item.expr.ColumnRef? ==> 0 <= shape.groupCol < |t.cols| && KeyColumnAgrees(item, t, shape)
  }

  lemma SlotType(stmt: SelectStmt, t: TableData, shape: Shape, f: Expr)
    requires Ready(stmt, t, shape) && f in Calls(stmt.selectList)
    ensures ItemType(CloneSubstAggs(f, SlotsOf(stmt)), OutSchema(stmt), false) == if f.name == "COUNT" then SimpleType(INT64) else NullableDouble()
  {
    CallIsRead(stmt, t, shape, f);
    CloneOfCall(f, SlotsOf(stmt));
    SlotsAreCalls(stmt);
    GroupNames(stmt, t, shape);
    SlotPosition(KeyNames(GroupKeys(stmt)), SlotAggs(SlotsOf(stmt)), FindSlot(SlotsOf(stmt), f));
  }

  lemma KeyType(stmt: SelectStmt, t: TableData, shape: Shape, e: Expr)
    requires Ready(stmt, t, shape) && shape.groupCol >= 0 && e.ColumnRef? && e.column == shape.groupName
    ensures ItemType(CloneSubstAggs(e, SlotsOf(stmt)), OutSchema(stmt), false) == NullableDouble()
  {
    GroupNames(stmt, t, shape);
    SlotsAreCalls(stmt);
    var s := OutSchema(stmt);
    assert s[0] == ColumnDef(shape.groupName, NullableDouble());
  }

  /**
   The fast column that shows item i has the name and type of column i of the operator tree: always for a call, and
   for the key exactly when it has no other alias and is a nullable double.
   */
  lemma ColumnAgreesIff(stmt: SelectStmt, t: TableData, shape: Shape, i: nat)
    requires Ready(stmt, t, shape) && ShapeOk(t, shape) && i < |stmt.selectList|
    ensures var col := OutputColumn(stmt.selectList, shape.hasKey, i);
            var s := PlanSchema(BodyPlan(stmt, t));
            && col < |FastSchema(t, shape)| && |s| == |stmt.selectList|
            && (FastSchema(t, shape)[col] == s[i] <==> ItemAgrees(stmt.selectList[i], t, shape))
  {
    var item := stmt.selectList[i];
    ItemIsRead(stmt, t, shape, i);
    BodyPlanIs(stmt, t);
    ProjectedColumn(stmt, t, i);
    if item.expr.ColumnRef? {
      KeyType(stmt, t, shape, item.expr);
    } else {
      CallColumn(stmt, t, shape, i);
    }
  }

  lemma ProjectedColumn(stmt: SelectStmt, t: TableData, i: nat)
    requires i < |stmt.selectList| && stmt.having.None?
    ensures var s := PlanSchema(BodyPlan(stmt, t));
            |s| == |stmt.selectList| && s[i].name == ItemName(stmt.selectList[i], i)
            && s[i].ty == ItemType(CloneSubstAggs(stmt.selectList[i].expr, SlotsOf(stmt)), OutSchema(stmt), false)
  {
    BodyPlanIs(stmt, t);
  }

  lemma SpecColumn(stmt: SelectStmt, t: TableData, shape: Shape, i: nat)
    requires Gated(stmt, t, shape) && ShapeOk(t, shape) && i < |stmt.selectList| && stmt.selectList[i].expr.FunctionCall?
    ensures var col, item := OutputColumn(stmt.selectList, shape.hasKey, i), stmt.selectList[i];
            && col < |FastSchema(t, shape)|
            && FastSchema(t, shape)[col] == ColumnDef(ItemName(item, i), if item.expr.name == "COUNT" then SimpleType(INT64) else NullableDouble())
  {
    SpecOfItem(stmt.selectList, t, shape.groupCol, shape.groupName, i);
    SpecShown(t, shape, |Calls(stmt.selectList[..i])|);
  }

  lemma SpecShown(t: TableData, shape: Shape, m: nat)
    requires ShapeOk(t, shape) && m < |shape.specs|
    ensures FastSchema(t, shape)[(if shape.hasKey then 1 else 0) + m] == ColumnDef(shape.specs[m].outName, shape.specs[m].outType)
  {
  }

  lemma CallColumn(stmt: SelectStmt, t: TableData, shape: Shape, i: nat)
    requires Ready(stmt, t, shape) && ShapeOk(t, shape) && i < |stmt.selectList| && stmt.selectList[i].expr.FunctionCall?
    ensures var col := OutputColumn(stmt.selectList, shape.hasKey, i);
            var item := stmt.selectList[i];
            && col < |FastSchema(t, shape)|
            && FastSchema(t, shape)[col] == ColumnDef(ItemName(item, i), ItemType(CloneSubstAggs(item.expr, SlotsOf(stmt)), OutSchema(stmt), false))
  {
    SpecColumn(stmt, t, shape, i);
    CallOfItem(stmt.selectList, i);
    SlotType(stmt, t, shape, stmt.selectList[i].expr);
  }

  // ---- Widths ----

  function Keys(items: seq<SelectItem>): seq<nat> {
    if items == [] then []
    else
      var n := |items| - 1;
      if items[n].expr.ColumnRef? then Keys(items[..n]) + [n] else Keys(items[..n])
  }

  lemma {:induction false} KeysAndCallsCounted(items: seq<SelectItem>)
    requires forall i :: 0 <= i < |items| ==> items[i].expr.ColumnRef? || items[i].expr.FunctionCall?
    ensures |Keys(items)| + |Calls(items)| == |items|
    ensures forall i: nat :: i in Keys(items) <==> i < |items| && items[i].expr.ColumnRef?
    ensures forall i, j :: 0 <= i < j < |Keys(items)| ==> Keys(items)[i] < Keys(items)[j]
    decreases |items|
  {
    if items != [] {
      var n := |items| - 1;
      KeysAndCallsCounted(items[..n]);
      assert forall i :: 0 <= i < |Keys(items[..n])| ==> Keys(items[..n])[i] in Keys(items[..n]);
    }
  }

  lemma {:induction false} KeyIsSelected(items: seq<SelectItem>, t: TableData, groupCol: int, groupName: string)
    requires |t.cols| == |t.schema| && ReadItems(items, t, groupCol, groupName).Some?
    ensures ReadItems(items, t, groupCol, groupName).value.0 <==> exists i :: 0 <= i < |items| && items[i].expr.ColumnRef?
    decreases |items|
  {
    if items != [] {
      var n := |items| - 1;
      KeyIsSelected(items[..n], t, groupCol, groupName);
      assert forall i :: 0 <= i < n ==> items[..n][i] == items[i];
    }
  }

  lemma FirstIsMember(ks: seq<nat>)
    ensures ks != [] ==> ks[0] in ks
  {
  }

  predicate SelectedOnce(items: seq<SelectItem>) {
    forall i, j :: 0 <= i < j < |items| ==> !(items[i].expr.ColumnRef? && items[j].expr.ColumnRef?)
  }

  /** Both results have as many columns exactly when the key is selected at most once: the fast path emits it once. */
  lemma WidthsAgreeIff(stmt: SelectStmt, t: TableData, shape: Shape)
    requires Gated(stmt, t, shape) && ShapeOk(t, shape)
    ensures |FastSchema(t, shape)| == |stmt.selectList| <==> SelectedOnce(stmt.selectList)
  {
    var items := stmt.selectList;
    ItemsRead(items, t, shape.groupCol, shape.groupName);
    assert forall i :: 0 <= i < |items| ==> ItemRead(items[i], shape.groupCol, shape.groupName);
    KeysAndCallsCounted(items);
    KeyIsSelected(items, t, shape.groupCol, shape.groupName);
    var ks := Keys(items);
    assert |FastSchema(t, shape)| == (if shape.hasKey then 1 else 0) + |Calls(items)|;
    if |ks| > 1 {
      assert ks[0] in ks && ks[1] in ks && ks[0] < ks[1];
    }
    forall i, j | 0 <= i < j < |items| && items[i].expr.ColumnRef? && items[j].expr.ColumnRef? ensures |ks| > 1 {
      assert i in ks && j in ks;
    }
    if shape.hasKey {
      var i :| 0 <= i < |items| && items[i].expr.ColumnRef?;
      assert i in ks;
    } else {
      FirstIsMember(ks);
    }
  }

  lemma KeyItemFirst(stmt: SelectStmt, t: TableData, shape: Shape)
    requires Gated(stmt, t, shape) && KeyLeads(stmt.selectList)
    ensures stmt.selectList != [] && (shape.hasKey <==> stmt.selectList[0].expr.ColumnRef?)
    ensures forall i :: 0 <= i < |stmt.selectList| ==> OutputColumn(stmt.selectList, shape.hasKey, i) == i
  {
    var items := stmt.selectList;
    assert items != [];
    KeyIsSelected(items, t, shape.groupCol, shape.groupName);
    ItemsRead(items, t, shape.groupCol, shape.groupName);
    assert forall i :: 0 <= i < |items| ==> ItemRead(items[i], shape.groupCol, shape.groupName);
    LayoutsAgreeIffKeyLeads(items, shape.hasKey);
  }

  /** With the key first or absent, the schemas are equal exactly when the key's column agrees. */
  lemma SchemasAgreeIff(stmt: SelectStmt, t: TableData, shape: Shape)
    requires Ready(stmt, t, shape) && ShapeOk(t, shape) && KeyLeads(stmt.selectList)
    ensures FastSchema(t, shape) == PlanSchema(BodyPlan(stmt, t))
            <==> (shape.hasKey ==> stmt.selectList != [] && ItemAgrees(stmt.selectList[0], t, shape))
  {
    var items, fast, general := stmt.selectList, FastSchema(t, shape), PlanSchema(BodyPlan(stmt, t));
    KeyItemFirst(stmt, t, shape);
    WidthsAgreeIff(stmt, t, shape);
    forall i | 0 <= i < |items| ensures |general| == |items| && i < |fast| && (fast[i] == general[i] <==> ItemAgrees(items[i], t, shape)) {
      ColumnAgreesIff(stmt, t, shape, i);
    }
    SchemasEqual(fast, general, items, t, shape);
  }

  lemma SchemasEqual(fast: Schema, general: Schema, items: seq<SelectItem>, t: TableData, shape: Shape)
    requires |fast| == |general| == |items| > 0 && KeyLeads(items) && (shape.hasKey <==> items[0].expr.ColumnRef?)
    requires forall i :: 0 <= i < |items| ==> (fast[i] == general[i] <==> ItemAgrees(items[i], t, shape))
    ensures fast == general <==> (shape.hasKey ==> ItemAgrees(items[0], t, shape))
  {
  }
}
