/**
 The WHERE clause of the typed fast path: a conjunction of column/constant comparisons read off the typed
 buffers, and when it selects the rows the general evaluator selects.
 */
module FastPredicate {
  import opened Results
  import opened Types
  import opened Doubles
  import opened Ast
  import opened Eval
  import opened Tables
  import opened Ordering
  import opened RowOrder

  datatype Cmp = IsEq | IsNeq | IsLt | IsLte | IsGt | IsGte

  function ToCmp(op: BinaryOp): Option<Cmp> {
    match op
    case EQ => Some(IsEq)
    case NEQ => Some(IsNeq)
    case LT => Some(IsLt)
    case LTE => Some(IsLte)
    case GT => Some(IsGt)
    case GTE => Some(IsGte)
    case _ => None
  }

  /** The comparison with its operands swapped. */
  function Flip(c: Cmp): Cmp {
    match c
    case IsLt => IsGt
    case IsLte => IsGte
    case IsGt => IsLt
    case IsGte => IsLte
    case _ => c
  }

  datatype PredAtom = PredAtom(col: nat, op: Cmp, isNumeric: bool, numConst: real, strConst: string)

  function MakeAtom(c: Expr, lit: Value, op: Cmp, t: TableData): Option<PredAtom>
    requires c.ColumnRef?
  {
    var idx := IndexOf(t.schema, c.column);
    if idx < 0 then None
    else if lit.Str? then Some(PredAtom(idx, op, false, 0.0, lit.s))
    else if IsNumeric(lit) then Some(PredAtom(idx, op, true, ToDouble(lit).value, ""))
    else None
  }

  /** Reads a comparison of a column with a constant, in either operand order. */
  function ParseAtom(e: Expr, t: TableData): Option<PredAtom> {
    if !e.Binary? || ToCmp(e.op).None? then None
    else
      var cmp := ToCmp(e.op).value;
      if e.left.ColumnRef? && e.right.Literal? then MakeAtom(e.left, e.right.value, cmp, t)
      else if e.right.ColumnRef? && e.left.Literal? then MakeAtom(e.right, e.left.value, Flip(cmp), t)
      else None
  }

  /** Flattens an AND tree of atoms. */
  function ParsePredicate(e: Expr, t: TableData): Option<seq<PredAtom>> {
    if e.Binary? && e.op == AND then
      var l, r := ParsePredicate(e.left, t), ParsePredicate(e.right, t);
      if l.Some? && r.Some? then Some(l.value + r.value) else None
    else
      var a := ParseAtom(e, t);
      if a.Some? then Some([a.value]) else None
  }

  // ---- rowPasses ----

  function CmpReal(c: Cmp, x: real, y: real): bool {
    match c
    case IsEq => x == y
    case IsNeq => x != y
    case IsLt => x < y
    case IsLte => x <= y
    case IsGt => x > y
    case IsGte => x >= y
  }

  function CmpStr(c: Cmp, x: string, y: string): bool {
    match c
    case IsEq => x == y
    case IsNeq => x != y
    case IsLt => StrLess(x, y)
    case IsLte => !StrLess(y, x)
    case IsGt => StrLess(y, x)
    case IsGte => !StrLess(x, y)
  }

  /** A numeric or integer-kind cell as the double the fast path computes with. */
  function RawDouble(c: ColumnData, r: nat): real
    requires ColumnOk(c) && KindOf(c.ty.id) != String && r < |c.valid|
  {
    if KindOf(c.ty.id) == Double then c.f64[r] else IntToDouble(c.i64[r])
  }

  /** A numeric constant is compared only with columns that have a numeric buffer. */
  predicate Readable(t: TableData, p: PredAtom) {
    p.col < |t.cols| && (p.isNumeric ==> KindOf(t.cols[p.col].ty.id) != String)
  }

  predicate AtomHolds(t: TableData, p: PredAtom, r: nat)
    requires TableOk(t) && Readable(t, p) && r < RowCount(t)
  {
    var c := t.cols[p.col];
    && c.valid[r]
    && if p.isNumeric then CmpReal(p.op, RawDouble(c, r), p.numConst)
       else KindOf(c.ty.id) == String && CmpStr(p.op, c.str[r], p.strConst)
  }

  predicate AllReadable(t: TableData, ps: seq<PredAtom>) {
    forall i :: 0 <= i < |ps| ==> Readable(t, ps[i])
  }

  predicate AllHold(t: TableData, ps: seq<PredAtom>, r: nat)
    requires TableOk(t) && AllReadable(t, ps) && r < RowCount(t)
  {
    forall i :: 0 <= i < |ps| ==> AtomHolds(t, ps[i], r)
  }

  method RowPasses(t: TableData, preds: seq<PredAtom>, r: nat) returns (ok: bool)
    requires TableOk(t) && AllReadable(t, preds) && r < RowCount(t)
    ensures ok <==> AllHold(t, preds, r)
  {
    for i := 0 to |preds|
      invariant forall j :: 0 <= j < i ==> AtomHolds(t, preds[j], r)
    {
      var p := preds[i];
      var c := t.cols[p.col];
      if !c.valid[r] { return false; }
      if p.isNumeric {
        if !CmpReal(p.op, RawDouble(c, r), p.numConst) { return false; }
      } else {
        if KindOf(c.ty.id) != String { return false; }
        if !CmpStr(p.op, c.str[r], p.strConst) { return false; }
      }
    }
    return true;
  }

  // ---- What a stored integer shows ----

  /** The integers that survive being shown at a column's declared subtype. */
  predicate FitsType(ty: DataType, i: int) {
    if ty.id == BOOLEAN then i == 0 || i == 1
    else if ty.id == INT8 then -0x80 <= i < 0x80
    else if ty.id == INT16 then -0x8000 <= i < 0x8000
    else if ty.id == INT32 then -0x8000_0000 <= i < 0x8000_0000
    else true
  }

  /** The general path sees the stored integer itself exactly when it fits the declared subtype. */
  lemma ShownIffFits(ty: DataType, i: int)
    ensures ToInt64(MakeIntValue(ty, i)) == Ok(i) <==> FitsType(ty, i)
  {
    if ty.id == INT8 {
      WrapKeeps(i, 0x80);
    } else if ty.id == INT16 {
      WrapKeeps(i, 0x8000);
    } else if ty.id == INT32 {
      WrapKeeps(i, 0x8000_0000);
    }
  }

  lemma WrapKeeps(i: int, half: int)
    requires half > 0
    ensures Wrap(i, half) == i <==> -half <= i < half
  {
    WrapIdempotent(i, half);
    if -half <= i < half {
      SmallRemainder(i + half, 2 * half);
    }
  }

  lemma SmallRemainder(x: int, m: int)
    requires 0 <= x < m
    ensures x % m == x
  {
  }

  predicate Small(i: int) {
    -EXACT_LIMIT <= i <= EXACT_LIMIT
  }

  /** The cell shows what is stored, and its double is exact. */
  predicate CellExact(c: ColumnData, r: nat)
    requires ColumnOk(c) && r < |c.valid|
  {
    c.valid[r] && KindOf(c.ty.id) == Int64 ==> FitsType(c.ty, c.i64[r]) && Small(c.i64[r])
  }

  lemma ExactCell(c: ColumnData, r: nat)
    requires ColumnOk(c) && r < |c.valid| && c.valid[r] && KindOf(c.ty.id) != String && CellExact(c, r)
    ensures ToDouble(ValueAt(c, r)) == Ok(RawDouble(c, r))
    ensures ValueAt(c, r).Int? ==> Small(ValueAt(c, r).i) && RawDouble(c, r) == ValueAt(c, r).i as real
    ensures ValueAt(c, r).Bool? <==> c.ty.id == BOOLEAN
  {
    if KindOf(c.ty.id) == Int64 {
      ShownIffFits(c.ty, c.i64[r]);
      CastIsExact(c.i64[r]);
      CastIsExact(0);
      CastIsExact(1);
    }
  }

  // ---- Agreement with the evaluator ----

  /** No column is named `table.column`, except the one the bare name finds. */
  predicate RefResolves(schema: Schema, e: Expr)
    requires e.ColumnRef?
  {
    && e.column != "*"
    && (e.table.Some? ==>
         var q := IndexOf(schema, e.table.value + "." + e.column);
         q < 0 || q == IndexOf(schema, e.column))
  }

  lemma PlainLookup(schema: Schema, row: Row, e: Expr)
    requires e.ColumnRef? && RefResolves(schema, e) && |row| == |schema| && IndexOf(schema, e.column) >= 0
    ensures Lookup(e.table, e.column, schema, row) == Ok(row[IndexOf(schema, e.column)])
  {
  }

  /** The fast path looks up bare names only. Both paths find one column in every row exactly when the reference resolves. */
  lemma LookupsAgreeIff(schema: Schema, e: Expr)
    requires e.ColumnRef? && IndexOf(schema, e.column) >= 0
    ensures (forall row: Row :: |row| == |schema| ==> FindsColumn(schema, row, e)) <==> RefResolves(schema, e)
  {
    if RefResolves(schema, e) {
      forall row: Row | |row| == |schema| ensures FindsColumn(schema, row, e) {
        PlainLookup(schema, row, e);
      }
    } else {
      var row := OtherCell(schema, e);
    }
  }

  /** A row whose cells differ tells the two lookups apart. */
  lemma OtherCell(schema: Schema, e: Expr) returns (row: Row)
    requires e.ColumnRef? && IndexOf(schema, e.column) >= 0 && !RefResolves(schema, e)
    ensures |row| == |schema| && !FindsColumn(schema, row, e)
  {
    row := seq(|schema|, i => Int(W64, i));
    if e.column != "*" {
      var q, b := IndexOf(schema, e.table.value + "." + e.column), IndexOf(schema, e.column);
      assert Lookup(e.table, e.column, schema, row) == Ok(Int(W64, q)) && row[b] == Int(W64, b);
    }
  }

  predicate FindsColumn(schema: Schema, row: Row, e: Expr)
    requires e.ColumnRef? && |row| == |schema| && IndexOf(schema, e.column) >= 0
  {
    Lookup(e.table, e.column, schema, row) == Ok(row[IndexOf(schema, e.column)])
  }

  function LiteralOf(e: Expr): Value {
    if e.Binary? && e.right.Literal? then e.right.value
    else if e.Binary? && e.left.Literal? then e.left.value
    else Null
  }

  function RefOf(e: Expr): Expr
    requires e.Binary?
  {
    if e.left.ColumnRef? then e.left else e.right
  }

  /** A column that compares with constants of this kind. */
  predicate TakesKind(ty: DataType, numeric: bool) {
    if numeric then KindOf(ty.id) != String && ty.id != BOOLEAN else KindOf(ty.id) == String
  }

  /** The reference resolves, the constant has the column's kind of type, and integers are within 2^53. */
  predicate AtomTyped(e: Expr, t: TableData) {
    var a := ParseAtom(e, t);
    a.Some? && a.value.col < |t.cols| ==>
      && RefResolves(t.schema, RefOf(e)) && TakesKind(t.cols[a.value.col].ty, a.value.isNumeric)
      && (LiteralOf(e).Int? ==> Small(LiteralOf(e).i))
  }

  predicate AtomsTyped(e: Expr, t: TableData) {
    if e.Binary? && e.op == AND then AtomsTyped(e.left, t) && AtomsTyped(e.right, t) else AtomTyped(e, t)
  }

  /** The compared cells of row r are exact. */
  predicate RowExact(t: TableData, ps: seq<PredAtom>, r: nat)
    requires TableOk(t) && r < RowCount(t)
  {
    forall i :: 0 <= i < |ps| && ps[i].isNumeric && ps[i].col < |t.cols| ==> CellExact(t.cols[ps[i].col], r)
  }

  /** The truth of a comparison of a non-NULL cell with the constant, as the evaluator sees it. */
  lemma CompareCell(c: Cmp, op: BinaryOp, v: Value, lit: Value, x: real, y: real)
    requires ToCmp(op) == Some(c) && IsNumeric(v) && IsNumeric(lit) && ToDouble(v) == Ok(x) && ToDouble(lit) == Ok(y)
    requires v.Int? ==> Small(v.i)
    requires lit.Int? ==> Small(lit.i)
    ensures CompareValues(v, lit).Ok? && CompareValues(v, lit).value != UNKNOWN
    ensures CompareHolds(op, CompareValues(v, lit).value) == CmpReal(c, x, y)
    ensures CompareValues(lit, v).Ok? && CompareValues(lit, v).value != UNKNOWN
    ensures CompareHolds(op, CompareValues(lit, v).value) == CmpReal(Flip(c), x, y)
  {
    if v.Int? { CastIsExact(v.i); }
    if lit.Int? { CastIsExact(lit.i); }
  }

  lemma CompareText(c: Cmp, op: BinaryOp, x: string, y: string)
    requires ToCmp(op) == Some(c)
    ensures CompareHolds(op, CompareValues(Str(x), Str(y)).value) == CmpStr(c, x, y)
    ensures CompareHolds(op, CompareValues(Str(y), Str(x)).value) == CmpStr(Flip(c), x, y)
  {
    StrLessTotal(x, y);
    StrLessTotal(x, x);
  }

  /** A truth value whose acceptance is `holds`. */
  predicate Decided(v: Result<Value>, holds: bool) {
    v.Ok? && (v.value.Null? || v.value.Bool?) && (v.value == Bool(true) <==> holds)
  }

  /** The three parts of an atom: its reference, its constant, and whether the constant comes first. */
  predicate AtomParts(e: Expr, ref: Expr, lit: Value, swapped: bool) {
    ref.ColumnRef? && e.Binary? && e == if swapped then Binary(e.op, Literal(lit), ref) else Binary(e.op, ref, Literal(lit))
  }

  lemma SplitAtom(e: Expr, t: TableData) returns (ref: Expr, lit: Value, swapped: bool)
    requires ParseAtom(e, t).Some?
    ensures AtomParts(e, ref, lit, swapped) && LiteralOf(e) == lit && ToCmp(e.op).Some?
    ensures var cmp := ToCmp(e.op).value; ParseAtom(e, t) == MakeAtom(ref, lit, if swapped then Flip(cmp) else cmp, t)
  {
    swapped := !(e.left.ColumnRef? && e.right.Literal?);
    ref, lit := if swapped then e.right else e.left, if swapped then e.left.value else e.right.value;
  }

  lemma EvaluateAtom(pow: Pow, e: Expr, ref: Expr, lit: Value, swapped: bool, schema: Schema, row: Row, v: Value)
    requires AtomParts(e, ref, lit, swapped) && ToCmp(e.op).Some? && Lookup(ref.table, ref.column, schema, row) == Ok(v)
    ensures Evaluate(pow, e, schema, row) == if swapped then ApplyBinary(pow, e.op, lit, v) else ApplyBinary(pow, e.op, v, lit)
  {
    assert Evaluate(pow, ref, schema, row) == Ok(v);
  }

  /** Cell against constant, whichever comes first. */
  lemma CellDecided(pow: Pow, op: BinaryOp, swapped: bool, t: TableData, a: PredAtom, r: nat, lit: Value)
    requires TableOk(t) && r < RowCount(t) && Readable(t, a) && ToCmp(op).Some?
    requires a.op == if swapped then Flip(ToCmp(op).value) else ToCmp(op).value
    requires if a.isNumeric then IsNumeric(lit) && ToDouble(lit) == Ok(a.numConst) else lit == Str(a.strConst)
    requires var ty := t.cols[a.col].ty;
             if a.isNumeric then ty.id != BOOLEAN && CellExact(t.cols[a.col], r) && (lit.Int? ==> Small(lit.i))
             else KindOf(ty.id) == String
    ensures var v := ValueAt(t.cols[a.col], r);
            Decided(if swapped then ApplyBinary(pow, op, lit, v) else ApplyBinary(pow, op, v, lit), AtomHolds(t, a, r))
  {
    var c, v, cmp := t.cols[a.col], ValueAt(t.cols[a.col], r), ToCmp(op).value;
    if c.valid[r] {
      if a.isNumeric {
        ExactCell(c, r);
        CompareCell(cmp, op, v, lit, RawDouble(c, r), a.numConst);
      } else {
        CompareText(cmp, op, c.str[r], a.strConst);
      }
    }
  }

  lemma AtomDecided(pow: Pow, e: Expr, t: TableData, r: nat)
    requires TableOk(t) && r < RowCount(t)
    requires ParseAtom(e, t).Some? && AtomTyped(e, t) && RowExact(t, [ParseAtom(e, t).value], r)
    ensures Readable(t, ParseAtom(e, t).value)
    ensures Decided(Evaluate(pow, e, t.schema, RowAt(t, r)), AtomHolds(t, ParseAtom(e, t).value, r))
  {
    var a, row := ParseAtom(e, t).value, RowAt(t, r);
    var ref, lit, swapped := SplitAtom(e, t);
    PlainLookup(t.schema, row, ref);
    EvaluateAtom(pow, e, ref, lit, swapped, t.schema, row, ValueAt(t.cols[a.col], r));
    assert [a][0] == a;
    CellDecided(pow, e.op, swapped, t, a, r, lit);
  }

  /** An atom over this reference with this constant, in either operand order. */
  predicate AtomOver(e: Expr, ref: Expr, lit: Value) {
    ref.ColumnRef? && e.Binary? && ToCmp(e.op).Some? && (AtomParts(e, ref, lit, false) || AtomParts(e, ref, lit, true))
  }

  /** Both paths decide the atom on row r alike, and the general one without error. */
  predicate AtomAgrees(pow: Pow, e: Expr, t: TableData, r: nat)
    requires TableOk(t) && r < RowCount(t)
  {
    var a := ParseAtom(e, t);
    a.Some? && Readable(t, a.value) && EvaluatePredicate(pow, e, t.schema, RowAt(t, r)) == Ok(AtomHolds(t, a.value, r))
  }

  lemma AtomShape(e: Expr, ref: Expr, lit: Value, t: TableData)
    requires AtomOver(e, ref, lit) && TableOk(t) && IndexOf(t.schema, ref.column) >= 0 && (lit.Str? || IsNumeric(lit))
    ensures ParseAtom(e, t).Some? && ParseAtom(e, t).value.col == IndexOf(t.schema, ref.column)
    ensures ParseAtom(e, t).value.isNumeric <==> !lit.Str?
    ensures RefOf(e) == ref && LiteralOf(e) == lit
  {
  }

  /** A non-NULL exact cell compares alike with all numbers on both paths unless it is a boolean. */
  lemma NumbersDecidedIff(pow: Pow, ref: Expr, t: TableData, r: nat)
    requires TableOk(t) && r < RowCount(t) && ref.ColumnRef? && IndexOf(t.schema, ref.column) >= 0 && RefResolves(t.schema, ref)
    requires var c := t.cols[IndexOf(t.schema, ref.column)]; c.valid[r] && CellExact(c, r) && KindOf(c.ty.id) != String
    ensures (forall e: Expr, lit: Value :: AtomOver(e, ref, lit) && IsNumeric(lit) && SmallNumber(lit) ==> AtomAgrees(pow, e, t, r))
            <==> TakesKind(t.cols[IndexOf(t.schema, ref.column)].ty, true)
  {
    var c := t.cols[IndexOf(t.schema, ref.column)];
    if TakesKind(c.ty, true) {
      forall e: Expr, lit: Value | AtomOver(e, ref, lit) && IsNumeric(lit) && SmallNumber(lit) ensures AtomAgrees(pow, e, t, r) {
        AtomShape(e, ref, lit, t);
        AtomDecided(pow, e, t, r);
      }
    } else {
      var e := Binary(EQ, ref, Literal(Int(W64, 1)));
      assert AtomOver(e, ref, Int(W64, 1)) && SmallNumber(Int(W64, 1));
      PlainLookup(t.schema, RowAt(t, r), ref);
      EvaluateAtom(pow, e, ref, Int(W64, 1), false, t.schema, RowAt(t, r), ValueAt(c, r));
      assert Evaluate(pow, e, t.schema, RowAt(t, r)).Err?;
    }
  }

  predicate SmallNumber(v: Value) {
    v.Int? ==> Small(v.i)
  }

  /** A non-NULL cell compares alike with all strings on both paths if and only if it is a string. */
  lemma StringsDecidedIff(pow: Pow, ref: Expr, t: TableData, r: nat)
    requires TableOk(t) && r < RowCount(t) && ref.ColumnRef? && IndexOf(t.schema, ref.column) >= 0 && RefResolves(t.schema, ref)
    requires t.cols[IndexOf(t.schema, ref.column)].valid[r]
    ensures (forall e: Expr, lit: Value :: AtomOver(e, ref, lit) && lit.Str? ==> AtomAgrees(pow, e, t, r))
            <==> TakesKind(t.cols[IndexOf(t.schema, ref.column)].ty, false)
  {
    var c := t.cols[IndexOf(t.schema, ref.column)];
    if TakesKind(c.ty, false) {
      forall e: Expr, lit: Value | AtomOver(e, ref, lit) && lit.Str? ensures AtomAgrees(pow, e, t, r) {
        AtomShape(e, ref, lit, t);
        AtomDecided(pow, e, t, r);
      }
    } else {
      var e := Binary(EQ, ref, Literal(Str("")));
      assert AtomOver(e, ref, Str(""));
      PlainLookup(t.schema, RowAt(t, r), ref);
      EvaluateAtom(pow, e, ref, Str(""), false, t.schema, RowAt(t, r), ValueAt(c, r));
      assert Evaluate(pow, e, t.schema, RowAt(t, r)).Err?;
      assert !AtomAgrees(pow, e, t, r);
    }
  }

  lemma AndDecided(pow: Pow, l: Expr, r: Expr, schema: Schema, row: Row, p: bool, q: bool)
    requires Decided(Evaluate(pow, l, schema, row), p) && Decided(Evaluate(pow, r, schema, row), q)
    ensures Decided(Evaluate(pow, Binary(AND, l, r), schema, row), p && q)
  {
  }

  lemma {:induction false} PredicateDecided(pow: Pow, e: Expr, t: TableData, r: nat)
    requires TableOk(t) && r < RowCount(t)
    requires ParsePredicate(e, t).Some? && AtomsTyped(e, t) && RowExact(t, ParsePredicate(e, t).value, r)
    ensures AllReadable(t, ParsePredicate(e, t).value)
    ensures Decided(Evaluate(pow, e, t.schema, RowAt(t, r)), AllHold(t, ParsePredicate(e, t).value, r))
  {
    if e.Binary? && e.op == AND {
      var l, rt := ParsePredicate(e.left, t).value, ParsePredicate(e.right, t).value;
      ExactParts(t, l, rt, r);
      PredicateDecided(pow, e.left, t, r);
      PredicateDecided(pow, e.right, t, r);
      HoldConcat(t, l, rt, r);
      AndDecided(pow, e.left, e.right, t.schema, RowAt(t, r), AllHold(t, l, r), AllHold(t, rt, r));
    } else {
      AtomDecided(pow, e, t, r);
      assert [ParseAtom(e, t).value][0] == ParseAtom(e, t).value;
    }
  }

  lemma ExactParts(t: TableData, a: seq<PredAtom>, b: seq<PredAtom>, r: nat)
    requires TableOk(t) && r < RowCount(t) && RowExact(t, a + b, r)
    ensures RowExact(t, a, r) && RowExact(t, b, r)
  {
    assert forall i :: 0 <= i < |a| ==> a[i] == (a + b)[i];
    assert forall i :: 0 <= i < |b| ==> b[i] == (a + b)[|a| + i];
  }

  lemma HoldConcat(t: TableData, a: seq<PredAtom>, b: seq<PredAtom>, r: nat)
    requires TableOk(t) && AllReadable(t, a) && AllReadable(t, b) && r < RowCount(t)
    ensures AllReadable(t, a + b)
    ensures AllHold(t, a + b, r) <==> AllHold(t, a, r) && AllHold(t, b, r)
  {
    if AllHold(t, a + b, r) {
      forall i | 0 <= i < |a| ensures AtomHolds(t, a[i], r) { assert a[i] == (a + b)[i]; }
      forall i | 0 <= i < |b| ensures AtomHolds(t, b[i], r) { assert b[i] == (a + b)[|a| + i]; }
    }
  }

  /**
   The flattened conjunction passes a row exactly when the evaluator finds the WHERE clause true on it, and the
   evaluator raises no error: for well-typed atoms, stored integers that fit their subtype, and integers within 2^53.
   */
  lemma RowPassesIffTrue(pow: Pow, e: Expr, t: TableData, r: nat)
    requires TableOk(t) && r < RowCount(t)
    requires ParsePredicate(e, t).Some? && AtomsTyped(e, t) && RowExact(t, ParsePredicate(e, t).value, r)
    ensures AllReadable(t, ParsePredicate(e, t).value)
    ensures EvaluatePredicate(pow, e, t.schema, RowAt(t, r)) == Ok(AllHold(t, ParsePredicate(e, t).value, r))
  {
    PredicateDecided(pow, e, t, r);
  }

  // ---- Where the two disagree ----

  function OneCell(ty: TypeId, i: int): TableData {
    TableData("t", [ColumnDef("c", SimpleType(ty))], [ColumnData(SimpleType(ty), [true], [i], [], [])])
  }

  function ColumnIs(lit: int): Expr {
    Binary(EQ, Column("c"), Literal(Int(W64, lit)))
  }

  lemma OneCellQuery(pow: Pow, ty: TypeId, i: int, lit: int)
    requires KindOf(ty) == Int64 && ty != BOOLEAN
    ensures TableOk(OneCell(ty, i)) && ParsePredicate(ColumnIs(lit), OneCell(ty, i)) == Some([PredAtom(0, IsEq, true, IntToDouble(lit), "")])
    ensures EvaluatePredicate(pow, ColumnIs(lit), OneCell(ty, i).schema, RowAt(OneCell(ty, i), 0))
         == Ok(ToInt64(MakeIntValue(SimpleType(ty), i)) == Ok(lit))
    ensures AllHold(OneCell(ty, i), [PredAtom(0, IsEq, true, IntToDouble(lit), "")], 0) <==> IntToDouble(i) == IntToDouble(lit)
  {
    var t, e := OneCell(ty, i), ColumnIs(lit);
    assert Lower("c") == "c";
    assert IndexOf(t.schema, "c") == 0;
    var v := ValueAt(t.cols[0], 0);
    assert Evaluate(pow, e.left, t.schema, RowAt(t, 0)) == Ok(v);
    assert Evaluate(pow, e, t.schema, RowAt(t, 0)) == ApplyBinary(pow, EQ, v, Int(W64, lit));
    var ps := [PredAtom(0, IsEq, true, IntToDouble(lit), "")];
    assert AllHold(t, ps, 0) <==> AtomHolds(t, ps[0], 0);
  }

  /**
   A stored integer is selected alike by `WHERE c = k` on both paths for every small constant k exactly when it
   fits the column's declared subtype.
   */
  lemma EqualityAgreesIffFits(pow: Pow, ty: TypeId, i: int)
    requires KindOf(ty) == Int64 && ty != BOOLEAN && Small(i)
    ensures (forall k: int | Small(k) :: EqualityAgrees(pow, ty, i, k)) <==> FitsType(SimpleType(ty), i)
  {
    ShownIffFits(SimpleType(ty), i);
    OneCellQuery(pow, ty, i, i);
    forall k: int | Small(k) ensures FitsType(SimpleType(ty), i) ==> EqualityAgrees(pow, ty, i, k) {
      OneCellQuery(pow, ty, i, k);
      CastIsExact(i);
      CastIsExact(k);
    }
    if !FitsType(SimpleType(ty), i) {
      assert !EqualityAgrees(pow, ty, i, i);
    }
  }

  predicate EqualityAgrees(pow: Pow, ty: TypeId, i: int, k: int)
    requires KindOf(ty) == Int64 && ty != BOOLEAN
  {
    OneCellQuery(pow, ty, i, k);
    EvaluatePredicate(pow, ColumnIs(k), OneCell(ty, i).schema, RowAt(OneCell(ty, i), 0))
    == Ok(AllHold(OneCell(ty, i), ParsePredicate(ColumnIs(k), OneCell(ty, i)).value, 0))
  }

  /** Past 2^53 the fast path takes neighbouring integers for equal. */
  lemma LargeIntegersCollide(pow: Pow)
    ensures !EqualityAgrees(pow, INT64, EXACT_LIMIT + 1, EXACT_LIMIT)
  {
    OneCellQuery(pow, INT64, EXACT_LIMIT + 1, EXACT_LIMIT);
    FirstInexact();
  }
}
