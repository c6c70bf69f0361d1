/**
 Aggregate rewriting: collecting the aggregate calls of a query into slots, and replacing each call by a
 reference to its slot's output column.
 */
module Rewrite {
  import opened Results
  import opened Types
  import opened Ast
  import opened Eval
  import opened RowKeys
  import opened Aggregation
  import opened Plans

  // ---- Collection ----

  /** The aggregate calls of an expression, in traversal order; not those inside another aggregate. */
  function CollectAggs(e: Expr): seq<Expr>
    decreases e, 1
  {
    match e
    case Literal(_) => []
    case ColumnRef(_, _, _) => []
    case FunctionCall(name, args, _, _) => if IsAggregateName(name) then [e] else CollectAll(args)
    case Binary(_, l, r) => CollectAggs(l) + CollectAggs(r)
    case Unary(_, x) => CollectAggs(x)
    case IsNull(x, _) => CollectAggs(x)
    case Between(x, lo, hi, _) => CollectAggs(x) + CollectAggs(lo) + CollectAggs(hi)
    case In(x, values, _) => CollectAggs(x) + CollectAll(values)
    case Case(subject, whens, els) =>
      (if subject.Some? then CollectAggs(subject.value) else [])
      + CollectWhens(whens)
      + (if els.Some? then CollectAggs(els.value) else [])
  }

  function CollectAll(es: seq<Expr>): seq<Expr>
    decreases es, 0
  {
    if es == [] then [] else CollectAggs(es[0]) + CollectAll(es[1..])
  }

  function CollectWhens(ws: seq<CaseWhen>): seq<Expr>
    decreases ws, 0
  {
    if ws == [] then [] else CollectWhen(ws[0]) + CollectWhens(ws[1..])
  }

  function CollectWhen(w: CaseWhen): seq<Expr>
    decreases w, 0
  {
    CollectAggs(w.condition) + CollectAggs(w.result)
  }

  /** The column references of an expression outside its aggregate calls. */
  function CollectRefs(e: Expr): seq<Expr>
    decreases e, 1
  {
    match e
    case Literal(_) => []
    case ColumnRef(_, _, _) => [e]
    case FunctionCall(name, args, _, _) => if IsAggregateName(name) then [] else RefsOfAll(args)
    case Binary(_, l, r) => CollectRefs(l) + CollectRefs(r)
    case Unary(_, x) => CollectRefs(x)
    case IsNull(x, _) => CollectRefs(x)
    case Between(x, lo, hi, _) => CollectRefs(x) + CollectRefs(lo) + CollectRefs(hi)
    case In(x, values, _) => CollectRefs(x) + RefsOfAll(values)
    case Case(subject, whens, els) =>
      (if subject.Some? then CollectRefs(subject.value) else [])
      + RefsOfWhens(whens)
      + (if els.Some? then CollectRefs(els.value) else [])
  }

  function RefsOfAll(es: seq<Expr>): seq<Expr>
    decreases es, 0
  {
    if es == [] then [] else CollectRefs(es[0]) + RefsOfAll(es[1..])
  }

  function RefsOfWhens(ws: seq<CaseWhen>): seq<Expr>
    decreases ws, 0
  {
    if ws == [] then [] else RefsOfWhen(ws[0]) + RefsOfWhens(ws[1..])
  }

  function RefsOfWhen(w: CaseWhen): seq<Expr>
    decreases w, 0
  {
    CollectRefs(w.condition) + CollectRefs(w.result)
  }

  // ---- Slots ----

  /** The display form of a column reference: its parts joined by dots. */
  function RefToString(e: Expr): string
    requires e.ColumnRef?
  {
    (if e.schema.Some? then e.schema.value + "." else "")
    + ((if e.table.Some? then e.table.value + "." else "") + e.column)
  }

  /** Two distinct calls that compute the same aggregate. */
  predicate SameAggregate(a: Expr, b: Expr)
    requires a.FunctionCall? && b.FunctionCall?
  {
    && a.name == b.name && a.star == b.star && a.distinct == b.distinct
    && (a.star || (|a.args| == 1 && |b.args| == 1 && a.args[0].ColumnRef? && b.args[0].ColumnRef? && RefToString(a.args[0]) == RefToString(b.args[0])))
  }

  /** The same node, or the same aggregate. A node is identified by its value. */
  predicate ServedBy(f: Expr, slot: Expr) {
    f == slot || (f.FunctionCall? && slot.FunctionCall? && SameAggregate(slot, f))
  }

  /** The first slot that serves f, or the number of slots. */
  function FindSlot(slots: seq<Expr>, f: Expr): (i: nat)
    ensures i <= |slots|
    ensures i < |slots| ==> ServedBy(f, slots[i])
    ensures i == |slots| ==> forall j :: 0 <= j < |slots| ==> !ServedBy(f, slots[j])
  {
    if slots == [] then 0
    else if ServedBy(f, slots[0]) then 0
    else
      assert forall j :: 0 < j < |slots| ==> slots[j] == slots[1..][j - 1];
      1 + FindSlot(slots[1..], f)
  }

  function AddSlots(slots: seq<Expr>, calls: seq<Expr>): seq<Expr>
    decreases |calls|
  {
    if calls == [] then slots
    else AddSlots(if FindSlot(slots, calls[0]) < |slots| then slots else slots + [calls[0]], calls[1..])
  }

  function SlotName(i: nat): string {
    "__agg" + NatToString(i)
  }

  function AggOf(f: Expr, i: nat): Agg
    requires f.FunctionCall?
  {
    Agg(f.name, if !f.star && f.args != [] then Some(f.args[0]) else None, f.star, f.distinct, SlotName(i),
        if f.name == "COUNT" then SimpleType(INT64) else NullableDouble())
  }

  predicate AllCalls(slots: seq<Expr>) {
    forall f :: f in slots ==> f.FunctionCall?
  }

  function SlotAggs(slots: seq<Expr>): seq<Agg>
    requires AllCalls(slots)
  {
    seq(|slots|, i requires 0 <= i < |slots| => AggOf(slots[i], i))
  }

  // ---- Substitution ----

  /** A copy of the expression in which m replaces each aggregate call. */
  function Subst(e: Expr, m: Expr -> Expr): Expr
    decreases e, 1
  {
    match e
    case Literal(_) => e
    case ColumnRef(_, _, _) => e
    case FunctionCall(name, args, d, s) => if IsAggregateName(name) then m(e) else FunctionCall(name, SubstAll(args, m), d, s)
    case Binary(op, l, r) => Binary(op, Subst(l, m), Subst(r, m))
    case Unary(op, x) => Unary(op, Subst(x, m))
    case IsNull(x, n) => IsNull(Subst(x, m), n)
    case Between(x, lo, hi, n) => Between(Subst(x, m), Subst(lo, m), Subst(hi, m), n)
    case In(x, values, n) => In(Subst(x, m), SubstAll(values, m), n)
    case Case(subject, whens, els) =>
      Case(if subject.Some? then Some(Subst(subject.value, m)) else None, SubstWhens(whens, m),
           if els.Some? then Some(Subst(els.value, m)) else None)
  }

  function SubstAll(es: seq<Expr>, m: Expr -> Expr): (r: seq<Expr>)
    ensures |r| == |es|
    decreases es, 0
  {
    if es == [] then [] else [Subst(es[0], m)] + SubstAll(es[1..], m)
  }

  function SubstWhens(ws: seq<CaseWhen>, m: Expr -> Expr): (r: seq<CaseWhen>)
    ensures |r| == |ws|
    decreases ws, 0
  {
    if ws == [] then [] else [SubstWhen(ws[0], m)] + SubstWhens(ws[1..], m)
  }

  function SubstWhen(w: CaseWhen, m: Expr -> Expr): CaseWhen
    decreases w, 0
  {
    CaseWhen(Subst(w.condition, m), Subst(w.result, m))
  }

  /** cloneSubstAggs: each aggregate call becomes a reference to its slot's output column. */
  function CloneSubstAggs(e: Expr, slots: seq<Expr>): Expr {
    Subst(e, f => Column(SlotName(FindSlot(slots, f))))
  }

  // ---- Rewriting never needs a slot that collection did not create ----

  predicate Covered(e: Expr, slots: seq<Expr>) {
    forall f :: f in CollectAggs(e) ==> FindSlot(slots, f) < |slots|
  }

  lemma {:induction false} SlotsOnlyGrow(slots: seq<Expr>, calls: seq<Expr>)
    ensures slots <= AddSlots(slots, calls)
    decreases |calls|
  {
    if calls != [] {
      SlotsOnlyGrow(if FindSlot(slots, calls[0]) < |slots| then slots else slots + [calls[0]], calls[1..]);
    }
  }

  lemma FindInLonger(slots: seq<Expr>, longer: seq<Expr>, f: Expr)
    requires slots <= longer && FindSlot(slots, f) < |slots|
    ensures FindSlot(longer, f) == FindSlot(slots, f)
    decreases |slots|
  {
    if !ServedBy(f, slots[0]) {
      FindInLonger(slots[1..], longer[1..], f);
    }
  }

  lemma {:induction false} AddedSlotsServe(slots: seq<Expr>, calls: seq<Expr>)
    ensures forall f :: f in calls ==> FindSlot(AddSlots(slots, calls), f) < |AddSlots(slots, calls)|
    decreases |calls|
  {
    if calls != [] {
      var next := if FindSlot(slots, calls[0]) < |slots| then slots else slots + [calls[0]];
      AddedSlotsServe(next, calls[1..]);
      SlotsOnlyGrow(next, calls[1..]);
      assert ServedBy(calls[0], calls[0]);
      assert FindSlot(next, calls[0]) < |next| by {
        if FindSlot(slots, calls[0]) == |slots| {
          assert next[|slots|] == calls[0];
        }
      }
      FindInLonger(next, AddSlots(slots, calls), calls[0]);
    }
  }

  /** Slots collected from a list of expressions cover each of them. */
  function CollectInto(slots: seq<Expr>, es: seq<Expr>): seq<Expr>
    decreases |es|
  {
    if es == [] then slots else CollectInto(AddSlots(slots, CollectAggs(es[0])), es[1..])
  }

  lemma {:induction false} CollectedOnlyGrow(slots: seq<Expr>, es: seq<Expr>)
    ensures slots <= CollectInto(slots, es)
    decreases |es|
  {
    if es != [] {
      SlotsOnlyGrow(slots, CollectAggs(es[0]));
      CollectedOnlyGrow(AddSlots(slots, CollectAggs(es[0])), es[1..]);
    }
  }

  lemma {:induction false} CollectionCovers(slots: seq<Expr>, es: seq<Expr>)
    ensures forall e :: e in es ==> Covered(e, CollectInto(slots, es))
    decreases |es|
  {
    if es != [] {
      var next := AddSlots(slots, CollectAggs(es[0]));
      CollectionCovers(next, es[1..]);
      AddedSlotsServe(slots, CollectAggs(es[0]));
      CollectedOnlyGrow(next, es[1..]);
      forall f | f in CollectAggs(es[0]) ensures FindSlot(CollectInto(slots, es), f) < |CollectInto(slots, es)| {
        FindInLonger(next, CollectInto(slots, es), f);
      }
    }
  }

  lemma {:induction false} CollectedAreAggregates(e: Expr)
    ensures forall f :: f in CollectAggs(e) ==> IsAggregate(f)
    decreases e, 1
  {
    match e
    case Literal(_) =>
    case ColumnRef(_, _, _) =>
    case FunctionCall(_, args, _, _) => AllCollectedAreAggregates(args);
    case Binary(_, l, r) => CollectedAreAggregates(l); CollectedAreAggregates(r);
    case Unary(_, x) => CollectedAreAggregates(x);
    case IsNull(x, _) => CollectedAreAggregates(x);
    case Between(x, lo, hi, _) => CollectedAreAggregates(x); CollectedAreAggregates(lo); CollectedAreAggregates(hi);
    case In(x, values, _) => CollectedAreAggregates(x); AllCollectedAreAggregates(values);
    case Case(subject, whens, els) =>
      if subject.Some? { CollectedAreAggregates(subject.value); }
      if els.Some? { CollectedAreAggregates(els.value); }
      WhensCollectedAreAggregates(whens);
  }

  lemma {:induction false} AllCollectedAreAggregates(es: seq<Expr>)
    ensures forall f :: f in CollectAll(es) ==> IsAggregate(f)
    decreases es, 0
  {
    if es != [] {
      CollectedAreAggregates(es[0]);
      AllCollectedAreAggregates(es[1..]);
    }
  }

  lemma {:induction false} WhensCollectedAreAggregates(ws: seq<CaseWhen>)
    ensures forall f :: f in CollectWhens(ws) ==> IsAggregate(f)
    decreases ws, 0
  {
    if ws != [] {
      WhenCollectedAreAggregates(ws[0]);
      WhensCollectedAreAggregates(ws[1..]);
    }
  }

  lemma {:induction false} WhenCollectedAreAggregates(w: CaseWhen)
    ensures forall f :: f in CollectWhen(w) ==> IsAggregate(f)
    decreases w, 0
  {
    CollectedAreAggregates(w.condition);
    CollectedAreAggregates(w.result);
  }

  lemma {:induction false} SlotsAreAggregates(slots: seq<Expr>, es: seq<Expr>)
    requires forall f :: f in slots ==> IsAggregate(f)
    ensures forall f :: f in CollectInto(slots, es) ==> IsAggregate(f)
    decreases |es|
  {
    if es != [] {
      CollectedAreAggregates(es[0]);
      AddedAreAggregates(slots, CollectAggs(es[0]));
      SlotsAreAggregates(AddSlots(slots, CollectAggs(es[0])), es[1..]);
    }
  }

  lemma {:induction false} AddedAreAggregates(slots: seq<Expr>, calls: seq<Expr>)
    requires forall f :: f in slots || f in calls ==> IsAggregate(f)
    ensures forall f :: f in AddSlots(slots, calls) ==> IsAggregate(f)
    decreases |calls|
  {
    if calls != [] {
      AddedAreAggregates(if FindSlot(slots, calls[0]) < |slots| then slots else slots + [calls[0]], calls[1..]);
    }
  }

  // ---- Two substitutions that evaluate alike at the leaves evaluate alike ----

  /** A schema/row pair and a replacement for the aggregate calls. */
  datatype World = World(schema: Schema, row: Row, m: Expr -> Expr)

  function In_(pow: Pow, w: World, e: Expr): Result<Value> {
    Evaluate(pow, Subst(e, w.m), w.schema, w.row)
  }

  ghost predicate SameLeaves(pow: Pow, aggs: seq<Expr>, refs: seq<Expr>, w1: World, w2: World) {
    && (forall f :: f in aggs ==> Evaluate(pow, w1.m(f), w1.schema, w1.row) == Evaluate(pow, w2.m(f), w2.schema, w2.row))
    && (forall c :: c in refs ==> Evaluate(pow, c, w1.schema, w1.row) == Evaluate(pow, c, w2.schema, w2.row))
  }

  lemma {:induction false} SubstEvaluatesAlike(pow: Pow, e: Expr, w1: World, w2: World)
    requires SameLeaves(pow, CollectAggs(e), CollectRefs(e), w1, w2)
    ensures In_(pow, w1, e) == In_(pow, w2, e)
    decreases e, 1
  {
    match e
    case Literal(_) =>
    case ColumnRef(_, _, _) =>
    case Unary(_, x) => SubstEvaluatesAlike(pow, x, w1, w2);
    case IsNull(x, _) => SubstEvaluatesAlike(pow, x, w1, w2);
    case Binary(_, l, r) =>
      SubstEvaluatesAlike(pow, l, w1, w2);
      SubstEvaluatesAlike(pow, r, w1, w2);
    case Between(x, lo, hi, _) =>
      SubstEvaluatesAlike(pow, x, w1, w2);
      SubstEvaluatesAlike(pow, lo, w1, w2);
      SubstEvaluatesAlike(pow, hi, w1, w2);
    case In(x, values, negated) =>
      SubstEvaluatesAlike(pow, x, w1, w2);
      if In_(pow, w1, x).Ok? {
        InAlike(pow, In_(pow, w1, x).value, values, negated, false, w1, w2);
      }
    case FunctionCall(name, args, _, _) =>
      if !IsAggregateName(name) {
        FunctionAlike(pow, name, args, w1, w2);
      }
    case Case(_, _, _) => CaseAlike(pow, e, w1, w2);
  }

  lemma {:induction false} CaseAlike(pow: Pow, e: Expr, w1: World, w2: World)
    requires e.Case? && SameLeaves(pow, CollectAggs(e), CollectRefs(e), w1, w2)
    ensures In_(pow, w1, e) == In_(pow, w2, e)
    decreases e, 0
  {
    if e.subject.Some? { SubstEvaluatesAlike(pow, e.subject.value, w1, w2); }
    if e.els.Some? { SubstEvaluatesAlike(pow, e.els.value, w1, w2); }
    var s := if e.subject.Some? && In_(pow, w1, e.subject.value).Ok? then Some(In_(pow, w1, e.subject.value).value) else None;
    WhensAlike(pow, s, e.whens, w1, w2);
    CaseMeaning(pow, e, w1);
    CaseMeaning(pow, e, w2);
  }

  /** What evaluating a rewritten CASE comes down to. */
  lemma CaseMeaning(pow: Pow, e: Expr, w: World)
    requires e.Case?
    ensures In_(pow, w, e) ==
            if e.subject.Some? && In_(pow, w, e.subject.value).Err? then Err
            else
              var s := if e.subject.Some? then Some(In_(pow, w, e.subject.value).value) else None;
              match EvaluateWhens(pow, s, SubstWhens(e.whens, w.m), w.schema, w.row)
              case Err => Err
              case Ok(Some(v)) => Ok(v)
              case Ok(None) => if e.els.Some? then In_(pow, w, e.els.value) else Ok(Null)
  {
    var c := Subst(e, w.m);
    if e.subject.Some? {
      assert EvaluateSome(pow, c.subject.value, w.schema, w.row)
          == match In_(pow, w, e.subject.value) case Err => Err case Ok(v) => Ok(Some(v));
    }
  }

  lemma {:induction false} InAlike(pow: Pow, v: Value, values: seq<Expr>, negated: bool, sawNull: bool, w1: World, w2: World)
    requires SameLeaves(pow, CollectAll(values), RefsOfAll(values), w1, w2)
    ensures EvaluateIn(pow, v, SubstAll(values, w1.m), negated, sawNull, w1.schema, w1.row)
         == EvaluateIn(pow, v, SubstAll(values, w2.m), negated, sawNull, w2.schema, w2.row)
    decreases values, 0
  {
    if values != [] {
      SubstEvaluatesAlike(pow, values[0], w1, w2);
      InAlike(pow, v, values[1..], negated, true, w1, w2);
      InAlike(pow, v, values[1..], negated, sawNull, w1, w2);
      assert forall m: Expr -> Expr :: SubstAll(values, m)[1..] == SubstAll(values[1..], m);
    }
  }

  lemma {:induction false} WhensAlike(pow: Pow, s: Option<Value>, whens: seq<CaseWhen>, w1: World, w2: World)
    requires SameLeaves(pow, CollectWhens(whens), RefsOfWhens(whens), w1, w2)
    ensures EvaluateWhens(pow, s, SubstWhens(whens, w1.m), w1.schema, w1.row)
         == EvaluateWhens(pow, s, SubstWhens(whens, w2.m), w2.schema, w2.row)
    decreases whens, 0
  {
    if whens != [] {
      WhenAlike(pow, s, whens[0], w1, w2);
      WhensAlike(pow, s, whens[1..], w1, w2);
      assert forall m: Expr -> Expr :: SubstWhens(whens, m)[1..] == SubstWhens(whens[1..], m);
    }
  }

  lemma {:induction false} WhenAlike(pow: Pow, s: Option<Value>, w: CaseWhen, w1: World, w2: World)
    requires SameLeaves(pow, CollectWhen(w), RefsOfWhen(w), w1, w2)
    ensures EvaluateWhen(pow, s, SubstWhen(w, w1.m), w1.schema, w1.row)
         == EvaluateWhen(pow, s, SubstWhen(w, w2.m), w2.schema, w2.row)
    decreases w, 0
  {
    SubstEvaluatesAlike(pow, w.condition, w1, w2);
    SubstEvaluatesAlike(pow, w.result, w1, w2);
  }

  lemma {:induction false} CoalesceAlike(pow: Pow, args: seq<Expr>, w1: World, w2: World)
    requires SameLeaves(pow, CollectAll(args), RefsOfAll(args), w1, w2)
    ensures EvaluateCoalesce(pow, SubstAll(args, w1.m), w1.schema, w1.row)
         == EvaluateCoalesce(pow, SubstAll(args, w2.m), w2.schema, w2.row)
    decreases args, 0
  {
    if args != [] {
      SubstEvaluatesAlike(pow, args[0], w1, w2);
      CoalesceAlike(pow, args[1..], w1, w2);
      assert forall m: Expr -> Expr :: SubstAll(args, m)[1..] == SubstAll(args[1..], m);
    }
  }

  lemma {:induction false} FunctionAlike(pow: Pow, name: string, args: seq<Expr>, w1: World, w2: World)
    requires SameLeaves(pow, CollectAll(args), RefsOfAll(args), w1, w2)
    ensures EvaluateFunction(pow, name, SubstAll(args, w1.m), w1.schema, w1.row)
         == EvaluateFunction(pow, name, SubstAll(args, w2.m), w2.schema, w2.row)
    decreases args, 3
  {
    CoalesceAlike(pow, args, w1, w2);
    if |args| >= 1 {
      SubstEvaluatesAlike(pow, args[0], w1, w2);
      assert forall m: Expr -> Expr :: SubstAll(args, m)[0] == Subst(args[0], m);
    }
    if |args| >= 2 {
      assert args[1..][0] == args[1];
      assert CollectAll(args[1..]) == CollectAggs(args[1]) + CollectAll(args[1..][1..]);
      assert RefsOfAll(args[1..]) == CollectRefs(args[1]) + RefsOfAll(args[1..][1..]);
      SubstEvaluatesAlike(pow, args[1], w1, w2);
      assert forall m: Expr -> Expr :: SubstAll(args, m)[1] == SubstAll(args[1..], m)[0] == Subst(args[1], m);
    }
  }
}
