/**
 The pull-model executor. One class stands for the source's operator classes: the plan node says which one an
 object is, and the fields are those the operators advance. `Next` returns a batch; an empty one ends the stream.
 */
module Operators {
  import opened Results
  import opened Seqs
  import opened Types
  import opened Ast
  import opened Eval
  import opened Tables
  import opened Ordering
  import opened RowOrder
  import opened RowKeys
  import opened Aggregation
  import opened Joins
  import opened Plans

  /** No LIMIT anywhere: the plan reads all its input, and meets every error in it. */
  predicate ReadsAll(p: Plan) {
    match p
    case SeqScan(_, _) => true
    case Values(_, _) => true
    case Filter(c, _) => ReadsAll(c)
    case Project(c, _) => ReadsAll(c)
    case Limit(_, _, _) => false
    case Sort(c, _) => ReadsAll(c)
    case Distinct(c) => ReadsAll(c)
    case HashAggregate(c, _, _, _) => ReadsAll(c)
    case HashJoin(l, r, _, _, _) => ReadsAll(l) && ReadsAll(r)
    case Append(l, r) => ReadsAll(l) && ReadsAll(r)
  }

  /** An error that is still to come is not lost, except behind a LIMIT. */
  ghost predicate SameError(p: Plan, before: Stream, after: Stream) {
    (after.mayFail ==> before.mayFail) && (ReadsAll(p) ==> after.mayFail == before.mayFail)
  }

  /** The stream is over, with no error left in it. */
  ghost predicate Over(p: Plan, s: Stream) {
    s.rows == [] && (ReadsAll(p) ==> !s.mayFail)
  }

  /** One call of Next on the operator of plan p, seen on the streams before and after. */
  ghost predicate Pulled(p: Plan, before: Stream, r: Result<seq<Row>>, after: Stream) {
    match r
    case Ok(batch) => before.rows == batch + after.rows && SameError(p, before, after) && (batch == [] ==> Over(p, before))
    case Err => before.mayFail
  }

  /** Nothing came out, and no error was passed. */
  ghost predicate SameStream(p: Plan, before: Stream, after: Stream) {
    after.rows == before.rows && SameError(p, before, after)
  }

  function Min(a: nat, b: nat): nat {
    if a < b then a else b
  }

  class Operator {
    const pow: Pow
    const batchSize: nat
    const plan: Plan
    const left: Operator?
    const right: Operator?
    ghost const Repr: set<Operator>

    var cursor: nat
    var built: bool
    var rows: seq<Row>
    var table: HashTable
    var order: seq<string>
    var emitted: int
    var skipped: int
    var leftDone: bool

    /** The stream that is still to come. */
    ghost var remaining: Stream

    /** `child` is an operator of plan p below this one. */
    ghost predicate Linked(child: Operator?, p: Plan)
    {
      && child != null && child in Repr && child.Repr <= Repr && this !in child.Repr
      && child.plan == p && child.pow == pow
    }

    /** The children the plan asks for, sharing nothing. */
    ghost predicate Tree()
    {
      && this in Repr && batchSize >= 1 && PlanOk(plan)
      && (HasChild(plan) ==> Linked(left, plan.child))
      && (HasTwo(plan) ==> Linked(left, plan.left) && Linked(right, plan.right) && left.Repr !! right.Repr)
    }

    ghost predicate Valid()
      reads Repr
      decreases plan
    {
      && Tree()
      && (HasChild(plan) ==> left.Valid())
      && (HasTwo(plan) ==> left.Valid() && right.Valid())
      && forall s: Stream {:trigger Look(s)} :: Look(s) ==> (s == remaining ==> Says(s))
    }

    /** The fields and the children's streams say that `s` is still to come. */
    ghost predicate Says(s: Stream)
      reads Repr
      requires Tree()
    {
      if Materialized() then cursor <= |Output()| && s == Stream(Output()[cursor..], false)
      else if plan.HashJoin? then s == JoinStream(pow, plan, left.remaining, right.remaining)
      else if IsBlocking(plan) then s == BlockingStream(pow, plan, left.remaining)
      else if plan.Append? then s == if leftDone then right.remaining else AppendStream(left.remaining, right.remaining)
      else if plan.Limit? then s == Stream(LimitRest(plan.limit, plan.offset, emitted, skipped, left.remaining.rows), left.remaining.mayFail)
      else s == StepStream(pow, StepOf(plan), PlanSchema(plan.child), left.remaining)
    }

    /** The whole output, once it is materialized. */
    function Output(): seq<Row>
      reads this
    {
      match plan
      case SeqScan(t, _) => if TableOk(t) then TableRows(t) else []
      case Values(_, vs) => vs
      case HashAggregate(_, _, _, aggs) => EmitAll(aggs, table, order)
      case _ => rows
    }

    /** The operator emits from a finished output. */
    predicate Materialized()
      reads this
    {
      IsSource(plan) || (built && (IsBlocking(plan) || plan.HashJoin?))
    }

    constructor (lib: Pow, size: nat, p: Plan, l: Operator?, r: Operator?)
      requires size >= 1 && PlanOk(p)
      requires HasChild(p) ==> l != null && l.Valid() && l.plan == p.child && l.pow == lib
      requires HasTwo(p) ==> l != null && r != null && l.Valid() && r.Valid() && l.Repr !! r.Repr
      requires HasTwo(p) ==> l.plan == p.left && r.plan == p.right && l.pow == r.pow == lib
      ensures plan == p && pow == lib && left == l && right == r
      ensures Repr == {this} + (if l == null then {} else l.Repr) + (if r == null then {} else r.Repr)
      ensures Valid() && cursor == 0 && !built && emitted == 0 && skipped == 0 && !leftDone
      ensures remaining == Fresh(lib, p, if l == null then Stream([], false) else l.remaining, if r == null then Stream([], false) else r.remaining)
    {
      pow, batchSize, plan, left, right := lib, size, p, l, r;
      Repr := {this} + (if l == null then {} else l.Repr) + (if r == null then {} else r.Repr);
      cursor, built, rows, table, order := 0, false, [], map[], [];
      emitted, skipped, leftDone := 0, 0, false;
      remaining := Fresh(lib, p, if l == null then Stream([], false) else l.remaining, if r == null then Stream([], false) else r.remaining);
    }

    // ---- next() ----

    method Next() returns (r: Result<seq<Row>>)
      requires Valid()
      modifies Repr
      ensures Valid()
      ensures Pulled(plan, old(remaining), r, remaining)
      decreases plan, 4
    {
      if IsRowwise(plan) {
        r := NextRowwise();
      } else if plan.Limit? {
        r := NextLimit();
      } else if plan.Append? {
        r := NextAppend();
      } else {
        if !IsSource(plan) && !built {
          var ok := Build();
          if !ok {
            return Err;
          }
        }
        r := Emit();
      }
    }

    /** The next rows of a finished output, at most a batch of them. */
    method Emit() returns (r: Result<seq<Row>>)
      requires Valid() && Materialized()
      modifies this
      ensures Valid()
      ensures r.Ok? && Pulled(plan, old(remaining), r, remaining)
    {
      assert Look(remaining);
      ghost var all, start := Output(), cursor;
      var end := Min(cursor + batchSize, |Output()|);
      var out := CopyRows(Output(), cursor, end);
      cursor := end;
      assert Output() == all;
      assert all[start..] == all[start..end] + all[end..];
      remaining := Stream(all[end..], false);
      r := Ok(out);
    }

    /** Filter and Project: pull child batches until a row comes out, or the child ends. */
    method NextRowwise() returns (r: Result<seq<Row>>)
      requires Valid() && IsRowwise(plan)
      modifies Repr
      ensures Valid()
      ensures Pulled(plan, old(remaining), r, remaining)
      decreases plan, 2
    {
      while true
        invariant Valid() && SameStream(plan, old(remaining), remaining)
        decreases |left.remaining.rows|
      {
        var done;
        done, r := RowwiseBatch();
        if done {
          return;
        }
      }
    }

    /** One child batch through Filter or Project; not done if nothing of it comes out. */
    method RowwiseBatch() returns (done: bool, r: Result<seq<Row>>)
      requires Valid() && IsRowwise(plan)
      modifies Repr
      ensures Valid()
      ensures done ==> Pulled(plan, old(remaining), r, remaining)
      ensures !done ==> SameStream(plan, old(remaining), remaining) && |left.remaining.rows| < |old(left.remaining.rows)|
      decreases plan, 1
    {
      assert Look(remaining);
      var step, schema := StepOf(plan), PlanSchema(plan.child);
      ghost var s := left.remaining;
      var batch := left.Next();
      StepPulled(pow, step, schema, plan.child, s, batch, left.remaining);
      remaining := StepStream(pow, step, schema, left.remaining);
      if batch.Err? || batch.value == [] {
        return true, batch;
      }
      r := StepBatch(pow, step, schema, batch.value);
      done := r.Err? || r.value != [];
    }

    /** Limit: skip, then emit, and stop pulling once the limit is reached. */
    method NextLimit() returns (r: Result<seq<Row>>)
      requires Valid() && plan.Limit?
      modifies Repr
      ensures Valid()
      ensures Pulled(plan, old(remaining), r, remaining)
      decreases plan, 2
    {
      assert Look(remaining);
      if plan.limit >= 0 && emitted >= plan.limit {
        LimitReached(plan.limit, plan.offset, emitted, skipped, left.remaining.rows);
        return Ok([]);
      }
      while true
        invariant Valid() && SameStream(plan, old(remaining), remaining)
        decreases |left.remaining.rows|
      {
        var done;
        done, r := LimitedBatch();
        if done {
          return;
        }
      }
    }

    /** One child batch through Limit; not done if all of it is skipped and the limit is not reached. */
    method LimitedBatch() returns (done: bool, r: Result<seq<Row>>)
      requires Valid() && plan.Limit?
      modifies Repr
      ensures Valid()
      ensures done ==> Pulled(plan, old(remaining), r, remaining)
      ensures !done ==> SameStream(plan, old(remaining), remaining) && |left.remaining.rows| < |old(left.remaining.rows)|
      decreases plan, 1
    {
      assert Look(remaining);
      var limit, offset := plan.limit, plan.offset;
      var batch := left.Next();
      if batch.Err? || batch.value == [] {
        remaining := Stream(LimitRest(limit, offset, emitted, skipped, left.remaining.rows), left.remaining.mayFail);
        return true, batch;
      }
      var out: seq<Row>;
      out, emitted, skipped := LimitBatch(limit, offset, emitted, skipped, batch.value, left.remaining.rows);
      remaining := Stream(LimitRest(limit, offset, emitted, skipped, left.remaining.rows), left.remaining.mayFail);
      r := Ok(out);
      done := out != [] || (limit >= 0 && emitted >= limit);
      if done && out == [] {
        LimitReached(limit, offset, emitted, skipped, left.remaining.rows);
      }
    }

    /** Append: the left child to its end, then the right one. */
    method NextAppend() returns (r: Result<seq<Row>>)
      requires Valid() && plan.Append?
      modifies Repr
      ensures Valid()
      ensures Pulled(plan, old(remaining), r, remaining)
      decreases plan, 2
    {
      if !leftDone {
        r := PullLeft();
        if r.Err? || r.value != [] {
          return;
        }
      }
      r := PullRight();
    }

    /** A batch of the left child; an empty one means that it is done. */
    method PullLeft() returns (r: Result<seq<Row>>)
      requires Valid() && plan.Append? && !leftDone
      modifies Repr
      ensures Valid()
      ensures r == Ok([]) ==> leftDone && SameStream(plan, old(remaining), remaining)
      ensures r != Ok([]) ==> Pulled(plan, old(remaining), r, remaining)
      decreases plan, 1
    {
      assert Look(remaining);
      r := left.Next();
      leftDone := r.Ok? && r.value == [];
      remaining := if leftDone then right.remaining else AppendStream(left.remaining, right.remaining);
    }

    method PullRight() returns (r: Result<seq<Row>>)
      requires Valid() && plan.Append? && leftDone
      modifies Repr
      ensures Valid()
      ensures Pulled(plan, old(remaining), r, remaining)
      decreases plan, 1
    {
      assert Look(remaining);
      r := right.Next();
      remaining := right.remaining;
    }

    /** Pulls every batch, as the blocking operators do with their inputs. */
    method PullAll() returns (r: Result<seq<Row>>)
      requires Valid()
      modifies Repr
      ensures Valid()
      ensures r.Ok? ==> r.value == old(remaining).rows && (ReadsAll(plan) ==> !old(remaining).mayFail)
      ensures r.Err? ==> old(remaining).mayFail
      decreases plan, 5
    {
      var all: seq<Row> := [];
      while true
        invariant Valid()
        invariant all + remaining.rows == old(remaining).rows
        invariant SameError(plan, old(remaining), remaining)
        decreases |remaining.rows|
      {
        var batch := Next();
        if batch.Err? {
          return Err;
        }
        if batch.value == [] {
          return Ok(all);
        }
        all := all + batch.value;
      }
    }

    /** Fills the output of a blocking operator; false if an expression fails to evaluate on the way. */
    method Build() returns (ok: bool)
      requires Valid() && !built && (IsBlocking(plan) || plan.HashJoin?)
      modifies Repr
      ensures Valid()
      ensures ok ==> built && remaining == Stream(old(remaining).rows, false) && (ReadsAll(plan) ==> !old(remaining).mayFail)
      ensures !ok ==> old(remaining).mayFail
      decreases plan, 3
    {
      if plan.Sort? {
        ok := BuildSort();
      } else if plan.Distinct? {
        ok := BuildDistinct();
      } else if plan.HashAggregate? {
        ok := BuildAggregate();
      } else {
        ok := BuildJoin();
      }
    }

    /** Holds between pulling from the child and installing the result. */
    ghost predicate Building()
      reads Repr
    {
      Tree() && HasChild(plan) && left.Valid() && !built && IsBlocking(plan)
    }

    /** The input could not be read or processed: nothing was built. */
    ghost method GiveUp()
      requires Building()
      modifies this`remaining
      ensures Valid()
    {
      remaining := BlockingStream(pow, plan, left.remaining);
    }

    method InstallRows(out: seq<Row>)
      requires Building() && !plan.HashAggregate?
      modifies this
      ensures Valid() && built && remaining == Stream(out, false)
    {
      rows, cursor, built, remaining := out, 0, true, Stream(out, false);
    }

    method InstallGroups(slots: HashTable, ks: seq<string>)
      requires Building() && plan.HashAggregate?
      modifies this
      ensures Valid() && built && remaining == Stream(EmitAll(plan.aggs, slots, ks), false)
    {
      table, order, cursor, built := slots, ks, 0, true;
      ghost var all := EmitAll(plan.aggs, slots, ks);
      remaining := Stream(all, false);
      assert Output() == all && all[cursor..] == all;
    }

    method BuildSort() returns (ok: bool)
      requires Valid() && !built && plan.Sort?
      modifies Repr
      ensures Valid()
      ensures ok ==> built && remaining == Stream(old(remaining).rows, false) && (ReadsAll(plan) ==> !old(remaining).mayFail)
      ensures !ok ==> old(remaining).mayFail
      decreases plan, 2
    {
      assert Look(remaining);
      var out := ReadSorted(left, pow, plan.keys, PlanSchema(plan.child));
      ok := out.Ok?;
      if ok {
        InstallRows(out.value);
      } else {
        GiveUp();
      }
    }

    method BuildDistinct() returns (ok: bool)
      requires Valid() && !built && plan.Distinct?
      modifies Repr
      ensures Valid()
      ensures ok ==> built && remaining == Stream(old(remaining).rows, false) && (ReadsAll(plan) ==> !old(remaining).mayFail)
      ensures !ok ==> old(remaining).mayFail
      decreases plan, 2
    {
      assert Look(remaining);
      var out := ReadDistinct(left);
      ok := out.Ok?;
      if ok {
        InstallRows(out.value);
      } else {
        GiveUp();
      }
    }

    method BuildAggregate() returns (ok: bool)
      requires Valid() && !built && plan.HashAggregate?
      modifies Repr
      ensures Valid()
      ensures ok ==> built && remaining == Stream(old(remaining).rows, false) && (ReadsAll(plan) ==> !old(remaining).mayFail)
      ensures !ok ==> old(remaining).mayFail
      decreases plan, 2
    {
      assert Look(remaining);
      var out := ReadGroups(left, pow, plan.groupKeys, plan.aggs, PlanSchema(plan.child));
      ok := out.Ok?;
      if ok {
        InstallGroups(out.value.0, out.value.1);
      } else {
        GiveUp();
      }
    }

    method BuildJoin() returns (ok: bool)
      requires Valid() && !built && plan.HashJoin?
      modifies Repr
      ensures Valid()
      ensures ok ==> built && remaining == Stream(old(remaining).rows, false) && (ReadsAll(plan) ==> !old(remaining).mayFail)
      ensures !ok ==> old(remaining).mayFail
      decreases plan, 2
    {
      assert Look(remaining);
      var out := ReadJoined(left, right, pow, plan);
      ok := out.Ok?;
      InstallJoin(out);
    }

    method InstallJoin(out: Result<seq<Row>>)
      requires Tree() && plan.HashJoin? && left.Valid() && right.Valid() && !built
      modifies this
      ensures Valid()
      ensures out.Ok? ==> built && remaining == Stream(out.value, false)
    {
      if out.Ok? {
        rows, cursor, built, remaining := out.value, 0, true, Stream(out.value, false);
      } else {
        remaining := JoinStream(pow, plan, left.remaining, right.remaining);
      }
    }
  }

  // ---- build(): what the blocking operators do with their input ----

  /** Sort: all rows, then one sort. */
  method ReadSorted(child: Operator, pow: Pow, keys: seq<SortKey>, schema: Schema) returns (r: Result<seq<Row>>)
    requires child.Valid()
    modifies child.Repr
    ensures child.Valid()
    ensures r.Ok? ==> SortRows(pow, keys, schema, old(child.remaining).rows) == r && (ReadsAll(child.plan) ==> !old(child.remaining).mayFail)
    ensures r.Err? ==> old(child.remaining).mayFail || SortRows(pow, keys, schema, old(child.remaining).rows).Err?
    decreases child.plan, 6
  {
    var input := child.PullAll();
    if input.Err? {
      return Err;
    }
    r := SortByKeys(pow, keys, schema, input.value);
  }

  /** HashJoin: all rows of both sides, then the nested loop. */
  method ReadJoined(left: Operator, right: Operator, pow: Pow, p: Plan) returns (r: Result<seq<Row>>)
    requires left.Valid() && right.Valid() && left.Repr !! right.Repr && p.HashJoin? && left.plan == p.left && right.plan == p.right
    modifies left.Repr, right.Repr
    ensures left.Valid() && right.Valid()
    ensures var s := JoinStream(pow, p, old(left.remaining), old(right.remaining));
            if r.Err? then s.mayFail else r.value == s.rows && (ReadsAll(p) ==> !s.mayFail)
    decreases p, 1
  {
    var ls := left.PullAll();
    var rs := right.PullAll();
    if ls.Err? || rs.Err? {
      return Err;
    }
    r := ComputeJoin(pow, p.jtype, p.condition, ls.value, rs.value, PlanSchema(p.left), PlanSchema(p.right));
  }

  /** Distinct: keeps a row if its key is new. */
  method ReadDistinct(child: Operator) returns (r: Result<seq<Row>>)
    requires child.Valid()
    modifies child.Repr
    ensures child.Valid()
    ensures r.Ok? ==> r.value == DistinctRows(old(child.remaining).rows) && (ReadsAll(child.plan) ==> !old(child.remaining).mayFail)
    ensures r.Err? ==> old(child.remaining).mayFail
    decreases child.plan, 6
  {
    ghost var all: Stream, read: seq<Row> := child.remaining, [];
    var seen: set<string>, kept: seq<Row> := {}, [];
    AddNothing(all.rows);
    while true
      invariant child.Valid()
      invariant Reading(child.plan, all, read, child.remaining)
      invariant seen == KeySet(read) && kept == DistinctRows(read)
      decreases |child.remaining.rows|
    {
      ghost var before := child.remaining;
      var batch := child.Next();
      if batch.Err? {
        return Err;
      }
      ReadOn(child.plan, all, read, before, batch, child.remaining);
      if batch.value == [] {
        return Ok(kept);
      }
      seen, kept := KeepNew(seen, kept, batch.value, read);
      read := read + batch.value;
    }
  }

  /** `read` has been taken off the stream `all`, and `rest` is left. */
  ghost predicate Reading(p: Plan, all: Stream, read: seq<Row>, rest: Stream) {
    all.rows == read + rest.rows && SameError(p, all, rest)
  }

  lemma ReadOn(p: Plan, all: Stream, read: seq<Row>, before: Stream, r: Result<seq<Row>>, after: Stream)
    requires r.Ok? && Reading(p, all, read, before) && Pulled(p, before, r, after)
    ensures Reading(p, all, read + r.value, after)
    ensures r.value == [] ==> all.rows == read && (ReadsAll(p) ==> !all.mayFail)
  {
    Seqs.Regroup(read, r.value, after.rows);
    AddNothing(read);
  }

  /** HashAggregate: every row of every batch into the hash table. */
  method ReadGroups(child: Operator, pow: Pow, keys: seq<Expr>, aggs: seq<Agg>, schema: Schema) returns (r: Result<(HashTable, seq<string>)>)
    requires child.Valid()
    modifies child.Repr
    ensures child.Valid()
    ensures r.Ok? ==> AggregateRows(pow, keys, aggs, schema, old(child.remaining).rows) == Ok(EmitAll(aggs, r.value.0, r.value.1))
    ensures r.Ok? && ReadsAll(child.plan) ==> !old(child.remaining).mayFail
    ensures r.Err? ==> old(child.remaining).mayFail || AggregateRows(pow, keys, aggs, schema, old(child.remaining).rows).Err?
    decreases child.plan, 6
  {
    ghost var all: Stream, read: seq<Row>, xs: seq<Input> := child.remaining, [], [];
    var slots: HashTable, order: seq<string>, anyRows := map[], [], false;
    NothingHeld(pow, keys, aggs, schema);
    AddNothing(all.rows);
    while true
      invariant child.Valid()
      invariant Reading(child.plan, all, read, child.remaining)
      invariant anyRows <==> read != []
      invariant Loaded(pow, keys, aggs, schema, read, xs, slots, order)
      decreases |child.remaining.rows|
    {
      ghost var before := child.remaining;
      var batch := child.Next();
      if batch.Err? {
        return Err;
      }
      ReadOn(child.plan, all, read, before, batch, child.remaining);
      if batch.value == [] {
        break;
      }
      var fits;
      fits, slots, order, xs := AddBatch(pow, keys, aggs, schema, slots, order, batch.value, read, xs, child.remaining.rows);
      if !fits {
        return Err;
      }
      read, anyRows := read + batch.value, true;
    }
    EmittedOutput(pow, keys, aggs, schema, read, xs, slots, order);
    if keys == [] && !anyRows {
      // No GROUP BY and no input: one row of empty aggregates.
      slots, order := slots[RowKey([]) := Slot(NewAccs(aggs), [])], order + [RowKey([])];
    }
    r := Ok((slots, order));
  }

  method CopyRows(all: seq<Row>, start: nat, end: nat) returns (out: seq<Row>)
    requires start <= end <= |all|
    ensures out == all[start..end]
  {
    out := [];
    for i := start to end
      invariant out == all[start..i]
    {
      out := out + [all[i]];
    }
  }

  /** A pulled child batch, seen through a row-wise operator. */
  lemma StepPulled(pow: Pow, step: RowStep, schema: Schema, child: Plan, s: Stream, r: Result<seq<Row>>, s': Stream)
    requires Pulled(child, s, r, s')
    ensures var out, out' := StepStream(pow, step, schema, s), StepStream(pow, step, schema, s');
            match r
            case Err => out.mayFail
            case Ok(batch) =>
              var b := StepRows(pow, step, schema, batch);
              (batch == [] ==> Over(child, out))
              && (b.mayFail ==> out.mayFail)
              && (!b.mayFail ==> out.rows == b.rows + out'.rows && SameError(child, out, out'))
  {
    if r.Ok? {
      StepRowsConcat(pow, step, schema, r.value, s'.rows);
    }
  }

  /** One batch, row by row. */
  method StepBatch(pow: Pow, step: RowStep, schema: Schema, batch: seq<Row>) returns (r: Result<seq<Row>>)
    ensures r.Ok? <==> !StepRows(pow, step, schema, batch).mayFail
    ensures r.Ok? ==> r.value == StepRows(pow, step, schema, batch).rows
  {
    var out: seq<Row> := [];
    for i := 0 to |batch|
      invariant StepRows(pow, step, schema, batch[..i]) == Stream(out, false)
    {
      assert batch[..i + 1] == batch[..i] + [batch[i]];
      StepRowsConcat(pow, step, schema, batch[..i], [batch[i]]);
      StepOne(pow, step, schema, batch[i]);
      var rows := StepRow(pow, step, schema, batch[i]);
      if rows.Err? {
        assert batch == batch[..i + 1] + batch[i + 1..];
        StepRowsConcat(pow, step, schema, batch[..i + 1], batch[i + 1..]);
        return Err;
      }
      out := out + rows.value;
    }
    assert batch[..|batch|] == batch;
    r := Ok(out);
  }

  lemma StepOne(pow: Pow, step: RowStep, schema: Schema, row: Row)
    ensures StepRows(pow, step, schema, [row])
         == match StepRow(pow, step, schema, row) case Err => Stream([], true) case Ok(out) => Stream(out, false)
  {
    assert [row][1..] == [];
  }

  /** Always true: mentioning Look(s) brings out what an operator's fields say about the stream s. */
  ghost predicate Look(s: Stream) {
    true
  }

  /** What is to come from a new operator, given what is to come from its children. */
  ghost function Fresh(pow: Pow, p: Plan, a: Stream, b: Stream): Stream
    requires PlanOk(p)
  {
    if p.SeqScan? then Stream(TableRows(p.table), false)
    else if p.Values? then Stream(p.rows, false)
    else if p.HashJoin? then JoinStream(pow, p, a, b)
    else if p.Append? then AppendStream(a, b)
    else if p.Limit? then Stream(LimitRest(p.limit, p.offset, 0, 0, a.rows), a.mayFail)
    else if IsRowwise(p) then StepStream(pow, StepOf(p), PlanSchema(p.child), a)
    else BlockingStream(pow, p, a)
  }

  predicate HasChild(p: Plan) {
    IsRowwise(p) || IsBlocking(p) || p.Limit?
  }

  predicate HasTwo(p: Plan) {
    p.HashJoin? || p.Append?
  }

  predicate IsSource(p: Plan) {
    p.SeqScan? || p.Values?
  }

  function EmitAll(aggs: seq<Agg>, table: HashTable, order: seq<string>): (r: seq<Row>)
    ensures |r| == |order|
  {
    seq(|order|, i requires 0 <= i < |order| => if order[i] in table then SlotRow(aggs, table[order[i]]) else [])
  }

  lemma {:induction false} LimitReached(limit: int, offset: int, emitted: int, skipped: int, rows: seq<Row>)
    requires 0 <= limit <= emitted
    ensures LimitRest(limit, offset, emitted, skipped, rows) == []
    decreases |rows|
  {
    if rows != [] && skipped < offset {
      LimitReached(limit, offset, emitted, skipped + 1, rows[1..]);
    }
  }

  /** One batch through the offset and limit counters. */
  method LimitBatch(limit: int, offset: int, emitted0: int, skipped0: int, batch: seq<Row>, ghost rest: seq<Row>)
    returns (out: seq<Row>, emitted: int, skipped: int)
    ensures LimitRest(limit, offset, emitted0, skipped0, batch + rest) == out + LimitRest(limit, offset, emitted, skipped, rest)
  {
    out, emitted, skipped := [], emitted0, skipped0;
    ghost var todo := batch + rest;
    ghost var all := LimitRest(limit, offset, emitted0, skipped0, todo);
    for i := 0 to |batch|
      invariant todo == batch[i..] + rest
      invariant all == out + LimitRest(limit, offset, emitted, skipped, todo)
    {
      assert todo[0] == batch[i] && todo[1..] == batch[i + 1..] + rest;
      if skipped < offset {
        skipped := skipped + 1;
      } else if limit >= 0 && emitted >= limit {
        LimitReached(limit, offset, emitted, skipped, rest);
        return;
      } else {
        out := out + [batch[i]];
        emitted := emitted + 1;
      }
      todo := todo[1..];
    }
    assert todo == rest;
  }

  /** One batch of Distinct. */
  method KeepNew(seen0: set<string>, kept0: seq<Row>, batch: seq<Row>, ghost read: seq<Row>) returns (seen: set<string>, kept: seq<Row>)
    requires seen0 == KeySet(read) && kept0 == DistinctRows(read)
    ensures seen == KeySet(read + batch) && kept == DistinctRows(read + batch)
  {
    seen, kept := seen0, kept0;
    TakeNone(read, batch);
    for i := 0 to |batch|
      invariant seen == KeySet(read + batch[..i]) && kept == DistinctRows(read + batch[..i])
    {
      TakeOneMore(read, batch, i);
      KeySetGrows(read + batch[..i], batch[i]);
      var k := RowKey(batch[i]);
      if k !in seen {
        kept := kept + [batch[i]];
      }
      seen := seen + {k};
    }
  }

  lemma KeySetGrows(rows: seq<Row>, x: Row)
    ensures KeySet(rows + [x]) == KeySet(rows) + {RowKey(x)}
    ensures DistinctRows(rows + [x]) == if RowKey(x) in KeySet(rows) then DistinctRows(rows) else DistinctRows(rows) + [x]
  {
    assert (rows + [x])[..|rows|] == rows;
    forall k ensures k in KeySet(rows + [x]) <==> k in KeySet(rows) + {RowKey(x)} {
      assert x in rows + [x] && forall r :: r in rows ==> r in rows + [x];
    }
  }

  /** The hash table after the rows `read`. */
  ghost predicate Loaded(pow: Pow, keys: seq<Expr>, aggs: seq<Agg>, schema: Schema, read: seq<Row>, xs: seq<Input>, slots: HashTable, order: seq<string>) {
    InputsOf(pow, keys, aggs, schema, read) == Ok(xs) && Holds(aggs, xs, slots, order)
  }

  lemma NothingHeld(pow: Pow, keys: seq<Expr>, aggs: seq<Agg>, schema: Schema)
    ensures Loaded(pow, keys, aggs, schema, [], [], map[], [])
  {
  }

  /** Some row of `rows` cannot be aggregated. */
  ghost predicate Broken(pow: Pow, keys: seq<Expr>, aggs: seq<Agg>, schema: Schema, rows: seq<Row>) {
    match InputsOf(pow, keys, aggs, schema, rows)
    case Err => true
    case Ok(xs) => exists x :: x in xs && GroupAccs(aggs, WithKey(xs, x.key), |aggs|).Err?
  }

  /** One row of HashAggregate. */
  method AddRow(pow: Pow, keys: seq<Expr>, aggs: seq<Agg>, schema: Schema, slots0: HashTable, order0: seq<string>, row: Row,
                ghost read: seq<Row>, ghost xs0: seq<Input>)
    returns (ok: bool, slots: HashTable, order: seq<string>, ghost xs: seq<Input>)
    requires Loaded(pow, keys, aggs, schema, read, xs0, slots0, order0)
    ensures ok ==> Loaded(pow, keys, aggs, schema, read + [row], xs, slots, order)
    ensures !ok ==> Broken(pow, keys, aggs, schema, read + [row])
  {
    ok, slots, order, xs := false, slots0, order0, xs0;
    InputsSnoc(pow, keys, aggs, schema, read, row);
    var x := InputOf(pow, keys, aggs, schema, row);
    if x.Ok? {
      ok, slots, order := AddInput(aggs, x.value, slots, order, xs);
      xs := xs + [x.value];
      assert x.value in xs;
    }
  }

  /** One batch of HashAggregate. It fails only if the aggregation of the whole input is an error. */
  method AddBatch(pow: Pow, keys: seq<Expr>, aggs: seq<Agg>, schema: Schema, slots0: HashTable, order0: seq<string>, batch: seq<Row>,
                  ghost read: seq<Row>, ghost xs0: seq<Input>, ghost rest: seq<Row>)
    returns (ok: bool, slots: HashTable, order: seq<string>, ghost xs: seq<Input>)
    requires Loaded(pow, keys, aggs, schema, read, xs0, slots0, order0)
    ensures ok ==> Loaded(pow, keys, aggs, schema, read + batch, xs, slots, order)
    ensures !ok ==> AggregateRows(pow, keys, aggs, schema, (read + batch) + rest).Err?
  {
    ok, slots, order, xs := true, slots0, order0, xs0;
    TakeNone(read, batch);
    for i := 0 to |batch|
      invariant Loaded(pow, keys, aggs, schema, read + batch[..i], xs, slots, order)
    {
      TakeOneMore(read, batch, i);
      ok, slots, order, xs := AddRow(pow, keys, aggs, schema, slots, order, batch[i], read + batch[..i], xs);
      if !ok {
        BrokenBatch(pow, keys, aggs, schema, read, batch, rest, i);
        return;
      }
    }
    ok := true;
  }

  lemma BrokenBatch(pow: Pow, keys: seq<Expr>, aggs: seq<Agg>, schema: Schema, read: seq<Row>, batch: seq<Row>, rest: seq<Row>, i: nat)
    requires i < |batch| && Broken(pow, keys, aggs, schema, read + batch[..i + 1])
    ensures AggregateRows(pow, keys, aggs, schema, (read + batch) + rest).Err?
  {
    PrefixOfThree(read, batch, rest, i + 1);
    BrokenStays(pow, keys, aggs, schema, (read + batch) + rest, read + batch[..i + 1]);
  }

  lemma BrokenStays(pow: Pow, keys: seq<Expr>, aggs: seq<Agg>, schema: Schema, all: seq<Row>, prefix: seq<Row>)
    requires prefix <= all && Broken(pow, keys, aggs, schema, prefix)
    ensures AggregateRows(pow, keys, aggs, schema, all).Err?
  {
    var whole, n := InputsOf(pow, keys, aggs, schema, all), |prefix|;
    if whole.Ok? {
      InputsPrefix(pow, keys, aggs, schema, all, n);
      assert all[..n] == prefix;
      var xs := whole.value[..n];
      var x :| x in xs && GroupAccs(aggs, WithKey(xs, x.key), |aggs|).Err?;
      PrefixErrorIsError(aggs, whole.value, n, x.key);
    }
  }

  /** The table as emitted, with the extra slot for an aggregate query without keys and without input. */
  lemma EmittedOutput(pow: Pow, keys: seq<Expr>, aggs: seq<Agg>, schema: Schema, read: seq<Row>, xs: seq<Input>, slots: HashTable, order: seq<string>)
    requires Loaded(pow, keys, aggs, schema, read, xs, slots, order)
    ensures var empty := keys == [] && read == [];
            var slots' := if empty then slots[RowKey([]) := Slot(NewAccs(aggs), [])] else slots;
            var order' := if empty then order + [RowKey([])] else order;
            AggregateRows(pow, keys, aggs, schema, read) == Ok(EmitAll(aggs, slots', order'))
  {
    if keys == [] && read == [] {
      var slot := Slot(NewAccs(aggs), []);
      assert [] + Outputs(aggs, NewAccs(aggs)) == Outputs(aggs, NewAccs(aggs));
      assert EmitAll(aggs, slots[RowKey([]) := slot], [] + [RowKey([])]) == [SlotRow(aggs, slot)];
    } else {
      EmittedRows(aggs, xs, slots, order, EmitAll(aggs, slots, order));
    }
  }

  // ---- drain() ----

  /** Makes the operator tree of a plan. */
  method MakeOperator(pow: Pow, batchSize: nat, p: Plan) returns (op: Operator)
    requires batchSize >= 1 && PlanOk(p)
    ensures fresh(op.Repr) && op.Valid() && op.plan == p && op.pow == pow
    ensures op.remaining == StreamOf(pow, p)
    decreases p
  {
    var l: Operator?, r: Operator? := null, null;
    if HasChild(p) {
      l := MakeOperator(pow, batchSize, p.child);
    } else if HasTwo(p) {
      l := MakeOperator(pow, batchSize, p.left);
      r := MakeOperator(pow, batchSize, p.right);
    }
    ghost var a := if l == null then Stream([], false) else l.remaining;
    ghost var b := if r == null then Stream([], false) else r.remaining;
    op := new Operator(pow, batchSize, p, l, r);
    FreshIsWhole(pow, p, a, b);
  }

  /** A new operator over new children has the whole stream of its plan to come. */
  lemma FreshIsWhole(pow: Pow, p: Plan, a: Stream, b: Stream)
    requires PlanOk(p)
    requires HasChild(p) ==> a == StreamOf(pow, p.child)
    requires HasTwo(p) ==> a == StreamOf(pow, p.left) && b == StreamOf(pow, p.right)
    ensures Fresh(pow, p, a, b) == StreamOf(pow, p)
  {
    if p.Limit? {
      LimitFromStart(p.limit, p.offset, a.rows);
    }
  }

  lemma LimitFromStart(limit: int, offset: int, rows: seq<Row>)
    ensures LimitRest(limit, offset, 0, 0, rows) == LimitRows(limit, offset, rows)
  {
    LimitRestIsSlice(limit, offset, 0, 0, rows);
  }

  /** Pulls a whole tree into one result. */
  method Drain(root: Operator) returns (r: Result<seq<Row>>)
    requires root.Valid()
    modifies root.Repr
    ensures r.Ok? ==> r.value == old(root.remaining).rows && (ReadsAll(root.plan) ==> !old(root.remaining).mayFail)
    ensures r.Err? ==> old(root.remaining).mayFail
  {
    r := root.PullAll();
  }

  /**
   Running a plan gives exactly its row sequence, whatever the batch size. It fails only if evaluating an expression or
   comparing two rows in a sort fails, and it does fail then unless a LIMIT may stop before that point.
   */
  method Execute(pow: Pow, batchSize: nat, p: Plan) returns (r: Result<seq<Row>>)
    requires batchSize >= 1 && PlanOk(p)
    ensures r.Ok? ==> r.value == StreamOf(pow, p).rows
    ensures r.Err? ==> StreamOf(pow, p).mayFail
    ensures ReadsAll(p) ==> (r.Ok? <==> !StreamOf(pow, p).mayFail)
  {
    var root := MakeOperator(pow, batchSize, p);
    r := Drain(root);
  }
}
