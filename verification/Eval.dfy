/** The scalar evaluator: three-valued logic over values. An evaluation exception is `Err`. */
module Eval {
  import opened Results
  import opened Types
  import opened Ast
  import opened Like

  // std::pow, the one library function the evaluator cannot do without.
  type Pow = (real, real) -> real

  // ---- Comparison and truth ----

  predicate IsNumeric(v: Value) {
    TypeIsNumeric(TypeOf(v))
  }

  const UNKNOWN: int := 2

  function Sign(less: bool, greater: bool): int {
    if less then -1 else if greater then 1 else 0
  }

  /** -1, 0 or 1, or UNKNOWN if either side is NULL. */
  function CompareValues(a: Value, b: Value): Result<int> {
    if a.Null? || b.Null? then Ok(UNKNOWN)
    else if a.Int? && b.Int? then Ok(Sign(a.i < b.i, a.i > b.i))
    else if IsNumeric(a) && IsNumeric(b) then
      var x :- ToDouble(a);
      var y :- ToDouble(b);
      Ok(Sign(x < y, x > y))
    else if a.Bool? && b.Bool? then Ok(Sign(!a.b && b.b, a.b && !b.b))
    else if a.Str? && b.Str? then Ok(if a.s == b.s then 0 else if StrLess(a.s, b.s) then -1 else 1)
    else Err
  }

  datatype Truth = False | True | Unknown

  function Truthiness(v: Value): Result<Truth> {
    match v
    case Null => Ok(Unknown)
    case Bool(b) => Ok(if b then True else False)
    case Int(_, i) => Ok(if i != 0 then True else False)
    case Dbl(r) => Ok(if r != 0.0 then True else False)
    case Str(_) => Err
  }

  function BoolValue(t: Truth): Value {
    match t
    case Unknown => Null
    case True => Bool(true)
    case False => Bool(false)
  }

  // ---- Arithmetic ----

  /** C++ division of integers drops the fraction, so the remainder has the sign of the dividend. */
  function TruncatedRemainder(a: int, b: int): int
    requires b != 0
  {
    var m := (if a < 0 then -a else a) % (if b < 0 then -b else b);
    if a < 0 then -m else m
  }

  function Truncate(r: real): int {
    if r < 0.0 then -((-r).Floor) else r.Floor
  }

  function RoundHalfAway(r: real): int {
    if r < 0.0 then -((-r + 0.5).Floor) else (r + 0.5).Floor
  }

  function EvalArithmetic(pow: Pow, op: BinaryOp, l: Value, r: Value): Result<Value> {
    if l.Null? || r.Null? then Ok(Null)
    else if !IsNumeric(l) || !IsNumeric(r) then Err
    else if l.Int? && r.Int? && op == ADD then Ok(Int(W64, l.i + r.i))
    else if l.Int? && r.Int? && op == SUB then Ok(Int(W64, l.i - r.i))
    else if l.Int? && r.Int? && op == MUL then Ok(Int(W64, l.i * r.i))
    else if l.Int? && r.Int? && op == MOD then
      Ok(if r.i == 0 then Null else Int(W64, TruncatedRemainder(l.i, r.i)))
    else
      var a :- ToDouble(l);
      var b :- ToDouble(r);
      match op
      case ADD => Ok(Dbl(a + b))
      case SUB => Ok(Dbl(a - b))
      case MUL => Ok(Dbl(a * b))
      case DIV => Ok(if b == 0.0 then Null else Dbl(a / b))
      case MOD => Ok(if b == 0.0 then Null else Dbl(a - Truncate(a / b) as real * b))
      case POW => Ok(Dbl(pow(a, b)))
      case _ => Err
  }

  function CompareHolds(op: BinaryOp, c: int): bool {
    match op
    case EQ => c == 0
    case NEQ => c != 0
    case LT => c < 0
    case LTE => c <= 0
    case GT => c > 0
    case GTE => c >= 0
    case _ => false
  }

  predicate IsComparison(op: BinaryOp) {
    op == EQ || op == NEQ || op == LT || op == LTE || op == GT || op == GTE
  }

  /** A binary operator other than AND and OR, on evaluated operands. */
  function ApplyBinary(pow: Pow, op: BinaryOp, l: Value, r: Value): Result<Value> {
    match op
    case ADD | SUB | MUL | DIV | MOD | POW => EvalArithmetic(pow, op, l, r)
    case EQ | NEQ | LT | LTE | GT | GTE =>
      var c :- CompareValues(l, r);
      Ok(if c == UNKNOWN then Null else Bool(CompareHolds(op, c)))
    case CONCAT => Ok(if l.Null? || r.Null? then Null else Str(ToString(l) + ToString(r)))
    case LIKE | ILIKE =>
      if l.Null? || r.Null? then Ok(Null)
      else if l.Str? && r.Str? then Ok(Bool(LikeMatch(l.s, r.s, op == ILIKE)))
      else Err
    case _ => Err
  }

  function Decisive(op: BinaryOp): Truth {
    if op == AND then False else True
  }

  function Combine(op: BinaryOp, a: Truth, b: Truth): Truth {
    if b == Decisive(op) then b
    else if a == Unknown || b == Unknown then Unknown
    else if op == AND then True else False
  }

  function ApplyUnary(op: UnaryOp, v: Value): Result<Value> {
    match op
    case PLUS => Ok(v)
    case NEGATE =>
      if v.Null? then Ok(Null)
      else if v.Int? then Ok(Int(W64, -v.i))
      else
        var d :- ToDouble(v);
        Ok(Dbl(-d))
    case NOT =>
      var t :- Truthiness(v);
      Ok(BoolValue(match t case Unknown => Unknown case True => False case False => True))
  }

  // ---- evaluate() ----

  /** The cell a column reference names: the qualified name is tried first, then the bare one. */
  function Lookup(table: Option<string>, column: string, schema: Schema, row: Row): Result<Value> {
    if column == "*" then Err
    else
      var q := if table.Some? then IndexOf(schema, table.value + "." + column) else -1;
      var idx := if q < 0 then IndexOf(schema, column) else q;
      if 0 <= idx < |row| then Ok(row[idx]) else Err
  }

  function Evaluate(pow: Pow, e: Expr, schema: Schema, row: Row): Result<Value>
    decreases e, 1
  {
    match e
    case Literal(v) => Ok(v)
    case ColumnRef(_, t, c) => Lookup(t, c, schema, row)
    case Unary(op, x) =>
      var v :- Evaluate(pow, x, schema, row);
      ApplyUnary(op, v)
    case Binary(op, l, r) =>
      if op == AND || op == OR then
        // The left operand alone decides when it is False for AND, True for OR.
        var a :- Evaluate(pow, l, schema, row);
        var ta :- Truthiness(a);
        if ta == Decisive(op) then Ok(BoolValue(ta)) else
        var b :- Evaluate(pow, r, schema, row);
        var tb :- Truthiness(b);
        Ok(BoolValue(Combine(op, ta, tb)))
      else
        var a :- Evaluate(pow, l, schema, row);
        var b :- Evaluate(pow, r, schema, row);
        ApplyBinary(pow, op, a, b)
    case IsNull(x, negated) =>
      var v :- Evaluate(pow, x, schema, row);
      Ok(Bool(v.Null? != negated))
    case Between(x, lo, hi, negated) =>
      var v :- Evaluate(pow, x, schema, row);
      var a :- Evaluate(pow, lo, schema, row);
      var b :- Evaluate(pow, hi, schema, row);
      var cl :- CompareValues(v, a);
      var ch :- CompareValues(v, b);
      Ok(if cl == UNKNOWN || ch == UNKNOWN then Null else Bool((cl >= 0 && ch <= 0) != negated))
    case In(x, values, negated) =>
      var v :- Evaluate(pow, x, schema, row);
      if v.Null? then Ok(Null) else EvaluateIn(pow, v, values, negated, false, schema, row)
    case Case(subject, whens, els) =>
      var s :- if subject.Some? then EvaluateSome(pow, subject.value, schema, row) else Ok(None);
      var chosen :- EvaluateWhens(pow, s, whens, schema, row);
      if chosen.Some? then Ok(chosen.value)
      else if els.Some? then Evaluate(pow, els.value, schema, row)
      else Ok(Null)
    case FunctionCall(name, args, _, _) => EvaluateFunction(pow, name, args, schema, row)
  }

  function EvaluateFunction(pow: Pow, name: string, args: seq<Expr>, schema: Schema, row: Row): Result<Value>
    decreases args, 3
  {
    if IsAggregateName(name) then Err
    else if name == "COALESCE" then EvaluateCoalesce(pow, args, schema, row)
    else if name == "ROUND" && |args| >= 1 then
      var v :- Evaluate(pow, args[0], schema, row);
      if v.Null? then Ok(Null) else
      var digits :- if |args| >= 2 then EvaluateInt(pow, args[1], schema, row) else Ok(0);
      ApplyRound(pow, v, digits)
    else if |args| == 1 && (name == "ABS" || name == "LENGTH" || name == "UPPER" || name == "LOWER") then
      var v :- Evaluate(pow, args[0], schema, row);
      ApplyScalar(name, v)
    else Err
  }

  function ApplyRound(pow: Pow, v: Value, digits: int): Result<Value> {
    var d :- ToDouble(v);
    var f := pow(10.0, digits as real);
    if f == 0.0 then Err else Ok(Dbl(RoundHalfAway(d * f) as real / f))
  }

  function ApplyScalar(name: string, v: Value): Result<Value> {
    if v.Null? then Ok(Null)
    else if name == "ABS" then
      if v.Int? then Ok(Int(W64, if v.i < 0 then -v.i else v.i))
      else
        var d :- ToDouble(v);
        Ok(Dbl(if d < 0.0 then -d else d))
    else if !v.Str? then Err
    else if name == "LENGTH" then Ok(Int(W64, |v.s|))
    else if name == "UPPER" then Ok(Str(Upper(v.s)))
    else Ok(Str(Lower(v.s)))
  }

  function EvaluateSome(pow: Pow, e: Expr, schema: Schema, row: Row): Result<Option<Value>>
    decreases e, 2
  {
    var v :- Evaluate(pow, e, schema, row);
    Ok(Some(v))
  }

  function EvaluateInt(pow: Pow, e: Expr, schema: Schema, row: Row): Result<int>
    decreases e, 2
  {
    var v :- Evaluate(pow, e, schema, row);
    ToInt64(v)
  }

  function EvaluateIn(pow: Pow, v: Value, values: seq<Expr>, negated: bool, sawNull: bool, schema: Schema, row: Row): Result<Value>
    decreases values, 0
  {
    if values == [] then Ok(if sawNull then Null else Bool(negated))
    else
      var item :- Evaluate(pow, values[0], schema, row);
      var c :- CompareValues(v, item);
      if c == 0 then Ok(Bool(!negated))
      else EvaluateIn(pow, v, values[1..], negated, sawNull || item.Null?, schema, row)
  }

  function EvaluateWhens(pow: Pow, subject: Option<Value>, whens: seq<CaseWhen>, schema: Schema, row: Row): Result<Option<Value>>
    decreases whens, 0
  {
    if whens == [] then Ok(None)
    else
      var r :- EvaluateWhen(pow, subject, whens[0], schema, row);
      if r.Some? then Ok(r) else EvaluateWhens(pow, subject, whens[1..], schema, row)
  }

  function EvaluateWhen(pow: Pow, subject: Option<Value>, w: CaseWhen, schema: Schema, row: Row): Result<Option<Value>>
    decreases w, 0
  {
    var cond :- Evaluate(pow, w.condition, schema, row);
    var matched :- WhenMatches(subject, cond);
    if matched then EvaluateSome(pow, w.result, schema, row) else Ok(None)
  }

  function WhenMatches(subject: Option<Value>, cond: Value): Result<bool> {
    if subject.Some? then
      var c :- CompareValues(subject.value, cond);
      Ok(c == 0)
    else
      var t :- Truthiness(cond);
      Ok(t == True)
  }

  function EvaluateCoalesce(pow: Pow, args: seq<Expr>, schema: Schema, row: Row): Result<Value>
    decreases args, 0
  {
    if args == [] then Ok(Null)
    else
      var v :- Evaluate(pow, args[0], schema, row);
      if !v.Null? then Ok(v) else EvaluateCoalesce(pow, args[1..], schema, row)
  }

  predicate Yields(pow: Pow, e: Expr, schema: Schema, row: Row, v: Value) {
    Evaluate(pow, e, schema, row) == Ok(v)
  }

  // ---- evaluatePredicate() ----

  function EvaluatePredicate(pow: Pow, e: Expr, schema: Schema, row: Row): Result<bool> {
    var v :- Evaluate(pow, e, schema, row);
    Ok(Accepts(v))
  }

  predicate Accepts(v: Value) {
    match v
    case Bool(b) => b
    case Int(_, i) => i != 0
    case Dbl(r) => r != 0.0
    case _ => false
  }

  // ---- Laws of the three-valued logic ----

  /** De Morgan's law, error cases included: both sides evaluate the same operands and stop at the same point. */
  lemma DeMorgan(pow: Pow, a: Expr, b: Expr, schema: Schema, row: Row)
    ensures Evaluate(pow, Unary(NOT, Binary(AND, a, b)), schema, row)
         == Evaluate(pow, Binary(OR, Unary(NOT, a), Unary(NOT, b)), schema, row)
    ensures Evaluate(pow, Unary(NOT, Binary(OR, a, b)), schema, row)
         == Evaluate(pow, Binary(AND, Unary(NOT, a), Unary(NOT, b)), schema, row)
  {
    var va, vb := Evaluate(pow, a, schema, row), Evaluate(pow, b, schema, row);
    var na, nb := Evaluate(pow, Unary(NOT, a), schema, row), Evaluate(pow, Unary(NOT, b), schema, row);
    if va.Ok? {
      assert na == ApplyUnary(NOT, va.value);
    }
    if vb.Ok? {
      assert nb == ApplyUnary(NOT, vb.value);
    }
  }

  /**
   A condition that is boolean-convertible on a row accepts it in exactly one of the forms
   `p`, `NOT p` and `p IS NULL`: the three filters split any table.
   */
  lemma TernaryPartition(pow: Pow, p: Expr, schema: Schema, row: Row)
    requires Evaluate(pow, p, schema, row).Ok? && !Evaluate(pow, p, schema, row).value.Str?
    ensures var yes := EvaluatePredicate(pow, p, schema, row);
            var no := EvaluatePredicate(pow, Unary(NOT, p), schema, row);
            var unknown := EvaluatePredicate(pow, IsNull(p, false), schema, row);
            yes.Ok? && no.Ok? && unknown.Ok?
            && (yes.value || no.value || unknown.value)
            && !(yes.value && no.value) && !(yes.value && unknown.value) && !(no.value && unknown.value)
  {
    var v := Evaluate(pow, p, schema, row).value;
    assert Evaluate(pow, Unary(NOT, p), schema, row) == ApplyUnary(NOT, v);
    assert Evaluate(pow, IsNull(p, false), schema, row) == Ok(Bool(v.Null?));
  }

  /**
   `x BETWEEN lo AND hi` has the value of `x >= lo AND x <= hi` unless exactly one of the two comparisons is
   unknown and the other is false: the evaluator then answers NULL where the conjunction is false.
   */
  lemma BetweenIsConjunction(pow: Pow, x: Expr, lo: Expr, hi: Expr, schema: Schema, row: Row)
    requires Evaluate(pow, Binary(GTE, x, lo), schema, row).Ok? && Evaluate(pow, Binary(LTE, x, hi), schema, row).Ok?
    ensures var ge := Evaluate(pow, Binary(GTE, x, lo), schema, row).value;
            var le := Evaluate(pow, Binary(LTE, x, hi), schema, row).value;
            (Evaluate(pow, Between(x, lo, hi, false), schema, row)
             == Evaluate(pow, Binary(AND, Binary(GTE, x, lo), Binary(LTE, x, hi)), schema, row)
             <==> !((ge == Null && le == Bool(false)) || (ge == Bool(false) && le == Null)))
  {
    hide CompareValues, EvalArithmetic, LikeMatch, ToString;
    var v, a, b := Evaluate(pow, x, schema, row).value, Evaluate(pow, lo, schema, row).value, Evaluate(pow, hi, schema, row).value;
    assert Evaluate(pow, Binary(GTE, x, lo), schema, row) == ApplyBinary(pow, GTE, v, a);
    assert Evaluate(pow, Binary(LTE, x, hi), schema, row) == ApplyBinary(pow, LTE, v, b);
  }

  // ---- What an evaluation depends on ----

  /** Two schema/row pairs in which every column reference finds the same value. */
  ghost predicate SameLookups(s1: Schema, r1: Row, s2: Schema, r2: Row) {
    forall t, c :: Lookup(t, c, s1, r1) == Lookup(t, c, s2, r2)
  }

  /** Evaluation depends on the row only through the lookups. */
  lemma {:induction false} EvaluateSameLookups(pow: Pow, e: Expr, s1: Schema, r1: Row, s2: Schema, r2: Row)
    requires SameLookups(s1, r1, s2, r2)
    ensures Evaluate(pow, e, s1, r1) == Evaluate(pow, e, s2, r2)
    decreases e, 1
  {
    match e
    case Literal(_) =>
    case ColumnRef(_, _, _) =>
    case Unary(_, x) => EvaluateSameLookups(pow, x, s1, r1, s2, r2);
    case Binary(_, l, r) =>
      EvaluateSameLookups(pow, l, s1, r1, s2, r2);
      EvaluateSameLookups(pow, r, s1, r1, s2, r2);
    case IsNull(x, _) => EvaluateSameLookups(pow, x, s1, r1, s2, r2);
    case Between(x, lo, hi, _) =>
      EvaluateSameLookups(pow, x, s1, r1, s2, r2);
      EvaluateSameLookups(pow, lo, s1, r1, s2, r2);
      EvaluateSameLookups(pow, hi, s1, r1, s2, r2);
    case In(x, values, negated) =>
      EvaluateSameLookups(pow, x, s1, r1, s2, r2);
      forall v { InSameLookups(pow, v, values, negated, false, s1, r1, s2, r2); }
    case Case(subject, whens, els) =>
      if subject.Some? { EvaluateSameLookups(pow, subject.value, s1, r1, s2, r2); }
      if els.Some? { EvaluateSameLookups(pow, els.value, s1, r1, s2, r2); }
      forall s { WhensSameLookups(pow, s, whens, s1, r1, s2, r2); }
    case FunctionCall(name, args, _, _) => FunctionSameLookups(pow, name, args, s1, r1, s2, r2);
  }

  lemma {:induction false} FunctionSameLookups(pow: Pow, name: string, args: seq<Expr>, s1: Schema, r1: Row, s2: Schema, r2: Row)
    requires SameLookups(s1, r1, s2, r2)
    ensures EvaluateFunction(pow, name, args, s1, r1) == EvaluateFunction(pow, name, args, s2, r2)
    decreases args, 3
  {
    CoalesceSameLookups(pow, args, s1, r1, s2, r2);
    if |args| >= 1 { EvaluateSameLookups(pow, args[0], s1, r1, s2, r2); }
    if |args| >= 2 { EvaluateSameLookups(pow, args[1], s1, r1, s2, r2); }
  }

  lemma {:induction false} InSameLookups(pow: Pow, v: Value, values: seq<Expr>, negated: bool, sawNull: bool, s1: Schema, r1: Row, s2: Schema, r2: Row)
    requires SameLookups(s1, r1, s2, r2)
    ensures EvaluateIn(pow, v, values, negated, sawNull, s1, r1) == EvaluateIn(pow, v, values, negated, sawNull, s2, r2)
    decreases values, 0
  {
    if values != [] {
      EvaluateSameLookups(pow, values[0], s1, r1, s2, r2);
      InSameLookups(pow, v, values[1..], negated, true, s1, r1, s2, r2);
      InSameLookups(pow, v, values[1..], negated, sawNull, s1, r1, s2, r2);
    }
  }

  lemma {:induction false} WhensSameLookups(pow: Pow, subject: Option<Value>, whens: seq<CaseWhen>, s1: Schema, r1: Row, s2: Schema, r2: Row)
    requires SameLookups(s1, r1, s2, r2)
    ensures EvaluateWhens(pow, subject, whens, s1, r1) == EvaluateWhens(pow, subject, whens, s2, r2)
    decreases whens, 0
  {
    if whens != [] {
      WhenSameLookups(pow, subject, whens[0], s1, r1, s2, r2);
      WhensSameLookups(pow, subject, whens[1..], s1, r1, s2, r2);
    }
  }

  lemma {:induction false} WhenSameLookups(pow: Pow, subject: Option<Value>, w: CaseWhen, s1: Schema, r1: Row, s2: Schema, r2: Row)
    requires SameLookups(s1, r1, s2, r2)
    ensures EvaluateWhen(pow, subject, w, s1, r1) == EvaluateWhen(pow, subject, w, s2, r2)
    decreases w, 0
  {
    EvaluateSameLookups(pow, w.condition, s1, r1, s2, r2);
    EvaluateSameLookups(pow, w.result, s1, r1, s2, r2);
  }

  lemma {:induction false} CoalesceSameLookups(pow: Pow, args: seq<Expr>, s1: Schema, r1: Row, s2: Schema, r2: Row)
    requires SameLookups(s1, r1, s2, r2)
    ensures EvaluateCoalesce(pow, args, s1, r1) == EvaluateCoalesce(pow, args, s2, r2)
    decreases args, 0
  {
    if args != [] {
      EvaluateSameLookups(pow, args[0], s1, r1, s2, r2);
      CoalesceSameLookups(pow, args[1..], s1, r1, s2, r2);
    }
  }
}
