/**
 The engine's type system: type ids, data types, values and their comparison and rendering.
 Floating-point values are real numbers (no rounding, no NaN); the int64 to double cast is
 modelled exactly, in module Doubles.
 */
module Types {
  import opened Results
  import opened Doubles

  // An 8-bit enumeration, as in the source: a loaded file may hold a code that names no type.
  type TypeId = n: nat | n < 256

  const INVALID: TypeId := 0
  const BOOLEAN: TypeId := 1
  const INT8: TypeId := 2
  const INT16: TypeId := 3
  const INT32: TypeId := 4
  const INT64: TypeId := 5
  const FLOAT32: TypeId := 6
  const FLOAT64: TypeId := 7
  const VARCHAR: TypeId := 8
  const BLOB: TypeId := 9
  const DATE: TypeId := 10
  const TIMESTAMP: TypeId := 11
  const INTERVAL: TypeId := 12
  const DECIMAL: TypeId := 13

  predicate TypeIsInteger(id: TypeId) {
    INT8 <= id <= INT64
  }

  predicate TypeIsFloat(id: TypeId) {
    id == FLOAT32 || id == FLOAT64
  }

  predicate TypeIsNumeric(id: TypeId) {
    TypeIsInteger(id) || TypeIsFloat(id) || id == DECIMAL
  }

  datatype DataType = DataType(id: TypeId, nullable: bool, scale: nat, precision: nat, maxLength: int)

  function SimpleType(id: TypeId): DataType {
    DataType(id, true, 0, 0, -1)
  }

  datatype ColumnDef = ColumnDef(name: string, ty: DataType)

  type Schema = seq<ColumnDef>

  /** The integer alternatives of the value variant. */
  datatype IntWidth = W8 | W16 | W32 | W64

  /** A scalar. VARCHAR and BLOB contents are both `Str`. */
  datatype Value =
    | Null
    | Bool(b: bool)
    | Int(w: IntWidth, i: int)
    | Dbl(r: real)
    | Str(s: string)

  type Row = seq<Value>

  function TypeOf(v: Value): TypeId {
    match v
    case Null => INVALID
    case Bool(_) => BOOLEAN
    case Int(W8, _) => INT8
    case Int(W16, _) => INT16
    case Int(W32, _) => INT32
    case Int(W64, _) => INT64
    case Dbl(_) => FLOAT64
    case Str(_) => VARCHAR
  }

  /** The integral alternatives, which include the boolean one. */
  function ToInt64(v: Value): Result<int> {
    match v
    case Bool(b) => Ok(if b then 1 else 0)
    case Int(_, i) => Ok(i)
    case _ => Err
  }

  function ToDouble(v: Value): Result<real> {
    match v
    case Bool(b) => Ok(if b then 1.0 else 0.0)
    case Int(_, i) => Ok(IntToDouble(i))
    case Dbl(r) => Ok(r)
    case _ => Err
  }

  // ---- Comparison ----

  /** Lexicographic order of byte strings. */
  predicate StrLess(a: string, b: string) {
    && b != []
    && (a == [] || a[0] < b[0] || (a[0] == b[0] && StrLess(a[1..], b[1..])))
  }

  /** The same alternative of the value variant. */
  predicate SameVariant(a: Value, b: Value) {
    match a
    case Null => b.Null?
    case Bool(_) => b.Bool?
    case Int(w, _) => b.Int? && b.w == w
    case Dbl(_) => b.Dbl?
    case Str(_) => b.Str?
  }

  predicate RawLess(a: Value, b: Value)
    requires SameVariant(a, b)
  {
    match a
    case Null => false
    case Bool(x) => !x && b.b
    case Int(_, x) => x < b.i
    case Dbl(x) => x < b.r
    case Str(x) => StrLess(x, b.s)
  }

  /** Value's operator<: false on NULL, an exception on two different alternatives. */
  function ValueLess(a: Value, b: Value): Result<bool> {
    if a.Null? || b.Null? then Ok(false)
    else if SameVariant(a, b) then Ok(RawLess(a, b))
    else Err
  }

  /** NULL-aware equality, for grouping and DISTINCT. */
  predicate IsIdenticalTo(a: Value, b: Value) {
    if a.Null? || b.Null? then a.Null? && b.Null? else a == b
  }

  // ---- Rendering ----

  function Digit(d: nat): char
    requires d < 10
  {
    '0' + d as char
  }

  function NatToString(n: nat): string {
    if n < 10 then [Digit(n)] else NatToString(n / 10) + [Digit(n % 10)]
  }

  function IntToString(i: int): string {
    if i < 0 then "-" + NatToString(-i) else NatToString(i)
  }

  /** Exactly `width` decimal digits of n. */
  function PaddedDigits(n: nat, width: nat): string {
    if width == 0 then [] else PaddedDigits(n / 10, width - 1) + [Digit(n % 10)]
  }

  /** |r| in millionths, rounded to nearest, ties to even. */
  function Millionths(r: real): nat {
    var x := (if r < 0.0 then -r else r) * 1000000.0;
    var f := x.Floor;
    var rest := x - f as real;
    if rest < 0.5 || (rest == 0.5 && f % 2 == 0) then f else f + 1
  }

  /** Six decimals, as std::to_string prints a double. */
  function RealToString(r: real): string {
    var m := Millionths(r);
    (if r < 0.0 then "-" else "") + NatToString(m / 1000000) + "." + PaddedDigits(m % 1000000, 6)
  }

  function ToString(v: Value): string {
    match v
    case Null => "NULL"
    case Bool(b) => if b then "true" else "false"
    case Int(_, i) => IntToString(i)
    case Dbl(r) => RealToString(r)
    case Str(s) => s
  }

  // ---- Schema lookup ----

  function LowerChar(c: char): char {
    if 'A' <= c <= 'Z' then c - 'A' + 'a' else c
  }

  function UpperChar(c: char): char {
    if 'a' <= c <= 'z' then c - 'a' + 'A' else c
  }

  function Lower(s: string): (r: string)
    ensures |r| == |s|
  {
    seq(|s|, i requires 0 <= i < |s| => LowerChar(s[i]))
  }

  function Upper(s: string): (r: string)
    ensures |r| == |s|
  {
    seq(|s|, i requires 0 <= i < |s| => UpperChar(s[i]))
  }

  predicate SameName(a: string, b: string) {
    Lower(a) == Lower(b)
  }

  predicate DotFree(s: string) {
    '.' !in s
  }

  lemma LowerKeepsDots(s: string)
    ensures '.' in Lower(s) <==> '.' in s
  {
    assert forall k :: 0 <= k < |s| ==> (Lower(s)[k] == '.' <==> s[k] == '.');
  }

  lemma OnlyStarMatchesStar(s: string)
    ensures SameName(s, "*") ==> s == "*"
  {
    if SameName(s, "*") {
      assert |s| == |Lower(s)| == |Lower("*")| == 1;
      assert LowerChar(s[0]) == Lower(s)[0] == Lower("*")[0] == '*';
    }
  }

  /** Position of the first column with this name, case-insensitively, or -1. */
  function IndexOf(schema: Schema, name: string): (idx: int)
    ensures -1 <= idx < |schema|
    ensures idx >= 0 ==> SameName(schema[idx].name, name) && forall j :: 0 <= j < idx ==> !SameName(schema[j].name, name)
    ensures idx < 0 ==> forall j :: 0 <= j < |schema| ==> !SameName(schema[j].name, name)
  {
    if schema == [] then -1
    else if SameName(schema[0].name, name) then 0
    else
      var rest := IndexOf(schema[1..], name);
      if rest < 0 then -1 else
      assert forall j :: 1 <= j < |schema| ==> schema[j] == schema[1..][j - 1];
      rest + 1
  }
}
