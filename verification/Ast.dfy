/** Expression and SELECT nodes. Source locations are not kept. */
module Ast {
  import opened Results
  import opened Types

  datatype UnaryOp = NEGATE | PLUS | NOT

  datatype BinaryOp =
    | ADD | SUB | MUL | DIV | MOD | POW
    | EQ | NEQ | LT | LTE | GT | GTE
    | AND | OR
    | CONCAT
    | LIKE | ILIKE
    | JSON_ARROW | JSON_ARROW2

  datatype CaseWhen = CaseWhen(condition: Expr, result: Expr)

  datatype Expr =
    | Literal(value: Value)
    | ColumnRef(schema: Option<string>, table: Option<string>, column: string)
    | Unary(uop: UnaryOp, operand: Expr)
    | Binary(op: BinaryOp, left: Expr, right: Expr)
    | FunctionCall(name: string, args: seq<Expr>, distinct: bool, star: bool)
    | Case(subject: Option<Expr>, whens: seq<CaseWhen>, els: Option<Expr>)
    | In(expr: Expr, values: seq<Expr>, negated: bool)
    | Between(expr: Expr, low: Expr, high: Expr, negated: bool)
    | IsNull(expr: Expr, negated: bool)

  predicate IsAggregateName(name: string) {
    name == "SUM" || name == "COUNT" || name == "AVG" || name == "MIN" || name == "MAX"
    || name == "STDDEV" || name == "VARIANCE"
  }

  predicate IsAggregate(e: Expr) {
    e.FunctionCall? && IsAggregateName(e.name)
  }

  function Column(name: string): Expr {
    ColumnRef(None, None, name)
  }

  datatype NullsOrder = NULLS_FIRST | NULLS_LAST | UNSPECIFIED

  datatype SortKey = SortKey(expr: Expr, asc: bool, nulls: NullsOrder)

  datatype JoinType = INNER | LEFT | RIGHT | FULL | CROSS

  datatype SelectItem = SelectItem(expr: Expr, alias: Option<string>)

  datatype LimitClause = LimitClause(limit: Option<Expr>, offset: Option<Expr>)

  datatype SetOp = UNION | UNION_ALL | INTERSECT | EXCEPT

  datatype TableRefNode =
    | TableRef(name: string)
    | AliasedRef(ref: TableRefNode, alias: string)
    | JoinRef(jtype: JoinType, jleft: TableRefNode, jright: TableRefNode, condition: Option<Expr>)
    | SubqueryRef(subquery: SelectStmt)

  datatype SetOpTail = SetOpTail(op: SetOp, rhs: SelectStmt)

  datatype SelectStmt = SelectStmt(
    distinct: bool,
    selectList: seq<SelectItem>,
    from: seq<TableRefNode>,  // empty without a FROM clause
    where: Option<Expr>,
    groupBy: Option<seq<Expr>>,
    having: Option<Expr>,
    orderBy: Option<seq<SortKey>>,
    limit: Option<LimitClause>,
    setOp: Option<SetOpTail>
  )
}
