/**
 * The intermediate representation the type inference walks: the expression nodes, the
 * relational columns they refer to, and the tables that are registered.
 */
module Ir {
  import opened Wrappers

  /** The declared scalar kind of a relational column (`IRColumn.getType()`). */
  datatype ColumnKind = STRING | BOOL | LONG | INT | FLOAT | ARRAY

  /** A column of a table: its name, its declared kind, and whether the solver assigns it. */
  datatype Column = Column(name: string, kind: ColumnKind, controllable: bool)

  /**
   * A table as registration sees it: the plain name, the aliased name under which its scope is
   * recorded, and its columns in iteration order.
   */
  datatype Table = Table(name: string, aliasedName: string, columns: seq<Column>)

  datatype BinaryOp =
    | Equal | NotEqual | LessThan | LessThanOrEqual | GreaterThan | GreaterThanOrEqual
    | In | Or | And | Contains
    | Add | Subtract | Multiply | Divide | Modulus
    | UnlistedBinary(name: string)  // any operator outside the two families below

  /** The operators whose result is a truth value. */
  predicate IsComparison(op: BinaryOp) {
    op in {Equal, NotEqual, LessThan, LessThanOrEqual, GreaterThan, GreaterThanOrEqual, In, Or, And, Contains}
  }

  /** The operators whose result is a number. */
  predicate IsArithmetic(op: BinaryOp) {
    op in {Add, Subtract, Multiply, Divide, Modulus}
  }

  datatype UnaryOp = Not | Minus | Plus | UnlistedUnary(name: string)

  datatype Function =
    | Sum | Count | Max | Min
    | Any | All | AllEqual | AllDifferent | Increasing
    | ScalarProduct | CapacityConstraint
    | UnlistedFunction(name: string)

  /** The one-argument functions whose result is a truth value. */
  predicate IsBooleanAggregate(f: Function) {
    f in {Any, All, AllEqual, AllDifferent, Increasing}
  }

  /** A literal's value, by the Java class it has at run time. */
  datatype LiteralValue =
    | StringValue(s: string)
    | IntegerValue(i: int)
    | BooleanValue(b: bool)
    | LongValue(l: int)
    | OtherValue  // any other class, which the visitor does not handle

  /**
   * An expression node. Comprehensions keep only the select expressions of their head, which is
   * all the inference looks at.
   */
  datatype Expr =
    | ColumnRef(tableName: string, field: Column)
    | Literal(value: LiteralValue)
    | Unary(uop: UnaryOp, arg: Expr)
    | Binary(bop: BinaryOp, left: Expr, right: Expr)
    | Call(fn: Function, args: seq<Expr>)
    | Exists(arg: Expr)
    | IsNull(arg: Expr)
    | IsNotNull(arg: Expr)
    | ListComprehension(selectExprs: seq<Expr>)
    | GroupByComprehension(selectExprs: seq<Expr>)

  /** An output expression of a view, with the alias `Expr.getAlias()` gives it. */
  datatype Projection = Projection(expr: Expr, alias: Option<string>)

  /** True when no column reference anywhere in `e` names the table `t`. */
  predicate NoReferenceTo(e: Expr, t: string) {
    match e
    case ColumnRef(tableName, _) => tableName != t
    case Literal(_) => true
    case Unary(_, arg) => NoReferenceTo(arg, t)
    case Binary(_, l, r) => NoReferenceTo(l, t) && NoReferenceTo(r, t)
    case Call(_, args) => forall a :: a in args ==> NoReferenceTo(a, t)
    case Exists(arg) => NoReferenceTo(arg, t)
    case IsNull(arg) => NoReferenceTo(arg, t)
    case IsNotNull(arg) => NoReferenceTo(arg, t)
    case ListComprehension(sel) => forall a :: a in sel ==> NoReferenceTo(a, t)
    case GroupByComprehension(sel) => forall a :: a in sel ==> NoReferenceTo(a, t)
  }
}
