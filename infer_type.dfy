/**
 * The type inference of `TupleMetadata.InferType`: a recursive walk over an expression that
 * gives every node a Java type, and decides whether it must be a solver decision variable.
 * The only state it reads is the map from view name to field name to type.
 */
module InferType {
  import opened Wrappers
  import opened JavaTypes
  import opened Ir

  /** View name to field name to type: the registry's `viewTupleTypeParameters`. */
  type ViewTypes = map<string, map<string, JavaType>>

  /** `typeFromColumn(IRColumn)`: the declared kind alone decides; controllability is not consulted. */
  function TypeFromColumn(c: Column): (t: JavaType)
    ensures !IsVar(t)
    ensures t == String <==> c.kind == STRING
    ensures t == Boolean <==> c.kind == BOOL
    ensures t == Long <==> c.kind == LONG
    ensures t == Integer <==> c.kind == INT
    ensures t == Float <==> c.kind == FLOAT
    ensures t == ObjectArray <==> c.kind == ARRAY
  {
    match c.kind
    case STRING => String
    case BOOL => Boolean
    case LONG => Long
    case INT => Integer
    case FLOAT => Float
    case ARRAY => ObjectArray
  }

  /**
   * `typeFromColumn(ColumnIdentifier)`: a controllable column is an `IntVar`; a column of a
   * recorded view takes the view's entry for the field, which is `null` when the field is not
   * there; any other column takes its declared kind's type.
   */
  function TypeFromColumnRef(vt: ViewTypes, tableName: string, field: Column): (r: Inferred)
    ensures r.None? <==> !field.controllable && tableName in vt && field.name !in vt[tableName]
    ensures IsVarType(r) <==>
              field.controllable || (tableName in vt && field.name in vt[tableName] && IsVar(vt[tableName][field.name]))
    ensures field.controllable ==> r == Some(IntVar)
    ensures !field.controllable && tableName in vt && field.name in vt[tableName] ==> r == Some(vt[tableName][field.name])
    ensures !field.controllable && tableName !in vt ==> r == Some(TypeFromColumn(field))
  {
    if field.controllable then Some(IntVar)
    else if tableName in vt then
      (if field.name in vt[tableName] then Some(vt[tableName][field.name]) else None)
    else Some(TypeFromColumn(field))
  }

  /** `visitLiteral`: the four value classes the visitor knows, each a known (non-variable) type. */
  function LiteralType(v: LiteralValue): (r: Result<Inferred, Error>)
    ensures r.Failure? <==> v.OtherValue?
    ensures r.Success? ==> r.value.Some? && !IsVar(r.value.value)
    ensures v.StringValue? ==> r == Success(Some(String))
    ensures v.IntegerValue? ==> r == Success(Some(Integer))
    ensures v.BooleanValue? ==> r == Success(Some(Boolean))
    ensures v.LongValue? ==> r == Success(Some(Long))
  {
    match v
    case StringValue(_) => Success(Some(String))
    case IntegerValue(_) => Success(Some(Integer))
    case BooleanValue(_) => Success(Some(Boolean))
    case LongValue(_) => Success(Some(Long))
    case OtherValue => Failure(UnsupportedLiteral)
  }

  /** `visitUnaryOperator`, given the operand's type. */
  function UnaryType(op: UnaryOp, t: Inferred): (r: Result<Inferred, Error>)
    ensures r.Failure? <==> op.UnlistedUnary?
    ensures r.Failure? ==> r.error == IllegalUnaryOperator
    ensures op == Not ==> r.value.Some? && (r.value.value == BoolVar || r.value.value == Boolean)
    ensures op == Not ==> (IsVarType(r.value) <==> t == Some(BoolVar))
    ensures op == Minus || op == Plus ==> r.value == t
  {
    match op
    case Not => Success(Some(if t == Some(BoolVar) then BoolVar else Boolean))
    case Minus => Success(t)
    case Plus => Success(t)
    case UnlistedUnary(_) => Failure(IllegalUnaryOperator)
  }

  /** `visitBinaryOperatorPredicate`, given both operands' types. */
  function BinaryType(op: BinaryOp, lt: Inferred, rt: Inferred): (r: Result<Inferred, Error>)
    ensures r.Failure? <==> !IsComparison(op) && !IsArithmetic(op)
    ensures r.Failure? ==> r.error == UnsupportedOperator
    ensures r.Success? ==> r.value.Some? && (IsVarType(r.value) <==> IsVarType(lt) || IsVarType(rt))
    ensures IsComparison(op) ==> r.value.Some? && (r.value.value == BoolVar || r.value.value == Boolean)
    ensures IsArithmetic(op) ==> r.value.Some? && (r.value.value == IntVar || r.value.value == Integer)
  {
    var isVar := IsVarType(lt) || IsVarType(rt);
    if IsComparison(op) then Success(Some(if isVar then BoolVar else Boolean))
    else if IsArithmetic(op) then Success(Some(IntOf(isVar)))
    else Failure(UnsupportedOperator)
  }

  /** The one-argument branch of `functionType`, given the argument's type. */
  function OneArgumentType(f: Function, t: Inferred): (r: Result<Inferred, Error>)
    ensures r.Success? <==> f in {Sum, Count, Max, Min} || IsBooleanAggregate(f)
    ensures r.Failure? ==> r.error == IllegalFunction
    ensures f == Sum || f == Count ==>
              r.value.Some? && (r.value.value == IntVar || r.value.value == Long) && (IsVarType(r.value) <==> IsVarType(t))
    ensures f == Max || f == Min ==> r.value == t
    ensures IsBooleanAggregate(f) ==>
              r.value.Some? && (r.value.value == BoolVar || r.value.value == Boolean) && (IsVarType(r.value) <==> IsVarType(t))
  {
    match f
    case Sum => Success(Some(if IsVarType(t) then IntVar else Long))
    case Count => Success(Some(if IsVarType(t) then IntVar else Long))
    case Max => Success(t)
    case Min => Success(t)
    case _ => if IsBooleanAggregate(f) then Success(Some(BoolOf(t))) else Failure(IllegalFunction)
  }

  /**
   * The errors inference can raise: the operator, function, sub-query and unsupported-literal
   * errors. Neither the `ModelException` of a missing alias nor a missing lookup entry is among them.
   */
  predicate IsInferenceError(e: Error) {
    e in {UnsupportedOperator, UnsupportedSubquery, IllegalUnaryOperator, IllegalFunction, UnsupportedLiteral}
  }

  /**
   * `InferType.visit`. Operands are inferred left to right before the operator is examined, so
   * the first failing operand's error is the one raised. A function call of arity two or four
   * never looks at its arguments.
   */
  function Infer(vt: ViewTypes, e: Expr): (r: Result<Inferred, Error>)
    ensures r.Failure? ==> IsInferenceError(r.error) && !r.error.IsModelException()
    decreases e
  {
    match e
    case ColumnRef(t, f) => Success(TypeFromColumnRef(vt, t, f))
    case Literal(v) => LiteralType(v)
    case Unary(op, arg) =>
      var t :- Infer(vt, arg);
      UnaryType(op, t)
    case Binary(op, l, r) =>
      var lt :- Infer(vt, l);
      var rt :- Infer(vt, r);
      BinaryType(op, lt, rt)
    case Call(f, args) =>
      if |args| == 1 then
        var t :- Infer(vt, args[0]);
        OneArgumentType(f, t)
      else if |args| == 2 then
        (if f == ScalarProduct then Success(Some(IntVar)) else Failure(IllegalFunction))
      else if |args| == 4 then
        (if f == CapacityConstraint then Success(Some(BoolVar)) else Failure(IllegalFunction))
      else Failure(IllegalFunction)
    case Exists(arg) =>
      var t :- Infer(vt, arg);
      Success(Some(BoolOf(t)))
    case IsNull(arg) =>
      var t :- Infer(vt, arg);
      Success(Some(BoolOf(t)))
    case IsNotNull(arg) =>
      var t :- Infer(vt, arg);
      Success(Some(BoolOf(t)))
    case ListComprehension(sel) =>
      if |sel| == 1 then Infer(vt, sel[0]) else Failure(UnsupportedSubquery)
    case GroupByComprehension(sel) =>
      if |sel| == 1 then Infer(vt, sel[0]) else Failure(UnsupportedSubquery)
  }

  // ---------------------------------------------------------------------------------------
  // The rules, one node kind at a time, stated on Infer itself.
  // ---------------------------------------------------------------------------------------

  /**
   * A comparison or logical operator gives a boolean tag, an arithmetic operator an integer
   * tag, and in both families the result is a variable exactly when one operand is.
   */
  lemma BinaryRule(vt: ViewTypes, op: BinaryOp, l: Expr, r: Expr)
    ensures Infer(vt, Binary(op, l, r)).Success? <==>
              Infer(vt, l).Success? && Infer(vt, r).Success? && (IsComparison(op) || IsArithmetic(op))
    ensures Infer(vt, l).Failure? ==> Infer(vt, Binary(op, l, r)) == Infer(vt, l).PropagateFailure()
    ensures Infer(vt, Binary(op, l, r)).Success? ==>
              (IsVarType(Infer(vt, Binary(op, l, r)).value) <==>
                 IsVarType(Infer(vt, l).value) || IsVarType(Infer(vt, r).value))
    ensures Infer(vt, Binary(op, l, r)).Success? && IsComparison(op) ==>
              Infer(vt, Binary(op, l, r)).value in {Some(BoolVar), Some(Boolean)}
    ensures Infer(vt, Binary(op, l, r)).Success? && IsArithmetic(op) ==>
              Infer(vt, Binary(op, l, r)).value in {Some(IntVar), Some(Integer)}
  {
  }

  /** `NOT` is a `BoolVar` only on a `BoolVar` operand (an `IntVar` operand gives `Boolean`); `MINUS` and `PLUS` keep the type. */
  lemma UnaryRule(vt: ViewTypes, op: UnaryOp, arg: Expr)
    ensures Infer(vt, Unary(op, arg)).Success? <==> Infer(vt, arg).Success? && !op.UnlistedUnary?
    ensures Infer(vt, arg).Failure? ==> Infer(vt, Unary(op, arg)) == Infer(vt, arg).PropagateFailure()
    ensures Infer(vt, arg).Success? && op == Not ==>
              Infer(vt, Unary(op, arg)).value == Some(if Infer(vt, arg).value == Some(BoolVar) then BoolVar else Boolean)
    ensures Infer(vt, arg) == Success(Some(IntVar)) && op == Not ==> Infer(vt, Unary(op, arg)) == Success(Some(Boolean))
    ensures Infer(vt, arg).Success? && (op == Minus || op == Plus) ==> Infer(vt, Unary(op, arg)) == Infer(vt, arg)
  {
  }

  /** Exists, is-null and is-not-null follow the variable-ness of their argument. */
  lemma PredicateRule(vt: ViewTypes, arg: Expr)
    ensures Infer(vt, Exists(arg)).Success? <==> Infer(vt, arg).Success?
    ensures Infer(vt, arg).Failure? ==> Infer(vt, Exists(arg)) == Infer(vt, arg).PropagateFailure()
    ensures Infer(vt, IsNull(arg)) == Infer(vt, Exists(arg))
    ensures Infer(vt, IsNotNull(arg)) == Infer(vt, Exists(arg))
    ensures Infer(vt, Exists(arg)).Success? ==>
              Infer(vt, Exists(arg)).value in {Some(BoolVar), Some(Boolean)} &&
              (IsVarType(Infer(vt, Exists(arg)).value) <==> IsVarType(Infer(vt, arg).value))
  {
  }

  /** The function-call rules, by arity and function. */
  lemma CallRule(vt: ViewTypes, f: Function, args: seq<Expr>)
    ensures |args| !in {1, 2, 4} ==> Infer(vt, Call(f, args)) == Failure(IllegalFunction)
    ensures |args| == 2 ==> Infer(vt, Call(f, args)) == if f == ScalarProduct then Success(Some(IntVar)) else Failure(IllegalFunction)
    ensures |args| == 4 ==> Infer(vt, Call(f, args)) == if f == CapacityConstraint then Success(Some(BoolVar)) else Failure(IllegalFunction)
    ensures |args| == 1 && Infer(vt, args[0]).Success? && (f == Sum || f == Count) ==>
              Infer(vt, Call(f, args)) == Success(Some(if IsVarType(Infer(vt, args[0]).value) then IntVar else Long))
    ensures |args| == 1 && Infer(vt, args[0]).Success? && (f == Max || f == Min) ==>
              Infer(vt, Call(f, args)) == Infer(vt, args[0])
    ensures |args| == 1 && Infer(vt, args[0]).Success? && IsBooleanAggregate(f) ==>
              Infer(vt, Call(f, args)) == Success(Some(BoolOf(Infer(vt, args[0]).value)))
    ensures |args| == 1 && Infer(vt, args[0]).Success? && (f.UnlistedFunction? || f == ScalarProduct || f == CapacityConstraint) ==>
              Infer(vt, Call(f, args)) == Failure(IllegalFunction)
  {
  }

  /** A sub-query has the type of its single select expression, and no type at all otherwise. */
  lemma ComprehensionRule(vt: ViewTypes, sel: seq<Expr>)
    ensures |sel| == 1 ==> Infer(vt, ListComprehension(sel)) == Infer(vt, sel[0])
    ensures |sel| != 1 ==> Infer(vt, ListComprehension(sel)) == Failure(UnsupportedSubquery)
    ensures Infer(vt, GroupByComprehension(sel)) == Infer(vt, ListComprehension(sel))
  {
  }

  /**
   * Column references never fail. A controllable column is always `IntVar`, whatever its declared
   * kind; otherwise a recorded view's field type, possibly `null`; otherwise the declared kind's type.
   */
  lemma ColumnRule(vt: ViewTypes, t: string, c: Column)
    ensures Infer(vt, ColumnRef(t, c)).Success?
    ensures c.controllable ==> Infer(vt, ColumnRef(t, c)).value == Some(IntVar)
    ensures !c.controllable && t in vt ==>
              Infer(vt, ColumnRef(t, c)).value == if c.name in vt[t] then Some(vt[t][c.name]) else None
    ensures !c.controllable && t !in vt ==> Infer(vt, ColumnRef(t, c)).value == Some(TypeFromColumn(c))
  {
  }

  // ---------------------------------------------------------------------------------------
  // Whole-tree properties.
  // ---------------------------------------------------------------------------------------

  /**
   * Whether inference fails, and with which error, does not depend on the recorded views: a
   * column reference never fails, and nothing else reads the view map.
   */
  lemma {:induction false} FailureIgnoresViews(vt1: ViewTypes, vt2: ViewTypes, e: Expr)
    ensures Infer(vt1, e).Failure? <==> Infer(vt2, e).Failure?
    ensures Infer(vt1, e).Failure? ==> Infer(vt1, e).error == Infer(vt2, e).error
    decreases e
  {
    match e
    case ColumnRef(_, _) =>
    case Literal(_) =>
    case Unary(_, arg) => FailureIgnoresViews(vt1, vt2, arg);
    case Binary(_, l, r) =>
      FailureIgnoresViews(vt1, vt2, l);
      FailureIgnoresViews(vt1, vt2, r);
    case Call(_, args) =>
      if |args| == 1 {
        FailureIgnoresViews(vt1, vt2, args[0]);
      }
    case Exists(arg) => FailureIgnoresViews(vt1, vt2, arg);
    case IsNull(arg) => FailureIgnoresViews(vt1, vt2, arg);
    case IsNotNull(arg) => FailureIgnoresViews(vt1, vt2, arg);
    case ListComprehension(sel) =>
      if |sel| == 1 {
        FailureIgnoresViews(vt1, vt2, sel[0]);
      }
    case GroupByComprehension(sel) =>
      if |sel| == 1 {
        FailureIgnoresViews(vt1, vt2, sel[0]);
      }
  }

  /** Recording a view `t` does not change the type of an expression that never refers to `t`. */
  lemma {:induction false} UnreferencedViewIrrelevant(vt: ViewTypes, t: string, m: map<string, JavaType>, e: Expr)
    requires NoReferenceTo(e, t)
    ensures Infer(vt[t := m], e) == Infer(vt, e)
    decreases e
  {
    match e
    case ColumnRef(_, _) =>
    case Literal(_) =>
    case Unary(_, arg) => UnreferencedViewIrrelevant(vt, t, m, arg);
    case Binary(_, l, r) =>
      UnreferencedViewIrrelevant(vt, t, m, l);
      UnreferencedViewIrrelevant(vt, t, m, r);
    case Call(_, args) =>
      if |args| == 1 {
        UnreferencedViewIrrelevant(vt, t, m, args[0]);
      }
    case Exists(arg) => UnreferencedViewIrrelevant(vt, t, m, arg);
    case IsNull(arg) => UnreferencedViewIrrelevant(vt, t, m, arg);
    case IsNotNull(arg) => UnreferencedViewIrrelevant(vt, t, m, arg);
    case ListComprehension(sel) =>
      if |sel| == 1 {
        UnreferencedViewIrrelevant(vt, t, m, sel[0]);
      }
    case GroupByComprehension(sel) =>
      if |sel| == 1 {
        UnreferencedViewIrrelevant(vt, t, m, sel[0]);
      }
  }

  /**
   * The places a decision variable can come from: a controllable column, a view field recorded
   * as a variable, and the two global constraints. `VarFree` rules all of them out.
   */
  predicate VarFree(vt: ViewTypes, e: Expr) {
    match e
    case ColumnRef(t, f) => !f.controllable && (t in vt && f.name in vt[t] ==> !IsVar(vt[t][f.name]))
    case Literal(_) => true
    case Unary(_, arg) => VarFree(vt, arg)
    case Binary(_, l, r) => VarFree(vt, l) && VarFree(vt, r)
    case Call(f, args) => f != ScalarProduct && f != CapacityConstraint && forall a :: a in args ==> VarFree(vt, a)
    case Exists(arg) => VarFree(vt, arg)
    case IsNull(arg) => VarFree(vt, arg)
    case IsNotNull(arg) => VarFree(vt, arg)
    case ListComprehension(sel) => forall a :: a in sel ==> VarFree(vt, a)
    case GroupByComprehension(sel) => forall a :: a in sel ==> VarFree(vt, a)
  }

  /** Variable-ness is never invented: without a source of variables, the type is a known one. */
  lemma {:induction false} VarFreeIsKnown(vt: ViewTypes, e: Expr)
    requires VarFree(vt, e)
    requires Infer(vt, e).Success?
    ensures !IsVarType(Infer(vt, e).value)
    decreases e
  {
    match e
    case ColumnRef(_, _) =>
    case Literal(_) =>
    case Unary(_, arg) => VarFreeIsKnown(vt, arg);
    case Binary(_, l, r) =>
      VarFreeIsKnown(vt, l);
      VarFreeIsKnown(vt, r);
    case Call(_, args) =>
      if |args| == 1 {
        VarFreeIsKnown(vt, args[0]);
      }
    case Exists(arg) => VarFreeIsKnown(vt, arg);
    case IsNull(arg) => VarFreeIsKnown(vt, arg);
    case IsNotNull(arg) => VarFreeIsKnown(vt, arg);
    case ListComprehension(sel) => VarFreeIsKnown(vt, sel[0]);
    case GroupByComprehension(sel) => VarFreeIsKnown(vt, sel[0]);
  }
}
