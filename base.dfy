/** Option and Result, used for Java's null and for the exceptions the compiler stage throws. */
module Wrappers {

  /** `None` stands for a Java `null` reference. */
  datatype Option<+T> = None | Some(value: T)

  datatype Result<+T, +E> = Success(value: T) | Failure(error: E) {
    predicate IsFailure() {
      Failure?
    }

    function PropagateFailure<U>(): Result<U, E>
      requires Failure?
    {
      Failure(error)
    }

    function Extract(): T
      requires Success?
    {
      value
    }
  }
}

/** Facts about maps that the verifier is slow to find on its own. */
module Maps {
  /** `Map.computeIfAbsent(s, k -> new HashMap<>())`: the scope's map, or a fresh empty one. */
  function ComputeIfAbsent<V>(m: map<string, map<string, V>>, s: string): (r: map<string, V>)
    ensures s in m ==> r == m[s]
    ensures s !in m ==> r == map[]
  {
    if s in m then m[s] else map[]
  }

  /** Writing a key twice keeps only the second write. */
  lemma OverwriteTwice<K, V>(m: map<K, V>, k: K, a: V, b: V)
    ensures m[k := a][k := b] == m[k := b]
  {
  }

  /** Two maps of scopes with the same scopes, and in each scope the same fields. */
  ghost predicate SameFields<A, B>(ts: map<string, map<string, A>>, ix: map<string, map<string, B>>) {
    && ts.Keys == ix.Keys
    && forall s :: s in ts ==> ts[s].Keys == ix[s].Keys
  }

  /** Two maps of scopes with the same scopes, each scope of the first having no field the second lacks. */
  ghost predicate FieldsCovered<A, B>(ts: map<string, map<string, A>>, ix: map<string, map<string, B>>) {
    && ts.Keys == ix.Keys
    && forall s :: s in ts ==> ts[s].Keys <= ix[s].Keys
  }

  lemma SameFieldsAdd<A, B>(ts: map<string, map<string, A>>, ix: map<string, map<string, B>>,
                            s: string, a: map<string, A>, b: map<string, B>)
    requires SameFields(ts, ix) && a.Keys == b.Keys
    ensures SameFields(ts[s := a], ix[s := b])
  {
  }

  lemma FieldsCoveredAdd<A, B>(ts: map<string, map<string, A>>, ix: map<string, map<string, B>>,
                               s: string, a: map<string, A>, b: map<string, B>)
    requires FieldsCovered(ts, ix) && a.Keys <= b.Keys
    ensures FieldsCovered(ts[s := a], ix[s := b])
  {
  }
}

/** The Java types a tuple field can be given, and the exceptions of the type-resolution stage. */
module JavaTypes {
  import opened Wrappers

  /**
   * The tags the inference hands out. `IntVar` and `BoolVar` are the solver's decision
   * variables; all other tags are values known when the model is built.
   */
  datatype JavaType = String | Integer | Long | Boolean | Float | ObjectArray | IntVar | BoolVar

  /**
   * `JavaType.isVar`. Its definition is not part of this model; it is taken to hold exactly
   * for the two decision-variable tags.
   */
  predicate IsVar(t: JavaType) {
    t == IntVar || t == BoolVar
  }

  /** A type as the inference returns it: `None` is the `null` a missing view field yields. */
  type Inferred = Option<JavaType>

  /** `isVar` applied to a possibly-null type: `null` is taken not to be a variable. */
  predicate IsVarType(t: Inferred) {
    t.Some? && IsVar(t.value)
  }

  /** The boolean tag that follows the variable-ness of `t`. */
  function BoolOf(t: Inferred): (r: JavaType)
    ensures IsVar(r) <==> IsVarType(t)
    ensures r == BoolVar || r == Boolean
  {
    if IsVarType(t) then BoolVar else Boolean
  }

  /** The integer tag that follows a variable-ness flag. */
  function IntOf(isVar: bool): (r: JavaType)
    ensures IsVar(r) <==> isVar
    ensures r == IntVar || r == Integer
  {
    if isVar then IntVar else Integer
  }

  /** The exceptions raised by the stage, one constructor per throw site kind. */
  datatype Error =
    | UnsupportedOperator    // UnsupportedOperationException: binary operator outside both families
    | UnsupportedSubquery    // UnsupportedOperationException: sub-query without exactly one select expression
    | IllegalUnaryOperator   // IllegalArgumentException: unary operator other than NOT, MINUS, PLUS
    | IllegalFunction        // IllegalArgumentException: unknown function or arity
    | UnsupportedLiteral     // the default `visitLiteral` of the visitor base class, which is not part of this model
    | NonColumnNeedsAlias    // ModelException: a view field that is neither aliased nor a bare column
    | MissingEntry           // NullPointerException: lookup of an unknown scope or field
  {
    /** The one error raised as a `ModelException`: a view output that is neither aliased nor a bare column. */
    predicate IsModelException() {
      NonColumnNeedsAlias?
    }
  }
}

/** `String.toUpperCase(Locale.US)` restricted to ASCII letters. */
module Strings {

  function UpperChar(c: char): char {
    if 'a' <= c <= 'z' then (c as int - 32) as char else c
  }

  predicate IsUpperCased(s: string) {
    forall i :: 0 <= i < |s| ==> UpperChar(s[i]) == s[i]
  }

  function Upper(s: string): (r: string)
    ensures |r| == |s|
    ensures IsUpperCased(r)
    ensures forall i :: 0 <= i < |s| ==> r[i] == UpperChar(s[i])
  {
    seq(|s|, i requires 0 <= i < |s| => UpperChar(s[i]))
  }

  /** Normalising twice is normalising once, so a view name that is already upper case is its own key. */
  lemma UpperIdempotent(s: string)
    ensures Upper(Upper(s)) == Upper(s)
    ensures IsUpperCased(s) ==> Upper(s) == s
  {
  }
}
