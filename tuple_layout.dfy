/**
 * What the registry records for one scope, as functions of the registered columns or view
 * outputs. Each function follows the per-element loop of the registration it specifies, so
 * the registration methods are proved against them; the lemmas below state what the layout
 * promises: which keys are recorded, which position each field gets, and when the positions
 * are dense.
 */
module TupleLayout {
  import opened Wrappers
  import opened JavaTypes
  import opened Ir
  import opened Strings
  import opened InferType

  /** `Map.putIfAbsent`: an existing entry is never overwritten. */
  function PutIfAbsent<V>(m: map<string, V>, k: string, v: V): (r: map<string, V>)
    ensures r.Keys == m.Keys + {k}
    ensures forall j :: j in m ==> r[j] == m[j]
    ensures k !in m ==> r[k] == v
  {
    if k in m then m else m[k := v]
  }

  /** `Map.compute(k, (k, v) -> t)`: the new value replaces the old, and a `null` one removes the key. */
  function Compute(m: map<string, JavaType>, k: string, t: Inferred): (r: map<string, JavaType>)
    ensures r.Keys == if t.Some? then m.Keys + {k} else m.Keys - {k}
    ensures t.Some? ==> r[k] == t.value
    ensures forall j :: j in m && j != k ==> r[j] == m[j]
  {
    if t.Some? then m[k := t.value] else m - {k}
  }

  // ---------------------------------------------------------------------------------------
  // Tables
  // ---------------------------------------------------------------------------------------

  function ColumnNames(cols: seq<Column>): set<string> {
    set i | 0 <= i < |cols| :: cols[i].name
  }

  predicate DistinctNames(cols: seq<Column>) {
    forall i, j :: 0 <= i < j < |cols| ==> cols[i].name != cols[j].name
  }

  /** Column `i` is the first column with its name. */
  predicate FirstWithName(cols: seq<Column>, i: int)
    requires 0 <= i < |cols|
  {
    forall k :: 0 <= k < i ==> cols[k].name != cols[i].name
  }

  /** The field-to-type map a table scope gets: each column's declared-kind type, first name wins. */
  function TableTypes(cols: seq<Column>): (m: map<string, JavaType>)
    ensures m.Keys == ColumnNames(cols)
    decreases |cols|
  {
    if cols == [] then map[]
    else
      var n := |cols| - 1;
      assert ColumnNames(cols) == ColumnNames(cols[..n]) + {cols[n].name};
      PutIfAbsent(TableTypes(cols[..n]), cols[n].name, TypeFromColumn(cols[n]))
  }

  /** The field-to-position map a table scope gets: the counter value when the column was visited, first name wins. */
  function TableIndex(cols: seq<Column>): (m: map<string, nat>)
    ensures m.Keys == ColumnNames(cols)
    ensures forall k :: k in m ==> m[k] < |cols|
    decreases |cols|
  {
    if cols == [] then map[]
    else
      var n := |cols| - 1;
      assert ColumnNames(cols) == ColumnNames(cols[..n]) + {cols[n].name};
      PutIfAbsent(TableIndex(cols[..n]), cols[n].name, n)
  }

  /** The list registration returns: each column's declared-kind type, in column order. */
  function TableTupleTypes(cols: seq<Column>): (r: seq<JavaType>)
    ensures |r| == |cols|
    decreases |cols|
  {
    if cols == [] then [] else TableTupleTypes(cols[..|cols| - 1]) + [TypeFromColumn(cols[|cols| - 1])]
  }

  lemma {:induction false} TableTupleTypesAt(cols: seq<Column>)
    ensures forall i :: 0 <= i < |cols| ==> TableTupleTypes(cols)[i] == TypeFromColumn(cols[i])
    decreases |cols|
  {
    if cols != [] {
      var n := |cols| - 1;
      TableTupleTypesAt(cols[..n]);
      assert forall i :: 0 <= i < n ==> cols[..n][i] == cols[i];
    }
  }

  /** Recording column `i` extends the list and the maps of the columns before it. */
  lemma TableExtend(cols: seq<Column>, i: nat)
    requires i < |cols|
    ensures TableTupleTypes(cols[..i + 1]) == TableTupleTypes(cols[..i]) + [TypeFromColumn(cols[i])]
    ensures TableTypes(cols[..i + 1]) == PutIfAbsent(TableTypes(cols[..i]), cols[i].name, TypeFromColumn(cols[i]))
    ensures TableIndex(cols[..i + 1]) == PutIfAbsent(TableIndex(cols[..i]), cols[i].name, i)
  {
    assert cols[..i + 1][..i] == cols[..i];
  }

  /**
   * The first column with a given name decides both its type and its position: the declared
   * kind's type (never a decision variable, even for a controllable column) and its place in
   * column order.
   */
  lemma {:induction false} TableFirstWins(cols: seq<Column>, i: int)
    requires 0 <= i < |cols| && FirstWithName(cols, i)
    ensures TableIndex(cols)[cols[i].name] == i
    ensures TableTypes(cols)[cols[i].name] == TypeFromColumn(cols[i])
    decreases |cols|
  {
    var n := |cols| - 1;
    var prefix := cols[..n];
    if i < n {
      assert FirstWithName(prefix, i);
      TableFirstWins(prefix, i);
    } else {
      assert cols[i].name !in ColumnNames(prefix);
    }
  }

  /** A table scope never records a decision-variable type, not even for a controllable column. */
  lemma {:induction false} TableTypesKnown(cols: seq<Column>)
    ensures forall k :: k in TableTypes(cols) ==> !IsVar(TableTypes(cols)[k])
    decreases |cols|
  {
    if cols != [] {
      TableTypesKnown(cols[..|cols| - 1]);
    }
  }

  /**
   * With distinct column names (a table's columns are keyed by name), column i has position i
   * and its declared kind's type, and the positions are exactly 0, ..., n-1.
   */
  lemma TableDense(cols: seq<Column>)
    requires DistinctNames(cols)
    ensures forall i :: 0 <= i < |cols| ==> cols[i].name in TableIndex(cols) && TableIndex(cols)[cols[i].name] == i
    ensures forall i :: 0 <= i < |cols| ==> TableTypes(cols)[cols[i].name] == TypeFromColumn(cols[i])
    ensures forall v :: v in TableIndex(cols).Values <==> 0 <= v < |cols|
  {
    var m := TableIndex(cols);
    forall i | 0 <= i < |cols|
      ensures cols[i].name in m && m[cols[i].name] == i
      ensures TableTypes(cols)[cols[i].name] == TypeFromColumn(cols[i])
    {
      TableFirstWins(cols, i);
    }
    forall v | v in m.Values
      ensures 0 <= v < |cols|
    {
      var k :| k in m && m[k] == v;
    }
    forall v | 0 <= v < |cols|
      ensures v in m.Values
    {
      assert m[cols[v].name] == v;
    }
  }

  // ---------------------------------------------------------------------------------------
  // Views
  // ---------------------------------------------------------------------------------------

  /**
   * The field name of a view output: its alias, or else the bare column's name, upper-cased.
   * Anything else is the policy author's error.
   */
  function FieldName(p: Projection): (r: Result<string, Error>)
    ensures r.Failure? <==> p.alias.None? && !p.expr.ColumnRef?
    ensures r.Failure? ==> r.error == NonColumnNeedsAlias && r.error.IsModelException()
    ensures r.Success? ==> IsUpperCased(r.value)
    ensures p.alias.Some? ==> r == Success(Upper(p.alias.value))
    ensures p.alias.None? && p.expr.ColumnRef? ==> r == Success(Upper(p.expr.field.name))
  {
    match p.alias
    case Some(a) => Success(Upper(a))
    case None =>
      if p.expr.ColumnRef? then Success(Upper(p.expr.field.name)) else Failure(NonColumnNeedsAlias)
  }

  /** A view scope being recorded: its two maps, and the type and field name of each output so far. */
  datatype ViewScope = ViewScope(types: map<string, JavaType>, index: map<string, nat>,
                                 fieldTypes: seq<Inferred>, names: seq<string>)

  /**
   * The view map inference reads while output `i` of `scope` is recorded: the scope appears
   * once the first output has been recorded.
   */
  function ViewsDuring(vt0: ViewTypes, scope: string, i: nat, types: map<string, JavaType>): ViewTypes {
    if i == 0 then vt0 else vt0[scope := types]
  }

  /**
   * Recording the outputs of a view `scope` in order: name, then type, then the position
   * (with `compute`, so a repeated name takes the later position) and the type (a `null`
   * type removes the name). The first failing output's error ends the registration.
   */
  function ViewFold(vt0: ViewTypes, scope: string, outs: seq<Projection>): (r: Result<ViewScope, Error>)
    ensures r.Success? ==> |r.value.fieldTypes| == |outs| && |r.value.names| == |outs|
    ensures r.Success? ==> r.value.types.Keys <= r.value.index.Keys
    decreases |outs|
  {
    if outs == [] then Success(ViewScope(map[], map[], [], []))
    else
      var n := |outs| - 1;
      var prev :- ViewFold(vt0, scope, outs[..n]);
      var name :- FieldName(outs[n]);
      var t :- Infer(ViewsDuring(vt0, scope, n, prev.types), outs[n].expr);
      Success(ViewScope(Compute(prev.types, name, t), prev.index[name := n], prev.fieldTypes + [t], prev.names + [name]))
  }

  /** Recording output `i` of a registration that has succeeded so far. */
  lemma ViewFoldExtend(vt0: ViewTypes, scope: string, outs: seq<Projection>, i: nat, name: string, t: Inferred)
    requires i < |outs|
    requires ViewFold(vt0, scope, outs[..i]).Success?
    requires FieldName(outs[i]) == Success(name)
    requires Infer(ViewsDuring(vt0, scope, i, ViewFold(vt0, scope, outs[..i]).value.types), outs[i].expr) == Success(t)
    ensures var p := ViewFold(vt0, scope, outs[..i]).value;
            ViewFold(vt0, scope, outs[..i + 1]) ==
              Success(ViewScope(Compute(p.types, name, t), p.index[name := i], p.fieldTypes + [t], p.names + [name]))
  {
    assert outs[..i + 1][..i] == outs[..i];
  }

  /** An output that cannot be recorded ends a registration that has succeeded so far. */
  lemma ViewFoldStop(vt0: ViewTypes, scope: string, outs: seq<Projection>, i: nat, e: Error)
    requires i < |outs|
    requires ViewFold(vt0, scope, outs[..i]).Success?
    requires OutputError(ViewsDuring(vt0, scope, i, ViewFold(vt0, scope, outs[..i]).value.types), outs[i]) == Some(e)
    ensures ViewFold(vt0, scope, outs) == Failure(e)
  {
    assert outs[..i + 1][..i] == outs[..i];
    assert ViewFold(vt0, scope, outs[..i + 1]) == Failure(e);
    ViewFoldFailurePersists(vt0, scope, outs, i + 1);
  }

  /** One step of a successful registration: the last output extends the registration of the others. */
  lemma ViewFoldStep(vt0: ViewTypes, scope: string, outs: seq<Projection>)
    requires outs != [] && ViewFold(vt0, scope, outs).Success?
    ensures var n := |outs| - 1;
            var p := ViewFold(vt0, scope, outs[..n]);
            var s := ViewFold(vt0, scope, outs).value;
            p.Success? &&
            FieldName(outs[n]) == Success(s.names[n]) &&
            Infer(ViewsDuring(vt0, scope, n, p.value.types), outs[n].expr) == Success(s.fieldTypes[n]) &&
            s == ViewScope(Compute(p.value.types, s.names[n], s.fieldTypes[n]), p.value.index[s.names[n] := n],
                           p.value.fieldTypes + [s.fieldTypes[n]], p.value.names + [s.names[n]])
  {
  }

  /**
   * A successful registration names every output as `FieldName` does, records a position for
   * exactly the names it saw, and every position is that of an output.
   */
  lemma {:induction false} ViewFoldShape(vt0: ViewTypes, scope: string, outs: seq<Projection>)
    requires ViewFold(vt0, scope, outs).Success?
    ensures var s := ViewFold(vt0, scope, outs).value;
            && (forall i :: 0 <= i < |outs| ==> FieldName(outs[i]) == Success(s.names[i]))
            && (forall k :: k in s.index <==> k in s.names)
            && (forall k :: k in s.index ==> s.index[k] < |outs|)
    decreases |outs|
  {
    if outs != [] {
      var n := |outs| - 1;
      ViewFoldStep(vt0, scope, outs);
      ViewFoldShape(vt0, scope, outs[..n]);
      var s := ViewFold(vt0, scope, outs).value;
      var p := ViewFold(vt0, scope, outs[..n]).value;
      assert forall i :: 0 <= i < n ==> outs[..n][i] == outs[i] && p.names[i] == s.names[i];
      assert forall k :: k in p.names ==> k in s.names;
    }
  }

  /** Once a prefix of the outputs fails, the whole registration fails with the same error. */
  lemma {:induction false} ViewFoldFailurePersists(vt0: ViewTypes, scope: string, outs: seq<Projection>, k: nat)
    requires k <= |outs|
    requires ViewFold(vt0, scope, outs[..k]).Failure?
    ensures ViewFold(vt0, scope, outs) == ViewFold(vt0, scope, outs[..k])
    decreases |outs|
  {
    if k < |outs| {
      var n := |outs| - 1;
      assert outs[..n][..k] == outs[..k];
      ViewFoldFailurePersists(vt0, scope, outs[..n], k);
    } else {
      assert outs[..k] == outs;
    }
  }

  /** Why one output cannot be recorded, if it cannot: a missing alias first, then an inference error. */
  function OutputError(vt: ViewTypes, p: Projection): (r: Option<Error>)
    ensures r.Some? ==> r.value == NonColumnNeedsAlias || IsInferenceError(r.value)
  {
    if FieldName(p).Failure? then Some(FieldName(p).error)
    else if Infer(vt, p.expr).Failure? then Some(Infer(vt, p.expr).error)
    else None
  }

  /** Whether an output can be recorded does not depend on the views recorded so far. */
  lemma OutputErrorIgnoresViews(vt1: ViewTypes, vt2: ViewTypes, p: Projection)
    ensures OutputError(vt1, p) == OutputError(vt2, p)
  {
    FailureIgnoresViews(vt1, vt2, p.expr);
  }

  /** The last output fails the registration exactly when the others register and it cannot be recorded. */
  lemma ViewFoldLast(vt0: ViewTypes, scope: string, outs: seq<Projection>)
    requires outs != []
    ensures var n := |outs| - 1;
            var pr := ViewFold(vt0, scope, outs[..n]);
            var r := ViewFold(vt0, scope, outs);
            (pr.Failure? ==> r == Failure(pr.error)) &&
            (pr.Success? ==> var last := OutputError(ViewsDuring(vt0, scope, n, pr.value.types), outs[n]);
                             (r.Failure? <==> last.Some?) && (last.Some? ==> r.error == last.value))
  {
  }

  /** The error of the first output that cannot be recorded, if there is one. */
  function FirstOutputError(vt: ViewTypes, outs: seq<Projection>): (r: Option<Error>)
    decreases |outs|
  {
    if outs == [] then None
    else
      var n := |outs| - 1;
      var before := FirstOutputError(vt, outs[..n]);
      if before.Some? then before else OutputError(vt, outs[n])
  }

  /** `FirstOutputError` finds the first failing output, and finds none when all outputs can be recorded. */
  lemma {:induction false} FirstOutputErrorIsFirst(vt: ViewTypes, outs: seq<Projection>)
    ensures FirstOutputError(vt, outs).None? <==> forall i :: 0 <= i < |outs| ==> OutputError(vt, outs[i]).None?
    ensures FirstOutputError(vt, outs).Some? ==>
              exists k :: 0 <= k < |outs| && OutputError(vt, outs[k]) == FirstOutputError(vt, outs) &&
                          forall j :: 0 <= j < k ==> OutputError(vt, outs[j]).None?
    decreases |outs|
  {
    if outs != [] {
      var n := |outs| - 1;
      var prefix := outs[..n];
      FirstOutputErrorIsFirst(vt, prefix);
      assert forall i :: 0 <= i < n ==> prefix[i] == outs[i];
      if FirstOutputError(vt, prefix).Some? {
        var k :| 0 <= k < n && OutputError(vt, prefix[k]) == FirstOutputError(vt, prefix) &&
                 forall j :: 0 <= j < k ==> OutputError(vt, prefix[j]).None?;
        assert OutputError(vt, outs[k]) == FirstOutputError(vt, outs);
      }
    }
  }

  /**
   * A view registers exactly when no output fails, and otherwise fails with the first
   * failing output's error. Which outputs fail does not depend on the views recorded so far.
   */
  lemma {:induction false} ViewFoldOutcome(vt0: ViewTypes, scope: string, outs: seq<Projection>)
    ensures ViewFold(vt0, scope, outs).Success? <==> FirstOutputError(vt0, outs).None?
    ensures ViewFold(vt0, scope, outs).Failure? ==> FirstOutputError(vt0, outs) == Some(ViewFold(vt0, scope, outs).error)
    decreases |outs|
  {
    if outs != [] {
      var n := |outs| - 1;
      ViewFoldOutcome(vt0, scope, outs[..n]);
      ViewFoldLast(vt0, scope, outs);
      var pr := ViewFold(vt0, scope, outs[..n]);
      if pr.Success? {
        OutputErrorIgnoresViews(ViewsDuring(vt0, scope, n, pr.value.types), vt0, outs[n]);
      }
    }
  }

  /**
   * The last output with a given name decides its position, and its type: a known type is
   * recorded, a `null` one leaves the name without a type.
   */
  lemma {:induction false} ViewLastWins(vt0: ViewTypes, scope: string, outs: seq<Projection>, i: int)
    requires ViewFold(vt0, scope, outs).Success?
    requires 0 <= i < |outs|
    requires var s := ViewFold(vt0, scope, outs).value;
             forall j :: i < j < |outs| ==> s.names[j] != s.names[i]
    ensures var s := ViewFold(vt0, scope, outs).value;
            s.names[i] in s.index && s.index[s.names[i]] == i &&
            (s.fieldTypes[i].Some? ==> s.names[i] in s.types && s.types[s.names[i]] == s.fieldTypes[i].value) &&
            (s.fieldTypes[i].None? ==> s.names[i] !in s.types)
    decreases |outs|
  {
    var n := |outs| - 1;
    ViewFoldStep(vt0, scope, outs);
    if i < n {
      var prefix := outs[..n];
      var s := ViewFold(vt0, scope, outs).value;
      var p := ViewFold(vt0, scope, prefix).value;
      assert forall j :: 0 <= j < n ==> s.names[j] == p.names[j];
      ViewLastWins(vt0, scope, prefix, i);
    }
  }

  /** With distinct field names, positions are exactly 0, ..., n-1, in output order. */
  lemma ViewDense(vt0: ViewTypes, scope: string, outs: seq<Projection>)
    requires ViewFold(vt0, scope, outs).Success?
    requires var s := ViewFold(vt0, scope, outs).value;
             forall i, j :: 0 <= i < j < |outs| ==> s.names[i] != s.names[j]
    ensures var s := ViewFold(vt0, scope, outs).value;
            (forall i :: 0 <= i < |outs| ==> s.names[i] in s.index && s.index[s.names[i]] == i) &&
            (forall v :: v in s.index.Values <==> 0 <= v < |outs|)
  {
    var s := ViewFold(vt0, scope, outs).value;
    ViewFoldShape(vt0, scope, outs);
    forall i | 0 <= i < |outs|
      ensures s.names[i] in s.index && s.index[s.names[i]] == i
    {
      ViewLastWins(vt0, scope, outs, i);
    }
    forall v | v in s.index.Values
      ensures 0 <= v < |outs|
    {
      var k :| k in s.index && s.index[k] == v;
    }
    forall v | 0 <= v < |outs|
      ensures v in s.index.Values
    {
      assert s.index[s.names[v]] == v;
    }
  }

  /** When no output's type is `null`, a view scope's type map and position map have the same keys. */
  lemma {:induction false} ViewKeysAgree(vt0: ViewTypes, scope: string, outs: seq<Projection>)
    requires ViewFold(vt0, scope, outs).Success?
    requires forall i :: 0 <= i < |outs| ==> ViewFold(vt0, scope, outs).value.fieldTypes[i].Some?
    ensures ViewFold(vt0, scope, outs).value.types.Keys == ViewFold(vt0, scope, outs).value.index.Keys
    decreases |outs|
  {
    if outs != [] {
      var n := |outs| - 1;
      ViewFoldStep(vt0, scope, outs);
      var s := ViewFold(vt0, scope, outs).value;
      var p := ViewFold(vt0, scope, outs[..n]).value;
      assert forall i :: 0 <= i < n ==> p.fieldTypes[i] == s.fieldTypes[i];
      ViewKeysAgree(vt0, scope, outs[..n]);
    }
  }

  /** The last output's type, when it does not refer to the view being recorded. */
  lemma ViewLastAsInferred(vt0: ViewTypes, scope: string, outs: seq<Projection>)
    requires outs != [] && ViewFold(vt0, scope, outs).Success?
    requires NoReferenceTo(outs[|outs| - 1].expr, scope)
    ensures Infer(vt0, outs[|outs| - 1].expr) == Success(ViewFold(vt0, scope, outs).value.fieldTypes[|outs| - 1])
  {
    var n := |outs| - 1;
    ViewFoldStep(vt0, scope, outs);
    if n > 0 {
      UnreferencedViewIrrelevant(vt0, scope, ViewFold(vt0, scope, outs[..n]).value.types, outs[n].expr);
    }
  }

  /**
   * An output that does not refer to the view being recorded gets the type it has against the
   * views recorded before the registration began.
   */
  lemma {:induction false} ViewTypeAsInferred(vt0: ViewTypes, scope: string, outs: seq<Projection>, i: int)
    requires ViewFold(vt0, scope, outs).Success?
    requires 0 <= i < |outs| && NoReferenceTo(outs[i].expr, scope)
    ensures Infer(vt0, outs[i].expr) == Success(ViewFold(vt0, scope, outs).value.fieldTypes[i])
    decreases |outs|
  {
    var n := |outs| - 1;
    if i == n {
      ViewLastAsInferred(vt0, scope, outs);
    } else {
      ViewFoldStep(vt0, scope, outs);
      assert outs[..n][i] == outs[i];
      ViewTypeAsInferred(vt0, scope, outs[..n], i);
    }
  }
}
