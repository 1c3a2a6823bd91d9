/**
 * The tuple-metadata registry: per table and per view, the type and the position of each
 * field. Registration fills one scope in a single pass and refuses a scope that is already
 * there; lookups read the maps and change nothing.
 */
module Metadata {
  import opened Wrappers
  import opened JavaTypes
  import opened Ir
  import opened Strings
  import opened InferType
  import opened TupleLayout
  import Maps

  class TupleMetadata {
    var tableToFieldToType: map<string, map<string, JavaType>>
    var viewTupleTypeParameters: ViewTypes
    var tableToFieldIndex: map<string, map<string, nat>>
    var viewToFieldIndex: map<string, map<string, nat>>

    /**
     * A table scope has a type for exactly the fields it has a position for. A view scope is
     * in both maps, and has a position for every field it has a type for; a field whose type
     * was `null` has a position and no type.
     */
    ghost predicate Valid()
      reads this
    {
      && Maps.SameFields(tableToFieldToType, tableToFieldIndex)
      && Maps.FieldsCovered(viewTupleTypeParameters, viewToFieldIndex)
    }

    constructor ()
      ensures Valid()
      ensures tableToFieldToType == map[] && tableToFieldIndex == map[]
      ensures viewTupleTypeParameters == map[] && viewToFieldIndex == map[]
    {
      tableToFieldToType := map[];
      viewTupleTypeParameters := map[];
      tableToFieldIndex := map[];
      viewToFieldIndex := map[];
    }

    /**
     * `recordTableTupleType`: each column in order gets its declared kind's type and the next
     * position, under the table's aliased name, with `putIfAbsent`. The result lists the
     * columns' types in order. A table without columns records nothing.
     */
    method RecordTableTupleType(table: Table) returns (types: seq<JavaType>)
      requires Valid()
      requires table.aliasedName !in tableToFieldToType && table.aliasedName !in tableToFieldIndex
      modifies this
      ensures Valid()
      ensures |types| == |table.columns|
      ensures forall i :: 0 <= i < |types| ==> types[i] == TypeFromColumn(table.columns[i])
      ensures table.columns == [] ==>
                tableToFieldToType == old(tableToFieldToType) && tableToFieldIndex == old(tableToFieldIndex)
      ensures table.columns != [] ==>
                && tableToFieldToType == old(tableToFieldToType)[table.aliasedName := TableTypes(table.columns)]
                && tableToFieldIndex == old(tableToFieldIndex)[table.aliasedName := TableIndex(table.columns)]
      ensures viewTupleTypeParameters == old(viewTupleTypeParameters) && viewToFieldIndex == old(viewToFieldIndex)
      ensures DistinctNames(table.columns) ==>
                forall i :: 0 <= i < |table.columns| ==>
                  && table.columns[i].name in tableToFieldIndex[table.aliasedName]
                  && tableToFieldIndex[table.aliasedName][table.columns[i].name] == i
                  && tableToFieldToType[table.aliasedName][table.columns[i].name] == TypeFromColumn(table.columns[i])
    {
      var scope := table.aliasedName;
      var cols := table.columns;
      ghost var savedTypes, savedIndices := tableToFieldToType, tableToFieldIndex;
      types := [];
      var fieldIndex := 0;
      while fieldIndex < |cols|
        invariant 0 <= fieldIndex <= |cols|
        invariant types == TableTupleTypes(cols[..fieldIndex])
        invariant fieldIndex == 0 ==> tableToFieldToType == savedTypes && tableToFieldIndex == savedIndices
        invariant fieldIndex > 0 ==>
                    && tableToFieldToType == savedTypes[scope := TableTypes(cols[..fieldIndex])]
                    && tableToFieldIndex == savedIndices[scope := TableIndex(cols[..fieldIndex])]
        invariant viewTupleTypeParameters == old(viewTupleTypeParameters) && viewToFieldIndex == old(viewToFieldIndex)
      {
        var column := cols[fieldIndex];
        var retVal := TypeFromColumn(column);
        TableExtend(cols, fieldIndex);
        assert Maps.ComputeIfAbsent(tableToFieldToType, scope) == TableTypes(cols[..fieldIndex]);
        assert Maps.ComputeIfAbsent(tableToFieldIndex, scope) == TableIndex(cols[..fieldIndex]);
        if fieldIndex > 0 {
          Maps.OverwriteTwice(savedTypes, scope, TableTypes(cols[..fieldIndex]), TableTypes(cols[..fieldIndex + 1]));
          Maps.OverwriteTwice(savedIndices, scope, TableIndex(cols[..fieldIndex]), TableIndex(cols[..fieldIndex + 1]));
        }
        PutTableField(scope, column.name, retVal, fieldIndex);
        types := types + [retVal];
        fieldIndex := fieldIndex + 1;
      }
      assert cols[..|cols|] == cols;
      TableTupleTypesAt(cols);
      if cols != [] {
        Maps.SameFieldsAdd(savedTypes, savedIndices, scope, TableTypes(cols), TableIndex(cols));
      }
      if DistinctNames(cols) {
        TableDense(cols);
      }
    }

    /** The writes of one column: `computeIfAbsent` the scope, then `putIfAbsent` its type and its position. */
    method PutTableField(scope: string, name: string, t: JavaType, position: nat)
      modifies this
      ensures tableToFieldToType ==
                old(tableToFieldToType)[scope := PutIfAbsent(Maps.ComputeIfAbsent(old(tableToFieldToType), scope), name, t)]
      ensures tableToFieldIndex ==
                old(tableToFieldIndex)[scope := PutIfAbsent(Maps.ComputeIfAbsent(old(tableToFieldIndex), scope), name, position)]
      ensures viewTupleTypeParameters == old(viewTupleTypeParameters) && viewToFieldIndex == old(viewToFieldIndex)
    {
      tableToFieldToType := tableToFieldToType[scope := PutIfAbsent(Maps.ComputeIfAbsent(tableToFieldToType, scope), name, t)];
      tableToFieldIndex := tableToFieldIndex[scope := PutIfAbsent(Maps.ComputeIfAbsent(tableToFieldIndex, scope), name, position)];
    }

    /**
     * `recordViewTupleType`: the view's scope is its upper-cased name. Each output in order
     * gets a field name, a type inferred against the views recorded so far, the next position
     * (with `compute`, so a repeated name takes the later position and type) and its type.
     * The result lists each output's type in order. On an error the registry is left as it was.
     */
    method RecordViewTupleType(viewName: string, outs: seq<Projection>) returns (r: Result<seq<Inferred>, Error>)
      requires Valid()
      requires Upper(viewName) !in viewToFieldIndex && Upper(viewName) !in viewTupleTypeParameters
      modifies this
      ensures Valid()
      ensures tableToFieldToType == old(tableToFieldToType) && tableToFieldIndex == old(tableToFieldIndex)
      ensures var f := ViewFold(old(viewTupleTypeParameters), Upper(viewName), outs);
              && (f.Failure? ==> r == Failure(f.error))
              && (f.Success? ==> r == Success(f.value.fieldTypes))
              && (f.Failure? || outs == [] ==>
                    viewTupleTypeParameters == old(viewTupleTypeParameters) && viewToFieldIndex == old(viewToFieldIndex))
              && (f.Success? && outs != [] ==>
                    && viewTupleTypeParameters == old(viewTupleTypeParameters)[Upper(viewName) := f.value.types]
                    && viewToFieldIndex == old(viewToFieldIndex)[Upper(viewName) := f.value.index])
    {
      var upperCased := Upper(viewName);
      var savedTypes, savedIndices := viewTupleTypeParameters, viewToFieldIndex;
      var typeList: seq<Inferred> := [];
      var fieldIndex := 0;
      while fieldIndex < |outs|
        invariant 0 <= fieldIndex <= |outs|
        invariant savedTypes == old(viewTupleTypeParameters) && savedIndices == old(viewToFieldIndex)
        invariant ViewFold(savedTypes, upperCased, outs[..fieldIndex]).Success?
        invariant var f := ViewFold(savedTypes, upperCased, outs[..fieldIndex]).value;
                  && typeList == f.fieldTypes
                  && (fieldIndex == 0 ==> viewTupleTypeParameters == savedTypes && viewToFieldIndex == savedIndices)
                  && (fieldIndex > 0 ==>
                        viewTupleTypeParameters == savedTypes[upperCased := f.types] &&
                        viewToFieldIndex == savedIndices[upperCased := f.index])
        invariant tableToFieldToType == old(tableToFieldToType) && tableToFieldIndex == old(tableToFieldIndex)
      {
        ghost var prev := ViewFold(savedTypes, upperCased, outs[..fieldIndex]).value;
        assert viewTupleTypeParameters == ViewsDuring(savedTypes, upperCased, fieldIndex, prev.types);
        var argument := outs[fieldIndex];
        var fieldName := FieldName(argument);
        if fieldName.Failure? {
          ViewFoldStop(savedTypes, upperCased, outs, fieldIndex, fieldName.error);
          viewTupleTypeParameters, viewToFieldIndex := savedTypes, savedIndices;
          return Failure(fieldName.error);
        }
        var retVal := Infer(viewTupleTypeParameters, argument.expr);
        if retVal.Failure? {
          ViewFoldStop(savedTypes, upperCased, outs, fieldIndex, retVal.error);
          viewTupleTypeParameters, viewToFieldIndex := savedTypes, savedIndices;
          return Failure(retVal.error);
        }
        ViewFoldExtend(savedTypes, upperCased, outs, fieldIndex, fieldName.value, retVal.value);
        ghost var next := ViewFold(savedTypes, upperCased, outs[..fieldIndex + 1]).value;
        assert Maps.ComputeIfAbsent(viewToFieldIndex, upperCased) == prev.index;
        assert Maps.ComputeIfAbsent(viewTupleTypeParameters, upperCased) == prev.types;
        if fieldIndex > 0 {
          Maps.OverwriteTwice(savedIndices, upperCased, prev.index, next.index);
          Maps.OverwriteTwice(savedTypes, upperCased, prev.types, next.types);
        }
        PutViewField(upperCased, fieldName.value, retVal.value, fieldIndex);
        typeList := typeList + [retVal.value];
        fieldIndex := fieldIndex + 1;
      }
      assert outs[..|outs|] == outs;
      if outs != [] {
        var f := ViewFold(savedTypes, upperCased, outs).value;
        Maps.FieldsCoveredAdd(savedTypes, savedIndices, upperCased, f.types, f.index);
      }
      r := Success(typeList);
    }

    /**
     * The writes of one view output: `computeIfAbsent` the scope, then `compute` its position
     * and its type (a `null` type removes the field from the type map).
     */
    method PutViewField(scope: string, name: string, t: Inferred, position: nat)
      modifies this
      ensures viewToFieldIndex ==
                old(viewToFieldIndex)[scope := Maps.ComputeIfAbsent(old(viewToFieldIndex), scope)[name := position]]
      ensures viewTupleTypeParameters ==
                old(viewTupleTypeParameters)[scope := Compute(Maps.ComputeIfAbsent(old(viewTupleTypeParameters), scope), name, t)]
      ensures tableToFieldToType == old(tableToFieldToType) && tableToFieldIndex == old(tableToFieldIndex)
    {
      viewToFieldIndex := viewToFieldIndex[scope := Maps.ComputeIfAbsent(viewToFieldIndex, scope)[name := position]];
      viewTupleTypeParameters :=
        viewTupleTypeParameters[scope := Compute(Maps.ComputeIfAbsent(viewTupleTypeParameters, scope), name, t)];
    }

    /**
     * `computeTupleGenericParameters`: the type of each expression, in order, against the
     * recorded views; the first expression that cannot be typed fails the whole list.
     */
    method ComputeTupleGenericParameters(exprs: seq<Expr>) returns (r: Result<seq<Inferred>, Error>)
      ensures r.Success? <==> forall i :: 0 <= i < |exprs| ==> Infer(viewTupleTypeParameters, exprs[i]).Success?
      ensures r.Success? ==> |r.value| == |exprs|
      ensures r.Success? ==> forall i :: 0 <= i < |exprs| ==> Infer(viewTupleTypeParameters, exprs[i]) == Success(r.value[i])
      ensures r.Failure? ==> exists k :: 0 <= k < |exprs| && Infer(viewTupleTypeParameters, exprs[k]) == Failure(r.error) &&
                                         forall j :: 0 <= j < k ==> Infer(viewTupleTypeParameters, exprs[j]).Success?
    {
      var types: seq<Inferred> := [];
      var i := 0;
      while i < |exprs|
        invariant 0 <= i <= |exprs|
        invariant |types| == i
        invariant forall j :: 0 <= j < i ==> Infer(viewTupleTypeParameters, exprs[j]) == Success(types[j])
      {
        var t := Infer(viewTupleTypeParameters, exprs[i]);
        if t.Failure? {
          return Failure(t.error);
        }
        types := types + [t.value];
        i := i + 1;
      }
      r := Success(types);
    }

    /** `getTypeForField(String, String)`: the recorded type of a table field; unknown scope or field fails. */
    function GetTypeForField(tableName: string, columnName: string): (r: Result<JavaType, Error>)
      reads this
      ensures r.Success? <==> tableName in tableToFieldToType && columnName in tableToFieldToType[tableName]
      ensures r.Success? ==> r.value == tableToFieldToType[tableName][columnName]
      ensures r.Failure? ==> r.error == MissingEntry
    {
      if tableName in tableToFieldToType && columnName in tableToFieldToType[tableName] then
        Success(tableToFieldToType[tableName][columnName])
      else Failure(MissingEntry)
    }

    /**
     * `getTypeForField(IRTable, IRColumn)`: looks the table up by its plain name, not by the
     * aliased name it was registered under.
     */
    function GetTypeForColumn(table: Table, column: Column): (r: Result<JavaType, Error>)
      reads this
      ensures r.Success? <==> table.name in tableToFieldToType && column.name in tableToFieldToType[table.name]
      ensures r.Success? ==> r.value == tableToFieldToType[table.name][column.name]
      ensures r.Failure? ==> r.error == MissingEntry
    {
      GetTypeForField(table.name, column.name)
    }

    /** `getFieldIndexInTable`: the recorded position of a table field; unknown scope or field fails. */
    function GetFieldIndexInTable(tableName: string, columnName: string): (r: Result<nat, Error>)
      reads this
      ensures r.Success? <==> tableName in tableToFieldIndex && columnName in tableToFieldIndex[tableName]
      ensures r.Success? ==> r.value == tableToFieldIndex[tableName][columnName]
      ensures r.Failure? ==> r.error == MissingEntry
    {
      if tableName in tableToFieldIndex && columnName in tableToFieldIndex[tableName] then
        Success(tableToFieldIndex[tableName][columnName])
      else Failure(MissingEntry)
    }

    /** `getFieldIndexInView`: the recorded position of a view field; unknown scope or field fails. */
    function GetFieldIndexInView(viewName: string, fieldName: string): (r: Result<nat, Error>)
      reads this
      ensures r.Success? <==> viewName in viewToFieldIndex && fieldName in viewToFieldIndex[viewName]
      ensures r.Success? ==> r.value == viewToFieldIndex[viewName][fieldName]
      ensures r.Failure? ==> r.error == MissingEntry
    {
      if viewName in viewToFieldIndex && fieldName in viewToFieldIndex[viewName] then
        Success(viewToFieldIndex[viewName][fieldName])
      else Failure(MissingEntry)
    }

    /** `isView`: the name is a recorded view scope; inference then reads its types from the view map. */
    function IsView(name: string): (r: bool)
      reads this
      ensures r <==> name in viewToFieldIndex
      ensures Valid() ==> (r <==> name in viewTupleTypeParameters)
    {
      name in viewToFieldIndex
    }
  }
}
