# Tuple metadata and type inference of the DCM OR-tools backend

The OR-tools backend of DCM turns each table and each intermediate view of a policy into a
Java tuple type, and needs two things for that:

- a type for every expression, and whether it is a solver decision variable;
- a registry that records, per table and per view, each field's Java type and its position
  in the tuple.

`TupleMetadata` provides both. This project models it in Dafny, in five modules:

- `Wrappers`, `Maps`, `JavaTypes`, `Strings` (`base.dfy`) hold `Option`/`Result`, a few map
  facts, and the Java type tags with `isVar`. They also hold the exceptions of the stage and
  the ASCII upper-casing of names.
- `Ir` (`ir.dfy`) holds the expression tree the inference walks, with columns, tables and
  view outputs.
- `InferType` (`infer_type.dfy`) holds the inference as a total function `Infer` over the
  tree. The only state it reads is the view-type map. Lemmas state the rule of each node
  kind and how variable-ness propagates through a whole tree.
- `TupleLayout` (`tuple_layout.dfy`) holds what registration records for one scope, as
  functions of the columns or outputs. `TableTypes`, `TableIndex` and `TableTupleTypes` cover
  tables; `ViewFold` covers views. Its lemmas cover:
  - first-wins for tables and last-wins for views;
  - dense positions;
  - the first failing view output;
  - view types that agree with plain inference.
- `Metadata` (`tuple_metadata.dfy`) holds the class `TupleMetadata`. It has the four maps as
  fields, and the registration methods update them in place, one element per loop step. The
  registration methods are proved against the `TupleLayout` functions, and the class
  invariant `Valid` ties the type maps to the position maps.

A Java `null` is `None`. In particular, inference gives `None` for a reference to a view
field the view does not record, because the map lookup is not null-checked. An exception is
a `Failure` carrying an `Error`.

Registration of an already-recorded scope is a caller error in the code (a Guava
`checkArgument`), so it is a precondition here. Lookups of unknown entries fail with
`MissingEntry`.

Behaviours of the code that are easy to misread, and what the model proves about them:

- **Controllable table columns.** The class comment (`TupleMetadata.java:38-40`) says a table
  with an integer and a variable column is recorded as "Integer, IntVar". The code does not
  do that. A column *reference* in an expression that is controllable is `IntVar`
  (`:246-247`), but table registration calls the declared-kind overload
  `typeFromColumn(IRColumn)` (`:65`, `:256-273`), which never gives a variable tag. The model
  follows the code, and `TupleLayout.TableTypesKnown` proves that a table scope never records
  a variable type.
- **Upper-casing of view names.** Registration stores a view under its upper-cased name and
  upper-cased field names (`:82`, `:93`). Inference looks a view up by the column reference's
  table name and field name as they are (`:249-250`).
- **Empty registrations.** A table without columns, or a view without outputs, records no
  scope at all, because the scope's map is created by `computeIfAbsent` inside the
  per-element step (`:66`, `:95`). `isView` then stays false for that name, and registering
  the same name again passes both guards. Both registration methods state this.
- **Repeated view field names.** A repeated name takes the position and type of its last
  output, and leaves a gap in the positions: outputs named A, B, A give `{A: 2, B: 1}`
  (`TupleLayout.ViewLastWins`).
- **Null view types.** An output whose type is `null` gets a position but no type, because
  `compute` with a `null` value removes the key (`:97-98`). This is why the invariant `Valid`
  only requires a view's typed fields to be among its positioned fields, and
  `TupleLayout.ViewKeysAgree` proves the two key sets equal when no type is `null`.

## Model

| member | source | states |
|---|---|---|
| InferType.TypeFromColumn | dcm/src/main/java/com/vmware/dcm/backend/ortools/TupleMetadata.java:256-273 | each of the six declared kinds maps to exactly one tag (both directions), and never to a variable tag |
| InferType.TypeFromColumnRef | dcm/src/main/java/com/vmware/dcm/backend/ortools/TupleMetadata.java:245-254 | a controllable column is `IntVar`; otherwise a recorded view's entry for the field, and null exactly when the view lacks the field; otherwise the declared kind's type; the result is a variable exactly when the column is controllable or the view records a variable type |
| InferType.LiteralType | dcm/src/main/java/com/vmware/dcm/backend/ortools/TupleMetadata.java:232-243 | String, Integer, Boolean and Long values get their tags and are never variables; any other value class fails |
| InferType.UnaryType | dcm/src/main/java/com/vmware/dcm/backend/ortools/TupleMetadata.java:218-229 | fails exactly for an unlisted operator; NOT is a variable exactly when the operand is `BoolVar`; MINUS and PLUS keep the operand type |
| InferType.BinaryType | dcm/src/main/java/com/vmware/dcm/backend/ortools/TupleMetadata.java:142-167 | fails exactly outside the two operator families; the result is a variable exactly when an operand is; comparisons give a boolean tag and arithmetic an integer tag |
| InferType.OneArgumentType | dcm/src/main/java/com/vmware/dcm/backend/ortools/TupleMetadata.java:276-293 | succeeds exactly for SUM, COUNT, MAX, MIN and the five boolean aggregates; SUM/COUNT give IntVar or Long and ANY…INCREASING give BoolVar or Boolean, each following the argument's variable-ness; MAX/MIN keep the argument type |
| InferType.Infer | dcm/src/main/java/com/vmware/dcm/backend/ortools/TupleMetadata.java:136-140 | inference raises only the operator, function, sub-query and unsupported-literal errors, never the `ModelException` of a missing alias |
| InferType.BinaryRule | dcm/src/main/java/com/vmware/dcm/backend/ortools/TupleMetadata.java:142-167 | on whole subtrees: success exactly when both operands are typed and the operator is listed; the left operand's error comes first; variable iff an operand is; the tag family by operator family |
| InferType.UnaryRule | dcm/src/main/java/com/vmware/dcm/backend/ortools/TupleMetadata.java:218-229 | the operand is inferred first and its error is the node's; NOT gives BoolVar exactly on a BoolVar operand, so an IntVar operand gives Boolean; MINUS and PLUS return the operand's inference unchanged |
| InferType.PredicateRule | dcm/src/main/java/com/vmware/dcm/backend/ortools/TupleMetadata.java:201-215 | exists, is-null and is-not-null agree, fail with their argument's error, succeed with their argument, give a boolean tag, and are a variable iff the argument is |
| InferType.CallRule | dcm/src/main/java/com/vmware/dcm/backend/ortools/TupleMetadata.java:275-310 | the rule per arity and function: 2 arguments give SCALAR_PRODUCT IntVar and 4 give CAPACITY_CONSTRAINT BoolVar without inspecting the arguments; any other function or arity fails |
| InferType.ComprehensionRule | dcm/src/main/java/com/vmware/dcm/backend/ortools/TupleMetadata.java:169-189 | a list or group-by comprehension has its single select expression's type, and fails with any other number of select expressions |
| InferType.ColumnRule | dcm/src/main/java/com/vmware/dcm/backend/ortools/TupleMetadata.java:191-194 | a column reference never fails; a controllable one is IntVar whatever its kind; otherwise the view's entry (possibly null) or the declared kind's type |
| InferType.FailureIgnoresViews | dcm/src/main/java/com/vmware/dcm/backend/ortools/TupleMetadata.java:136-311 | whether inference fails, and with which error, is the same for any two view maps |
| InferType.UnreferencedViewIrrelevant | dcm/src/main/java/com/vmware/dcm/backend/ortools/TupleMetadata.java:249-251 | recording a view does not change the type of any expression that does not refer to it |
| InferType.VarFreeIsKnown | dcm/src/main/java/com/vmware/dcm/backend/ortools/TupleMetadata.java:136-311 | an expression with no controllable column, no variable view field and no global constraint never gets a variable type |
| Strings.Upper | dcm/src/main/java/com/vmware/dcm/backend/ortools/TupleMetadata.java:82 | upper-casing keeps the length, yields an upper-cased name, and maps each character on its own |
| Strings.UpperIdempotent | dcm/src/main/java/com/vmware/dcm/backend/ortools/TupleMetadata.java:93 | upper-casing twice is upper-casing once, and an upper-cased name is its own key |
| TupleLayout.PutIfAbsent | dcm/src/main/java/com/vmware/dcm/backend/ortools/TupleMetadata.java:67 | adds the key, never overwrites an existing entry, and sets a new key to the value |
| TupleLayout.Compute | dcm/src/main/java/com/vmware/dcm/backend/ortools/TupleMetadata.java:97-98 | a non-null value replaces the entry, a null value removes the key, and other keys keep their values |
| TupleLayout.TableTypes | dcm/src/main/java/com/vmware/dcm/backend/ortools/TupleMetadata.java:63-67 | a table scope's type map has exactly the column names as keys |
| TupleLayout.TableIndex | dcm/src/main/java/com/vmware/dcm/backend/ortools/TupleMetadata.java:68-69 | a table scope's position map has exactly the column names as keys, and every position is below the column count |
| TupleLayout.TableTupleTypesAt | dcm/src/main/java/com/vmware/dcm/backend/ortools/TupleMetadata.java:63-72 | the returned list holds each column's declared-kind type, in column order |
| TupleLayout.TableExtend | dcm/src/main/java/com/vmware/dcm/backend/ortools/TupleMetadata.java:64-70 | recording column i appends its type and put-if-absents its type and the counter value i |
| TupleLayout.TableFirstWins | dcm/src/main/java/com/vmware/dcm/backend/ortools/TupleMetadata.java:66-69 | the first column with a name decides that name's position and type |
| TupleLayout.TableTypesKnown | dcm/src/main/java/com/vmware/dcm/backend/ortools/TupleMetadata.java:65 | a table scope never records a decision-variable type, even for a controllable column |
| TupleLayout.TableDense | dcm/src/main/java/com/vmware/dcm/backend/ortools/TupleMetadata.java:62-69 | with distinct column names, column i has position i and its declared kind's type, and the positions are exactly 0..n-1 |
| TupleLayout.FieldName | dcm/src/main/java/com/vmware/dcm/backend/ortools/TupleMetadata.java:87-93 | the upper-cased alias, else the upper-cased bare column name; fails with the `ModelException` of a missing alias exactly for an unaliased non-column |
| TupleLayout.ViewFold | dcm/src/main/java/com/vmware/dcm/backend/ortools/TupleMetadata.java:85-100 | on success, one type and one name per output, and no field has a type without a position |
| TupleLayout.ViewFoldExtend | dcm/src/main/java/com/vmware/dcm/backend/ortools/TupleMetadata.java:94-98 | recording output i after a successful prefix computes its position i and its type into the scope |
| TupleLayout.ViewFoldStop | dcm/src/main/java/com/vmware/dcm/backend/ortools/TupleMetadata.java:86-94 | an output that cannot be recorded after a successful prefix fails the whole registration with its error |
| TupleLayout.ViewFoldStep | dcm/src/main/java/com/vmware/dcm/backend/ortools/TupleMetadata.java:86-99 | a successful registration is the registration of all but the last output, extended by the last output's name and type |
| TupleLayout.ViewFoldFailurePersists | dcm/src/main/java/com/vmware/dcm/backend/ortools/TupleMetadata.java:86-100 | once a prefix of the outputs fails, the whole registration fails with the same error |
| TupleLayout.OutputError | dcm/src/main/java/com/vmware/dcm/backend/ortools/TupleMetadata.java:87-94 | an output's error is the missing alias or an inference error |
| TupleLayout.OutputErrorIgnoresViews | dcm/src/main/java/com/vmware/dcm/backend/ortools/TupleMetadata.java:87-94 | whether an output can be recorded does not depend on the views recorded so far |
| TupleLayout.ViewFoldLast | dcm/src/main/java/com/vmware/dcm/backend/ortools/TupleMetadata.java:86-100 | the registration fails exactly when the prefix fails or the last output cannot be recorded, with that error |
| TupleLayout.FirstOutputErrorIsFirst | dcm/src/main/java/com/vmware/dcm/backend/ortools/TupleMetadata.java:86-100 | there is no first error exactly when every output can be recorded; otherwise it is the error of an output all of whose predecessors can be recorded |
| TupleLayout.ViewFoldOutcome | dcm/src/main/java/com/vmware/dcm/backend/ortools/TupleMetadata.java:86-100 | a view registers exactly when no output fails, and otherwise fails with the first failing output's error |
| TupleLayout.ViewFoldShape | dcm/src/main/java/com/vmware/dcm/backend/ortools/TupleMetadata.java:87-96 | each recorded name is its output's field name, positions are recorded for exactly those names, and every position is below the output count |
| TupleLayout.ViewLastWins | dcm/src/main/java/com/vmware/dcm/backend/ortools/TupleMetadata.java:95-98 | the last output with a name decides its position, and its type: recorded when known, absent when null |
| TupleLayout.ViewDense | dcm/src/main/java/com/vmware/dcm/backend/ortools/TupleMetadata.java:85-96 | with distinct field names, output i has position i and the positions are exactly 0..n-1 |
| TupleLayout.ViewKeysAgree | dcm/src/main/java/com/vmware/dcm/backend/ortools/TupleMetadata.java:95-98 | when no output's type is null, a view's type map and position map have the same keys |
| TupleLayout.ViewLastAsInferred | dcm/src/main/java/com/vmware/dcm/backend/ortools/TupleMetadata.java:94 | the last output, if it does not refer to its own view, has the type it has against the views before registration |
| TupleLayout.ViewTypeAsInferred | dcm/src/main/java/com/vmware/dcm/backend/ortools/TupleMetadata.java:94 | every output that does not refer to its own view has the type it has against the views before registration |
| Metadata.TupleMetadata.constructor | dcm/src/main/java/com/vmware/dcm/backend/ortools/TupleMetadata.java:47-50 | all four maps start empty, and the registry invariant holds |
| Metadata.TupleMetadata.RecordTableTupleType | dcm/src/main/java/com/vmware/dcm/backend/ortools/TupleMetadata.java:59-73 | for a new scope: returns each column's declared-kind type in order; a table with columns records exactly that scope's type and position maps, and a table without columns records no scope; with distinct column names column i gets position i and its declared kind's type; no other scope and no view changes; keeps the invariant that types and positions have the same keys |
| Metadata.TupleMetadata.PutTableField | dcm/src/main/java/com/vmware/dcm/backend/ortools/TupleMetadata.java:66-69 | one column's computeIfAbsent/putIfAbsent writes into the two table maps, views untouched |
| Metadata.TupleMetadata.RecordViewTupleType | dcm/src/main/java/com/vmware/dcm/backend/ortools/TupleMetadata.java:81-102 | for a new upper-cased scope: returns one inferred type per output in order, or the first failing output's error with nothing recorded; on success a view with outputs records exactly that scope's maps, and a view without outputs records no scope; tables untouched; invariant kept |
| Metadata.TupleMetadata.PutViewField | dcm/src/main/java/com/vmware/dcm/backend/ortools/TupleMetadata.java:95-98 | one output's computeIfAbsent/compute writes into the two view maps, tables untouched |
| Metadata.TupleMetadata.ComputeTupleGenericParameters | dcm/src/main/java/com/vmware/dcm/backend/ortools/TupleMetadata.java:104-106 | succeeds exactly when every expression is typed, keeps length and order, and otherwise fails with the first error; modifies nothing |
| Metadata.TupleMetadata.GetTypeForField | dcm/src/main/java/com/vmware/dcm/backend/ortools/TupleMetadata.java:112-114 | the recorded type exactly when scope and field are recorded, else a missing-entry failure |
| Metadata.TupleMetadata.GetTypeForColumn | dcm/src/main/java/com/vmware/dcm/backend/ortools/TupleMetadata.java:108-110 | the same lookup keyed by the table's plain name, not the aliased name it was registered under; a missing-entry failure otherwise |
| Metadata.TupleMetadata.GetFieldIndexInTable | dcm/src/main/java/com/vmware/dcm/backend/ortools/TupleMetadata.java:116-118 | the recorded table position exactly when scope and field are recorded, else a missing-entry failure |
| Metadata.TupleMetadata.GetFieldIndexInView | dcm/src/main/java/com/vmware/dcm/backend/ortools/TupleMetadata.java:120-122 | the recorded view position exactly when scope and field are recorded, else a missing-entry failure |
| Metadata.TupleMetadata.IsView | dcm/src/main/java/com/vmware/dcm/backend/ortools/TupleMetadata.java:124-126 | true exactly for recorded view scopes, which under the invariant are also exactly the scopes of the view type map |

## Left out

- `JavaType.isVar` is not part of this model. It is assumed to hold exactly for `IntVar` and `BoolVar`, and applied to `null` it is taken to be false.
- The other members of `JavaType` and the `JavaTypeList` wrapper are not part of this model. Types are a local datatype and lists are sequences.
- The `IRVisitor` base class is not part of this model. Its dispatch is the `match` in `Infer`, and its default `visitLiteral` (`:242`) is modelled as the `UnsupportedLiteral` error.
- `IRTable`/`IRColumn` internals and how their column order arises are not modelled: a table is a sequence of (name, declared kind, controllable).
- The `default` branch of `typeFromColumn(IRColumn)` (`:270-271`) is unreachable, because the declared kind is a closed type of six kinds here.
- `Locale.US` upper-casing is modelled on ASCII letters only. Other characters are kept as they are.
- Logging (`:174`, `:185`) has no effect on results and is left out.
- Exception messages are left out. Exceptions are `Error` values, one per kind.
- `AtomicInteger` and streams are a sequential counter and loop here. No concurrency is modelled.
- Metadata.TupleMetadata.RecordViewTupleType: when an output fails, the code leaves the entries of the earlier outputs in the maps. The model restores the maps and returns the error instead.
- Metadata.TupleMetadata.RecordTableTupleType: the `checkArgument` guards (`:60-61`) are preconditions rather than a modelled `IllegalArgumentException`.
- Metadata.TupleMetadata.RecordViewTupleType: the `checkArgument` guards (`:83-84`) are preconditions rather than a modelled `IllegalArgumentException`.
- The `inferType(IRColumn)` and `inferType(Expr)` wrappers (`:128-134`) have no members of their own. They are `InferType.TypeFromColumn` and `InferType.Infer` applied to the registry's view map.
- `int` positions are unbounded naturals. A scope with more than 2^31 fields cannot occur in practice.
