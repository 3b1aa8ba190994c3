# A verified model of the `ilp` integer linear programming wrapper

`ilp` is a Java library that puts one object model over several mixed
integer linear programming solvers. A `LinearProblem` owns `Variable`s
(bounded, typed BOOL, INTEGER or REAL) and `Constraint`s (a `Linear`
sum of `Term`s between an optional lower and upper bound). It also holds an
objective linear, a direction, and the status and solution values a solver
leaves behind. Three backends implement the model:

- GLPK, with 1-based columns and rows;
- CBC, with 0-based columns and rows and a cached best solution;
- OR-Tools, where every entity owns a native handle.

The older `ilp` tree (`com.patrikdufresne.ilp.impl`) holds a second GLPK
backend. That backend keeps a dirty flag and cached MIP and feasibility
flags, and reports integer bounds as truncated `Integer`s.

The utilities take snapshots and put them back:

- bounds (`Bound`, `BoundSnapshot`);
- values (`ValueSnapshot`);
- whole constraints (`ConstraintSnapshot`);
- they also evaluate a linear under a snapshot (`Linears.compute`) and test
  a variable for being fixed (`Variables.isFixed`).

This project models all of that in Dafny.

- Values (numbers, terms, bounds, exception codes, solver options) are
  datatypes and functions.
- Objects whose fields the library updates (the problems, variables and
  constraints, `ConcreteLinear`, the constraint snapshot) are classes with
  `modifies` frames. A `ValueSnapshot` or a `BoundSnapshot` is filled once
  and then refuses every change, so each is a datatype holding its map.
- Each native solver interface is a value. The Java code calls the solver's
  primitives; they are modelled as functions from the old native state to
  the new one, and the model records the native state in the problem's
  `lp` field.

One module covers each family of `ilp` classes:

- `Wrappers`, `Numbers`, `Types`: nullable references, exceptions, Java's
  boxed `Integer`/`Double`, `Status` and `VarType`.
- `ILPErrors`: `ILPException`, shared by both trees. The legacy tree's
  copy differs only in lacking code 4.
- `Terms`, `Bounds`: `ConcreteTerm` and `Bound` (both trees).
- `LinearExpr`, `LinearBuilders`: `ConcreteLinear`, `ImmutableLinear` (both
  trees) and the backend-independent half of `AbstractLinearProblem`.
- `Linears`: `Linears.compute`. It also models the legacy
  `Variables.computeWithSnapshot`
  (ilp/src/com/patrikdufresne/ilp/util/Variables.java:49-57), which is the
  same loop.
- `GLPKNative`, `GLPKBounds`, `GLPKRows`, `GLPK`, `GLPKOptions`: the GLPK
  backend.
- `CbcNative`, `Sentinels`, `Cbc`, `CbcOptions`: the CBC backend.
- `ORNative`, `ORTools`: the OR-Tools backend.
- `Util`: the snapshot utilities, run against GLPK entities.
- `LegacyGLPK`, `LegacyUtil`: the legacy tree's GLPK backend and utilities.

Across the backends the proved properties include:

- name uniqueness and its error code;
- the numbering invariant `col == position + 1` (GLPK) or `col == position`
  (CBC), and how removal shifts later entities down;
- disposal and `isDisposed`;
- bounds that round-trip through the null/infinity sentinels;
- `boundedType`;
- the objective read-back;
- status invalidation, exactly where each backend does it;
- snapshots that capture and restore every bound;
- the CBC command line.

## Model

| member | source | states |
|---|---|---|
| `Numbers.DoubleValue` | com.patrikdufresne.ilp/src/main/java/com/patrikdufresne/ilp/ConcreteTerm.java:31-37 | `Number.doubleValue()`: a Double gives its value, an Integer its value as a real |
| `Numbers.JavaEqualsIsEquality` | com.patrikdufresne.ilp/src/main/java/com/patrikdufresne/ilp/util/Bound.java:54-73 | `Number.equals` holds exactly when class and value agree, so it is equality on the boxed value |
| `Numbers.IntegerIsNotDouble` | com.patrikdufresne.ilp/src/main/java/com/patrikdufresne/ilp/util/Bound.java:54-73 | `Integer(i)` never equals `Double(i)` although both have the same `doubleValue` |
| `Numbers.Truncate` | ilp/src/com/patrikdufresne/ilp/impl/GLPKVariable.java:31-37 | a cast to an integer rounds toward zero: within one below a non-negative value, within one above a negative one |
| `Numbers.IntCast` | ilp/src/com/patrikdufresne/ilp/impl/GLPKVariable.java:31-37 | Java's `(int)` of a double: a 32-bit result, the truncation inside the range, saturated at `Integer.MIN_VALUE`/`MAX_VALUE` outside it |
| `Numbers.Wrap32` | com.patrikdufresne.ilp/src/main/java/com/patrikdufresne/ilp/ConcreteTerm.java:66-72 | 32-bit wrap-around of `hashCode` arithmetic: a 32-bit value congruent to the input modulo 2^32, the identity inside the range |
| `ILPErrors.FindErrorText` | com.patrikdufresne.ilp/src/main/java/com/patrikdufresne/ilp/ILPException.java:107-117 | codes 1, 2 and 3 map to their texts; every other code, and only those, maps to "Unknown error" |
| `ILPErrors.WithCodeAndMessage` | com.patrikdufresne.ilp/src/main/java/com/patrikdufresne/ilp/ILPException.java:93-96 | the two-argument constructor stores both the code and the message |
| `ILPErrors.WithCode` | com.patrikdufresne.ilp/src/main/java/com/patrikdufresne/ilp/ILPException.java:80-82 | the code-only constructor uses `findErrorText(code)` as the message |
| `ILPErrors.WithMessage` | com.patrikdufresne.ilp/src/main/java/com/patrikdufresne/ilp/ILPException.java:70-72 | the message-only constructor uses ERROR_UNSPECIFIED |
| `ILPErrors.Unspecified` | com.patrikdufresne.ilp/src/main/java/com/patrikdufresne/ilp/ILPException.java:59-61 | the no-argument constructor uses ERROR_UNSPECIFIED and its text |
| `ILPErrors.Disposed` | com.patrikdufresne.ilp/src/main/java/com/patrikdufresne/ilp/ILPException.java:80-82 | `new ILPException(ERROR_RESOURCE_DISPOSED)`: code 3 with "Resource is disposed" |
| `ILPErrors.CodesDistinct` | com.patrikdufresne.ilp/src/main/java/com/patrikdufresne/ilp/ILPException.java:35-51 | the four error codes are 1, 2, 3 and 4 |
| `ILPErrors.DuplicateNameHasNoText` | com.patrikdufresne.ilp/src/main/java/com/patrikdufresne/ilp/ILPException.java:107-117 | ERROR_DUPLICATE_NAME has no text of its own: it maps to "Unknown error" |
| `Terms.NewTerm` | com.patrikdufresne.ilp/src/main/java/com/patrikdufresne/ilp/ConcreteTerm.java:31-37 | a null coefficient or variable throws NullPointerException; otherwise the term holds the coefficient's `doubleValue` and the variable |
| `Terms.TermEqualsIsEquality` | com.patrikdufresne.ilp/src/main/java/com/patrikdufresne/ilp/ConcreteTerm.java:40-53 | two terms are `equals` iff their coefficients and their variables are equal |
| `Terms.IntegerAndDoubleCoefficientsAgree` | com.patrikdufresne.ilp/src/main/java/com/patrikdufresne/ilp/ConcreteTerm.java:31-37 | `Integer` 1 and `Double` 1.0 over the same variable build equal terms |
| `Terms.HashCode` | com.patrikdufresne.ilp/src/main/java/com/patrikdufresne/ilp/ConcreteTerm.java:66-72 | the hash is a 32-bit value |
| `Terms.EqualTermsHashEqually` | com.patrikdufresne.ilp/src/main/java/com/patrikdufresne/ilp/ConcreteTerm.java:66-72 | `equals` terms have equal hash codes |
| `Bounds.BoundEqualsIsEquality` | com.patrikdufresne.ilp/src/main/java/com/patrikdufresne/ilp/util/Bound.java:54-73 | `Bound.equals` is componentwise equality of the two nullable Numbers |
| `Bounds.NullEqualsOnlyNull` | com.patrikdufresne.ilp/src/main/java/com/patrikdufresne/ilp/util/Bound.java:54-73 | a null side never equals a non-null one |
| `Bounds.HashCode` | com.patrikdufresne.ilp/src/main/java/com/patrikdufresne/ilp/util/Bound.java:94-102 | the hash is a 32-bit value |
| `Bounds.EqualBoundsHashEqually` | com.patrikdufresne.ilp/src/main/java/com/patrikdufresne/ilp/util/Bound.java:94-102 | `equals` bounds have equal hash codes |
| `LinearExpr.Removed` | com.patrikdufresne.ilp/src/main/java/com/patrikdufresne/ilp/ConcreteLinear.java:59-64 | removing from a sequence never makes it longer |
| `LinearExpr.DistinctCardinality` | com.patrikdufresne.ilp/src/main/java/com/patrikdufresne/ilp/ConcreteLinear.java:75-80 | a duplicate-free term list has as many terms as its set: `size` counts distinct terms |
| `LinearExpr.InsertedSpec` | com.patrikdufresne.ilp/src/main/java/com/patrikdufresne/ilp/ConcreteLinear.java:51-56 | `add` keeps the terms distinct, adds the term to the set, keeps the earlier order, and grows by one exactly when the term was absent |
| `LinearExpr.RemovedSpec` | com.patrikdufresne.ilp/src/main/java/com/patrikdufresne/ilp/ConcreteLinear.java:59-64 | `remove` keeps the terms distinct, takes exactly the equal term out, and shrinks by one exactly when it was present |
| `LinearExpr.RemovedAbsent` | com.patrikdufresne.ilp/src/main/java/com/patrikdufresne/ilp/ConcreteLinear.java:59-64 | removing an absent term changes nothing |
| `LinearExpr.SameVariableTwoCoefficients` | com.patrikdufresne.ilp/src/main/java/com/patrikdufresne/ilp/ConcreteLinear.java:51-56 | two terms over one variable with different coefficients are both kept, in insertion order |
| `LinearExpr.ConcreteLinear.Add` | com.patrikdufresne.ilp/src/main/java/com/patrikdufresne/ilp/ConcreteLinear.java:51-56 | the term set is created on first use and the term appended unless an equal one is present |
| `LinearExpr.ConcreteLinear.Remove` | com.patrikdufresne.ilp/src/main/java/com/patrikdufresne/ilp/ConcreteLinear.java:59-64 | a never-used linear stays never-used; otherwise only the equal term is removed |
| `LinearExpr.ConcreteLinear.Clear` | com.patrikdufresne.ilp/src/main/java/com/patrikdufresne/ilp/ConcreteLinear.java:67-72 | afterwards no term is left; a never-used linear stays never-used |
| `LinearExpr.ConcreteLinear.Size` | com.patrikdufresne.ilp/src/main/java/com/patrikdufresne/ilp/ConcreteLinear.java:75-80 | the number of terms, which is the number of distinct terms |
| `LinearExpr.EqualsMeaning` | com.patrikdufresne.ilp/src/main/java/com/patrikdufresne/ilp/ConcreteLinear.java:92-106 | `equals` holds iff both are never used or both have the same set of terms |
| `LinearExpr.NeverUsedDiffersFromEmptied` | com.patrikdufresne.ilp/src/main/java/com/patrikdufresne/ilp/ConcreteLinear.java:92-106 | a never-used linear is not equal to an emptied one, though both iterate nothing |
| `LinearExpr.EqualsIgnoresOrder` | com.patrikdufresne.ilp/src/main/java/com/patrikdufresne/ilp/ConcreteLinear.java:92-106 | two linears with the same terms in another order are equal |
| `LinearExpr.ImmutableLinear.FromCollection` | com.patrikdufresne.ilp/src/main/java/com/patrikdufresne/ilp/ImmutableLinear.java:43-45 | keeps every element of the collection, duplicates included, in order |
| `LinearExpr.ImmutableLinear.FromLinear` | com.patrikdufresne.ilp/src/main/java/com/patrikdufresne/ilp/ImmutableLinear.java:52-58 | copies the source's terms in iteration order |
| `LinearExpr.ImmutableLinear.Add` | com.patrikdufresne.ilp/src/main/java/com/patrikdufresne/ilp/ImmutableLinear.java:72-74 | always UnsupportedOperationException; the terms are a constant |
| `LinearExpr.ImmutableLinear.Remove` | com.patrikdufresne.ilp/src/main/java/com/patrikdufresne/ilp/ImmutableLinear.java:77-79 | always UnsupportedOperationException |
| `LinearExpr.ImmutableLinear.Clear` | com.patrikdufresne.ilp/src/main/java/com/patrikdufresne/ilp/ImmutableLinear.java:82-84 | always UnsupportedOperationException |
| `LinearExpr.ImmutableLinear.Size` | com.patrikdufresne.ilp/src/main/java/com/patrikdufresne/ilp/ImmutableLinear.java:87-89 | the number of copied terms |
| `LinearExpr.ImmutableLinear.IsEmpty` | com.patrikdufresne.ilp/src/main/java/com/patrikdufresne/ilp/ImmutableLinear.java:92-94 | holds iff the size is 0 |
| `LinearExpr.CopyIsIndependent` | com.patrikdufresne.ilp/src/main/java/com/patrikdufresne/ilp/ImmutableLinear.java:52-58 | a copy keeps the terms it was built from after the source linear is changed |
| `LinearBuilders.CheckVariable` | com.patrikdufresne.ilp/src/main/java/com/patrikdufresne/ilp/AbstractLinearProblem.java:51-55 | IllegalArgumentException exactly for a non-null disposed variable |
| `LinearBuilders.CheckLinear` | com.patrikdufresne.ilp/src/main/java/com/patrikdufresne/ilp/AbstractLinearProblem.java:36-43 | a null or empty linear passes; IllegalArgumentException exactly when some term's variable is disposed |
| `LinearBuilders.CheckTerms` | com.patrikdufresne.ilp/src/main/java/com/patrikdufresne/ilp/AbstractLinearProblem.java:36-43 | the loop of `checkLinear`: fails exactly when some term's variable is disposed |
| `LinearBuilders.CheckLinearOnVariables` | com.patrikdufresne.ilp/src/main/java/com/patrikdufresne/ilp/AbstractLinearProblem.java:36-43 | `checkLinear` passes iff the linear is null or none of its variables is disposed |
| `LinearBuilders.IsMIP` | com.patrikdufresne.ilp/src/main/java/com/patrikdufresne/ilp/AbstractLinearProblem.java:268-275 | true iff no variable is REAL; an empty problem is a MIP |
| `LinearBuilders.KeptTermsSpec` | com.patrikdufresne.ilp/src/main/java/com/patrikdufresne/ilp/AbstractLinearProblem.java:190-210 | the kept terms are exactly the pairs with a non-null, non-zero coefficient and a non-null variable; none has a zero coefficient |
| `LinearBuilders.AddAllSpec` | com.patrikdufresne.ilp/src/main/java/com/patrikdufresne/ilp/AbstractLinearProblem.java:190-210 | adding terms one by one yields a duplicate-free list holding the earlier terms and the added ones; nothing added leaves a never-used linear |
| `LinearBuilders.CreateLinearFromLists` | com.patrikdufresne.ilp/src/main/java/com/patrikdufresne/ilp/AbstractLinearProblem.java:190-210 | a null list throws NullPointerException, different lengths IllegalArgumentException; otherwise a fresh linear with the kept pairs added in input order |
| `LinearBuilders.CreatedLinearContents` | com.patrikdufresne.ilp/src/main/java/com/patrikdufresne/ilp/AbstractLinearProblem.java:190-210 | the created linear is never used iff no pair is kept; otherwise its set of terms is the set of kept pairs |
| `LinearBuilders.CreateLinearSingle` | com.patrikdufresne.ilp/src/main/java/com/patrikdufresne/ilp/AbstractLinearProblem.java:217-224 | rejects a null coefficient or variable; otherwise a one-term linear, even for a zero coefficient |
| `LinearBuilders.CreateLinearFromInts` | com.patrikdufresne.ilp/src/main/java/com/patrikdufresne/ilp/AbstractLinearProblem.java:154-160 | the `int[]` overload boxes each coefficient as an Integer and builds as the list overload does |
| `LinearBuilders.CreateLinearFromDoubles` | com.patrikdufresne.ilp/src/main/java/com/patrikdufresne/ilp/AbstractLinearProblem.java:132-138 | the `double[]` overload boxes each coefficient as a Double and builds as the list overload does |
| `LinearBuilders.Box` | com.patrikdufresne.ilp/src/main/java/com/patrikdufresne/ilp/AbstractLinearProblem.java:154-160 | the boxing loop yields one Integer per array element, in order |
| `LinearBuilders.BoxReals` | com.patrikdufresne.ilp/src/main/java/com/patrikdufresne/ilp/AbstractLinearProblem.java:132-138 | the boxing loop yields one Double per array element, in order |
| `LinearBuilders.CoefTermsElems` | com.patrikdufresne.ilp.glpk/src/main/java/com/patrikdufresne/ilp/glpk/GLPKLinearProblem.java:318-342 | the terms read from a coefficient array are exactly the non-zero entries paired with their variables |
| `LinearBuilders.LinearTerms` | com.patrikdufresne.ilp/src/main/java/com/patrikdufresne/ilp/AbstractLinearProblem.java:36-43 | a null linear has no terms; otherwise its terms in iteration order |
| `Linears.SumConcat` | com.patrikdufresne.ilp/src/main/java/com/patrikdufresne/ilp/util/Linears.java:36-43 | the sum over two term lists in a row is the sum of their sums |
| `Linears.SumSwap` | com.patrikdufresne.ilp/src/main/java/com/patrikdufresne/ilp/util/Linears.java:36-43 | swapping two adjacent terms leaves the sum unchanged |
| `Linears.Compute` | com.patrikdufresne.ilp/src/main/java/com/patrikdufresne/ilp/util/Linears.java:36-43 | an empty linear computes to 0; a variable missing from the snapshot, or a null snapshot, raises NullPointerException; otherwise the sum of coefficient times snapshot value |
| `GLPKNative.SetBnds` | com.patrikdufresne.ilp.glpk/src/main/java/com/patrikdufresne/ilp/glpk/GLPKVariable.java:145-155 | `glp_set_col_bnds`/`glp_set_row_bnds`: the bound type is stored; LO, DB and FX keep the lower value, UP and DB the upper, FX uses the lower for both |
| `GLPKNative.Create` | com.patrikdufresne.ilp.glpk/src/main/java/com/patrikdufresne/ilp/glpk/GLPKLinearProblem.java:122-124 | `glp_create_prob`: a well-formed problem with no column, no row, minimising |
| `GLPKNative.AddCol` | com.patrikdufresne.ilp.glpk/src/main/java/com/patrikdufresne/ilp/glpk/GLPKLinearProblem.java:162-180 | `glp_add_cols(lp, 1)` appends one new column and leaves the rows as they were |
| `GLPKNative.AddRow` | com.patrikdufresne.ilp.glpk/src/main/java/com/patrikdufresne/ilp/glpk/GLPKLinearProblem.java:196-212 | `glp_add_rows(lp, 1)` appends one new empty row |
| `GLPKNative.DropCol` | com.patrikdufresne.ilp.glpk/src/main/java/com/patrikdufresne/ilp/glpk/GLPKLinearProblem.java:431-453 | deleting a column removes its entries from a row, never adding any |
| `GLPKNative.DropColElems` | com.patrikdufresne.ilp.glpk/src/main/java/com/patrikdufresne/ilp/glpk/GLPKLinearProblem.java:431-453 | after deleting column j a row holds exactly its other entries, those past j moved one column down |
| `GLPKNative.DropColWf` | com.patrikdufresne.ilp.glpk/src/main/java/com/patrikdufresne/ilp/glpk/GLPKLinearProblem.java:431-453 | deleting a column keeps every row well formed over one column less |
| `GLPKNative.DelCol` | com.patrikdufresne.ilp.glpk/src/main/java/com/patrikdufresne/ilp/glpk/GLPKLinearProblem.java:431-453 | `glp_del_cols` of one column splices it out, drops its entries from every row and keeps the rest of the problem |
| `GLPKNative.DelRow` | com.patrikdufresne.ilp.glpk/src/main/java/com/patrikdufresne/ilp/glpk/GLPKLinearProblem.java:455-477 | `glp_del_rows` of one row splices it out and keeps the rest |
| `GLPKNative.SetProbName` | com.patrikdufresne.ilp.glpk/src/main/java/com/patrikdufresne/ilp/glpk/GLPKLinearProblem.java:500-508 | `glp_set_prob_name` changes only the problem name |
| `GLPKNative.SetObjName` | com.patrikdufresne.ilp.glpk/src/main/java/com/patrikdufresne/ilp/glpk/GLPKLinearProblem.java:557-564 | `glp_set_obj_name` changes only the objective name |
| `GLPKNative.StoredName` | com.patrikdufresne.ilp.glpk/src/main/java/com/patrikdufresne/ilp/glpk/GLPKVariable.java:162-170 | GLPK stores null and the empty string as no name, and any other name as given |
| `GLPKNative.SetColName` | com.patrikdufresne.ilp.glpk/src/main/java/com/patrikdufresne/ilp/glpk/GLPKVariable.java:162-170 | `glp_set_col_name` changes only that column's name |
| `GLPKNative.SetRowName` | com.patrikdufresne.ilp.glpk/src/main/java/com/patrikdufresne/ilp/glpk/GLPKConstraint.java:234-242 | `glp_set_row_name` changes only that row's name |
| `GLPKNative.SetColBnds` | com.patrikdufresne.ilp.glpk/src/main/java/com/patrikdufresne/ilp/glpk/GLPKVariable.java:145-155 | `glp_set_col_bnds` changes only that column's bounds |
| `GLPKNative.SetRowBnds` | com.patrikdufresne.ilp.glpk/src/main/java/com/patrikdufresne/ilp/glpk/GLPKConstraint.java:222-229 | `glp_set_row_bnds` changes only that row's bounds |
| `GLPKNative.SetColKind` | com.patrikdufresne.ilp.glpk/src/main/java/com/patrikdufresne/ilp/glpk/GLPKVariable.java:177-200 | `glp_set_col_kind` changes only that column's integrality |
| `GLPKNative.SetObjCoef` | com.patrikdufresne.ilp.glpk/src/main/java/com/patrikdufresne/ilp/glpk/GLPKLinearProblem.java:532-552 | `glp_set_obj_coef`: column 0 is the constant term, columns 1..n their coefficient, any other index an error |
| `GLPKNative.SetObjDir` | com.patrikdufresne.ilp.glpk/src/main/java/com/patrikdufresne/ilp/glpk/GLPKLinearProblem.java:514-526 | `glp_set_obj_dir` changes only the direction |
| `GLPKNative.NonZeroElems` | com.patrikdufresne.ilp.glpk/src/main/java/com/patrikdufresne/ilp/glpk/GLPKConstraint.java:198-219 | GLPK keeps exactly the non-zero entries of a row written with `glp_set_mat_row` |
| `GLPKNative.NonZeroWf` | com.patrikdufresne.ilp.glpk/src/main/java/com/patrikdufresne/ilp/glpk/GLPKConstraint.java:198-219 | an accepted row (columns in range, none twice) is stored well formed |
| `GLPKNative.SetMatRow` | com.patrikdufresne.ilp.glpk/src/main/java/com/patrikdufresne/ilp/glpk/GLPKConstraint.java:198-219 | `glp_set_mat_row` fails on a column out of range or given twice; otherwise replaces only that row's entries by the non-zero ones |
| `GLPKBounds.BoundedType` | com.patrikdufresne.ilp.glpk/src/main/java/com/patrikdufresne/ilp/glpk/GLPKLinearProblem.java:68-88 | `boundedType`: FX iff both bounds equal, DB iff both differ, LO iff only the lower, UP iff only the upper, FR iff neither |
| `GLPKBounds.AsReal` | com.patrikdufresne.ilp.glpk/src/main/java/com/patrikdufresne/ilp/glpk/GLPKVariable.java:145-155 | `lb.doubleValue()` of a nullable Number; null stays null |
| `GLPKBounds.LowerOf` | com.patrikdufresne.ilp.glpk/src/main/java/com/patrikdufresne/ilp/glpk/GLPKVariable.java:70-78 | a lower bound of -DBL_MAX reads back as null, any other value as itself |
| `GLPKBounds.UpperOf` | com.patrikdufresne.ilp.glpk/src/main/java/com/patrikdufresne/ilp/glpk/GLPKVariable.java:104-112 | an upper bound of DBL_MAX reads back as null, any other value as itself |
| `GLPKBounds.NormalLower` | com.patrikdufresne.ilp.glpk/src/main/java/com/patrikdufresne/ilp/glpk/GLPKVariable.java:70-78 | a written lower bound reads back as itself unless it is null or -DBL_MAX |
| `GLPKBounds.NormalUpper` | com.patrikdufresne.ilp.glpk/src/main/java/com/patrikdufresne/ilp/glpk/GLPKVariable.java:104-112 | a written upper bound reads back as itself unless it is null or DBL_MAX |
| `GLPKBounds.StoreReadsBack` | com.patrikdufresne.ilp.glpk/src/main/java/com/patrikdufresne/ilp/glpk/GLPKVariable.java:145-155 | a pair stored with `boundedType` reads back as the pair written, up to the sentinels |
| `GLPKBounds.NormalIsIdempotent` | com.patrikdufresne.ilp.glpk/src/main/java/com/patrikdufresne/ilp/glpk/GLPKVariable.java:70-78 | a bound that was read back reads back as itself when written again |
| `GLPKBounds.SetLowerKeepsUpper` | com.patrikdufresne.ilp.glpk/src/main/java/com/patrikdufresne/ilp/glpk/GLPKVariable.java:145-155 | `setLowerBound` reads the upper bound first, so the upper bound is kept and the lower one is the value written |
| `GLPKBounds.SetUpperKeepsLower` | com.patrikdufresne.ilp.glpk/src/main/java/com/patrikdufresne/ilp/glpk/GLPKVariable.java:206-215 | `setUpperBound` keeps the lower bound and reads back the value written |
| `GLPKBounds.TypeOf` | com.patrikdufresne.ilp.glpk/src/main/java/com/patrikdufresne/ilp/glpk/GLPKVariable.java:87-101 | `getType`: GLP_BV is BOOL, GLP_IV INTEGER and GLP_CV REAL |
| `GLPKBounds.TypeReadsBack` | com.patrikdufresne.ilp.glpk/src/main/java/com/patrikdufresne/ilp/glpk/GLPKVariable.java:177-200 | BOOL and REAL read back as set; INTEGER reads back as BOOL exactly when the bounds are [0,1]; only BOOL rewrites the bounds, to [0,1] |
| `GLPKRows.Utf16Length` | com.patrikdufresne.ilp.glpk/src/main/java/com/patrikdufresne/ilp/glpk/GLPKVariable.java:165 | Java's `length()`: at least one and at most two code units per character |
| `GLPKRows.BmpLength` | com.patrikdufresne.ilp.glpk/src/main/java/com/patrikdufresne/ilp/glpk/GLPKVariable.java:165 | a name of Basic Multilingual Plane characters has one code unit per character |
| `GLPKRows.SupplementaryLength` | com.patrikdufresne.ilp.glpk/src/main/java/com/patrikdufresne/ilp/glpk/GLPKVariable.java:165 | a name of characters outside the Basic Multilingual Plane has two code units per character |
| `GLPKRows.EmojiNameTooLong` | com.patrikdufresne.ilp.glpk/src/main/java/com/patrikdufresne/ilp/glpk/GLPKConstraint.java:237 | 128 copies of U+1F600 are 128 characters but more than 255 code units, so the name is refused |
| `GLPKRows.ColTypes` | com.patrikdufresne.ilp.glpk/src/main/java/com/patrikdufresne/ilp/glpk/GLPKLinearProblem.java:399-406 | the type of every column, in column order |
| `GLPKRows.MIPMeansAllInteger` | com.patrikdufresne.ilp.glpk/src/main/java/com/patrikdufresne/ilp/glpk/GLPKLinearProblem.java:399-406 | a problem is a MIP iff every column is integer |
| `GLPKRows.SameKindsSameMIP` | com.patrikdufresne.ilp.glpk/src/main/java/com/patrikdufresne/ilp/glpk/GLPKLinearProblem.java:399-406 | problems whose columns have the same integrality agree on `isMIP` |
| `GLPKRows.RowTerms` | com.patrikdufresne.ilp.glpk/src/main/java/com/patrikdufresne/ilp/glpk/GLPKConstraint.java:102-129 | one term per row entry, its coefficient and the variable at that column, in row order |
| `GLPKRows.RowTermFresh` | com.patrikdufresne.ilp.glpk/src/main/java/com/patrikdufresne/ilp/glpk/GLPKConstraint.java:102-129 | a well-formed row over distinct variables yields each term once, so `add` never drops one |
| `GLPKRows.NonZeroTermsElems` | com.patrikdufresne.ilp.glpk/src/main/java/com/patrikdufresne/ilp/glpk/GLPKConstraint.java:198-219 | the non-zero terms of a linear are exactly its terms with a non-zero coefficient |
| `GLPKRows.ObjTermsElems` | com.patrikdufresne.ilp.glpk/src/main/java/com/patrikdufresne/ilp/glpk/GLPKLinearProblem.java:318-342 | the objective terms are exactly the columns with a non-zero coefficient, paired with their variable |
| `GLPKRows.WriteCoefs` | com.patrikdufresne.ilp.glpk/src/main/java/com/patrikdufresne/ilp/glpk/GLPKLinearProblem.java:532-552 | writing objective coefficients one by one fails iff some column is out of range, and touches only coefficients |
| `GLPKRows.WriteCoefsValues` | com.patrikdufresne.ilp.glpk/src/main/java/com/patrikdufresne/ilp/glpk/GLPKLinearProblem.java:532-552 | after the writes each written column holds its written value and every other column keeps its coefficient |
| `GLPKRows.PlacedRowRoundTrip` | com.patrikdufresne.ilp.glpk/src/main/java/com/patrikdufresne/ilp/glpk/GLPKConstraint.java:198-219 | a linear over distinct live variables is accepted by GLPK, and the row read back holds exactly its non-zero terms, in order |
| `GLPKRows.PlacedObjectiveRoundTrip` | com.patrikdufresne.ilp.glpk/src/main/java/com/patrikdufresne/ilp/glpk/GLPKLinearProblem.java:532-552 | clearing every coefficient and writing a linear over distinct live variables is accepted, and the objective read back has exactly its non-zero terms |
| `GLPK.ElemsOf` | com.patrikdufresne.ilp.glpk/src/main/java/com/patrikdufresne/ilp/glpk/GLPKConstraint.java:198-219 | the `cols`/`coefs` arrays built from a linear: one entry per term, its variable's column and its coefficient, in iteration order |
| `GLPK.RowTermsElems` | com.patrikdufresne.ilp.glpk/src/main/java/com/patrikdufresne/ilp/glpk/GLPKConstraint.java:102-129 | reading a row back as terms and writing those terms gives the same row entries |
| `GLPK.RowRoundTrip` | com.patrikdufresne.ilp.glpk/src/main/java/com/patrikdufresne/ilp/glpk/GLPKConstraint.java:198-219 | a linear over distinct live variables is accepted by `glp_set_mat_row`, and `getLinear` then returns exactly its non-zero terms, in order |
| `GLPK.ObjectiveRoundTrip` | com.patrikdufresne.ilp.glpk/src/main/java/com/patrikdufresne/ilp/glpk/GLPKLinearProblem.java:532-552 | `setObjectiveLinear` of a linear over distinct live variables succeeds, and `getObjectiveLinear` then has exactly its non-zero terms |
| `GLPK.FillLinear` | com.patrikdufresne.ilp.glpk/src/main/java/com/patrikdufresne/ilp/glpk/GLPKConstraint.java:102-129 | the copy loop of `getLinear` adds one term per row entry, in row order, to a fresh linear |
| `GLPK.Problem.constructor` | com.patrikdufresne.ilp.glpk/src/main/java/com/patrikdufresne/ilp/glpk/GLPKLinearProblem.java:122-124 | a new problem: an empty native problem, no variable or constraint, no name taken, no cached MIP flag, status UNKNOWN |
| `GLPK.Problem.CheckProblem` | com.patrikdufresne.ilp.glpk/src/main/java/com/patrikdufresne/ilp/glpk/GLPKLinearProblem.java:233-237 | fails with the disposed error exactly when the problem is disposed |
| `GLPK.Problem.CheckVariableName` | com.patrikdufresne.ilp.glpk/src/main/java/com/patrikdufresne/ilp/glpk/GLPKLinearProblem.java:147-154 | ERROR_DUPLICATE_NAME exactly for a null name or one a live variable has |
| `GLPK.Problem.CheckConstraintName` | com.patrikdufresne.ilp.glpk/src/main/java/com/patrikdufresne/ilp/glpk/GLPKLinearProblem.java:132-139 | ERROR_DUPLICATE_NAME exactly for a null name or one a live constraint has |
| `GLPK.Problem.GetStatus` | com.patrikdufresne.ilp.glpk/src/main/java/com/patrikdufresne/ilp/glpk/GLPKLinearProblem.java:371-377 | the disposed error on a disposed problem; otherwise the last solver status, UNKNOWN before any solve |
| `GLPK.Problem.CheckSolution` | com.patrikdufresne.ilp.glpk/src/main/java/com/patrikdufresne/ilp/glpk/GLPKLinearProblem.java:242-247 | passes iff the status is FEASIBLE or OPTIMAL; otherwise "solution not available" |
| `GLPK.Problem.GetCol` | com.patrikdufresne.ilp.glpk/src/main/java/com/patrikdufresne/ilp/glpk/GLPKLinearProblem.java:265-271 | the variable at column `col`, or IndexOutOfBoundsException outside 1..count |
| `GLPK.Problem.Dispose` | com.patrikdufresne.ilp.glpk/src/main/java/com/patrikdufresne/ilp/glpk/GLPKLinearProblem.java:250-256 | afterwards the problem is disposed; disposing twice is harmless |
| `GLPK.Problem.GetName` | com.patrikdufresne.ilp.glpk/src/main/java/com/patrikdufresne/ilp/glpk/GLPKLinearProblem.java:288-291 | the stored problem name |
| `GLPK.Problem.SetName` | com.patrikdufresne.ilp.glpk/src/main/java/com/patrikdufresne/ilp/glpk/GLPKLinearProblem.java:500-508 | a name over 255 UTF-16 code units throws IndexOutOfBoundsException and changes nothing; otherwise `getName` returns it (empty as null) |
| `GLPK.Problem.GetObjectiveName` | com.patrikdufresne.ilp.glpk/src/main/java/com/patrikdufresne/ilp/glpk/GLPKLinearProblem.java:345-349 | the stored objective name |
| `GLPK.Problem.SetObjectiveName` | com.patrikdufresne.ilp.glpk/src/main/java/com/patrikdufresne/ilp/glpk/GLPKLinearProblem.java:557-564 | over 255 UTF-16 code units throws IndexOutOfBoundsException; otherwise `getObjectiveName` returns it |
| `GLPK.Problem.GetObjectiveDirection` | com.patrikdufresne.ilp.glpk/src/main/java/com/patrikdufresne/ilp/glpk/GLPKLinearProblem.java:299-309 | MAXIMIZE iff GLPK maximises, MINIMIZE iff it minimises |
| `GLPK.Problem.SetObjectiveDirection` | com.patrikdufresne.ilp.glpk/src/main/java/com/patrikdufresne/ilp/glpk/GLPKLinearProblem.java:514-526 | any value other than MAXIMIZE or MINIMIZE throws IllegalArgumentException; otherwise `getObjectiveDirection` returns the value set |
| `GLPK.Problem.IsMIP` | com.patrikdufresne.ilp.glpk/src/main/java/com/patrikdufresne/ilp/glpk/GLPKLinearProblem.java:399-406 | the cached answer when there is one; otherwise true iff no column is REAL, then cached |
| `GLPK.Problem.GetObjectiveValue` | com.patrikdufresne.ilp.glpk/src/main/java/com/patrikdufresne/ilp/glpk/GLPKLinearProblem.java:355-365 | fails without a solution; otherwise the MIP objective value of a MIP and the LP objective value of an LP |
| `GLPK.Problem.GetObjectiveLinear` | com.patrikdufresne.ilp.glpk/src/main/java/com/patrikdufresne/ilp/glpk/GLPKLinearProblem.java:318-342 | no column gives an empty new linear; all coefficients zero gives null; otherwise a fresh linear of the columns with a non-zero coefficient |
| `GLPK.Problem.SetObjectiveLinear` | com.patrikdufresne.ilp.glpk/src/main/java/com/patrikdufresne/ilp/glpk/GLPKLinearProblem.java:532-552 | every coefficient is first cleared; a null or empty linear stops there; otherwise each term's coefficient is written, a column out of range failing |
| `GLPK.Problem.AddCol` | com.patrikdufresne.ilp.glpk/src/main/java/com/patrikdufresne/ilp/glpk/GLPKLinearProblem.java:162-180 | appends the variable with col = new count, adds a native column, takes its name and clears the MIP cache |
| `GLPK.Problem.AddRow` | com.patrikdufresne.ilp.glpk/src/main/java/com/patrikdufresne/ilp/glpk/GLPKLinearProblem.java:196-212 | appends the constraint with row = new count, adds a native row and takes its name |
| `GLPK.Problem.CreateVariable` | com.patrikdufresne.ilp.glpk/src/main/java/com/patrikdufresne/ilp/glpk/GLPKVariable.java:36-45 | the two-argument variable constructor: registers the column, then a name over 255 UTF-16 code units throws IllegalArgumentException, leaving the column added |
| `GLPK.Problem.CreateConstraint` | com.patrikdufresne.ilp.glpk/src/main/java/com/patrikdufresne/ilp/glpk/GLPKConstraint.java:68-77 | the constraint constructor: registers the row, then a name over 255 UTF-16 code units throws, leaving the row added |
| `GLPK.Problem.AddVariable` | com.patrikdufresne.ilp.glpk/src/main/java/com/patrikdufresne/ilp/glpk/GLPKLinearProblem.java:218-228 | disposed or duplicate name: nothing changes; otherwise a new variable of the given type and name, null bounds for INTEGER and REAL, [0,1] for BOOL |
| `GLPK.Problem.AddBinaryVariable` | com.patrikdufresne.ilp/src/main/java/com/patrikdufresne/ilp/AbstractLinearProblem.java:62-64 | `addVariable(name, BOOL)`: a BOOL variable bounded by [0,1] |
| `GLPK.Problem.AddIntegerVariable` | com.patrikdufresne.ilp/src/main/java/com/patrikdufresne/ilp/AbstractLinearProblem.java:103-108 | an INTEGER variable whose bounds are then the given ones |
| `GLPK.Problem.AddConstraint` | com.patrikdufresne.ilp.glpk/src/main/java/com/patrikdufresne/ilp/glpk/GLPKLinearProblem.java:183-188 | disposed or duplicate name: nothing changes; otherwise one new empty row with that name |
| `GLPK.Problem.AddConstraintWith` | com.patrikdufresne.ilp/src/main/java/com/patrikdufresne/ilp/AbstractLinearProblem.java:94-100 | `addConstraint(name)`, then `setLinear`, `setLowerBound`, `setUpperBound`. A disposed problem or a taken name fails as `addConstraint` does. A name over 255 UTF-16 code units or a linear with a disposed variable is an IllegalArgumentException. Otherwise it succeeds exactly when the row's columns are in range and distinct, which is what `glp_set_mat_row` accepts. The new constraint then reads back the given name, the linear's non-zero terms and the normalised bounds |
| `GLPK.Problem.RemoveCol` | com.patrikdufresne.ilp.glpk/src/main/java/com/patrikdufresne/ilp/glpk/GLPKLinearProblem.java:431-453 | an absent variable throws RuntimeException; otherwise the variable is detached, the column deleted, its name freed and every later variable renumbered to position+1 |
| `GLPK.Problem.RemoveRow` | com.patrikdufresne.ilp.glpk/src/main/java/com/patrikdufresne/ilp/glpk/GLPKLinearProblem.java:455-477 | an absent constraint throws RuntimeException; otherwise the constraint is detached, the row deleted, its name freed and every later constraint renumbered |
| `GLPK.Variable.CheckVariable` | com.patrikdufresne.ilp.glpk/src/main/java/com/patrikdufresne/ilp/glpk/GLPKVariable.java:50-55 | the disposed error exactly when the variable or its problem is disposed |
| `GLPK.Variable.GetLowerBound` | com.patrikdufresne.ilp.glpk/src/main/java/com/patrikdufresne/ilp/glpk/GLPKVariable.java:70-78 | the column's lower bound, null for -DBL_MAX |
| `GLPK.Variable.GetUpperBound` | com.patrikdufresne.ilp.glpk/src/main/java/com/patrikdufresne/ilp/glpk/GLPKVariable.java:104-112 | the column's upper bound, null for DBL_MAX |
| `GLPK.Variable.GetName` | com.patrikdufresne.ilp.glpk/src/main/java/com/patrikdufresne/ilp/glpk/GLPKVariable.java:81-84 | the column's name; NullPointerException once the variable has no parent |
| `GLPK.Variable.GetType` | com.patrikdufresne.ilp.glpk/src/main/java/com/patrikdufresne/ilp/glpk/GLPKVariable.java:87-101 | the type of the variable's column |
| `GLPK.Variable.SetLowerBound` | com.patrikdufresne.ilp.glpk/src/main/java/com/patrikdufresne/ilp/glpk/GLPKVariable.java:145-155 | only the column's bounds change: the upper bound is kept and the lower one reads back as written |
| `GLPK.Variable.SetUpperBound` | com.patrikdufresne.ilp.glpk/src/main/java/com/patrikdufresne/ilp/glpk/GLPKVariable.java:206-215 | only the column's bounds change: the lower bound is kept and the upper one reads back as written |
| `GLPK.Variable.SetName` | com.patrikdufresne.ilp.glpk/src/main/java/com/patrikdufresne/ilp/glpk/GLPKVariable.java:162-170 | over 255 UTF-16 code units throws IllegalArgumentException and changes nothing; otherwise only the column name changes |
| `GLPK.Variable.SetType` | com.patrikdufresne.ilp.glpk/src/main/java/com/patrikdufresne/ilp/glpk/GLPKVariable.java:177-200 | the column becomes BOOL with [0,1], INTEGER or REAL; the MIP cache is cleared for every type, so the problem's invariant (a cached `isMIP` answer agrees with the column kinds) is kept; BOOL and REAL read back as set |
| `GLPK.Variable.GetValue` | com.patrikdufresne.ilp.glpk/src/main/java/com/patrikdufresne/ilp/glpk/GLPKVariable.java:122-130 | fails without a FEASIBLE or OPTIMAL solution; otherwise the MIP value in a MIP and the primal value in an LP |
| `GLPK.Variable.Dispose` | com.patrikdufresne.ilp.glpk/src/main/java/com/patrikdufresne/ilp/glpk/GLPKVariable.java:61-67 | idempotent; otherwise `removeCol(this)` |
| `GLPK.SetTypeAsWrittenGoesStale` | com.patrikdufresne.ilp.glpk/src/main/java/com/patrikdufresne/ilp/glpk/GLPKVariable.java:177-200 | as written, `setType(INTEGER)` keeps a cached `false` although the problem has become a MIP |
| `GLPK.RemoveColAsWrittenGoesStale` | com.patrikdufresne.ilp.glpk/src/main/java/com/patrikdufresne/ilp/glpk/GLPKLinearProblem.java:431-453 | as written, removing the only REAL column keeps a cached `false` although the problem has become a MIP |
| `GLPK.Constraint.CheckConstraint` | com.patrikdufresne.ilp.glpk/src/main/java/com/patrikdufresne/ilp/glpk/GLPKConstraint.java:82-87 | the disposed error exactly when the constraint or its problem is disposed |
| `GLPK.Constraint.GetName` | com.patrikdufresne.ilp.glpk/src/main/java/com/patrikdufresne/ilp/glpk/GLPKConstraint.java:150-154 | the row's name |
| `GLPK.Constraint.GetLowerBound` | com.patrikdufresne.ilp.glpk/src/main/java/com/patrikdufresne/ilp/glpk/GLPKConstraint.java:135-144 | the row's lower bound, null for -DBL_MAX |
| `GLPK.Constraint.GetUpperBound` | com.patrikdufresne.ilp.glpk/src/main/java/com/patrikdufresne/ilp/glpk/GLPKConstraint.java:160-168 | the row's upper bound, null for DBL_MAX |
| `GLPK.Constraint.IsEmpty` | com.patrikdufresne.ilp.glpk/src/main/java/com/patrikdufresne/ilp/glpk/GLPKConstraint.java:186-191 | true iff the row has no entry |
| `GLPK.Constraint.SetName` | com.patrikdufresne.ilp.glpk/src/main/java/com/patrikdufresne/ilp/glpk/GLPKConstraint.java:234-242 | over 255 UTF-16 code units throws IllegalArgumentException; otherwise `getName` returns the name |
| `GLPK.Constraint.SetLowerBound` | com.patrikdufresne.ilp.glpk/src/main/java/com/patrikdufresne/ilp/glpk/GLPKConstraint.java:222-229 | the entries and the upper bound are kept; the lower bound reads back as written |
| `GLPK.Constraint.SetUpperBound` | com.patrikdufresne.ilp.glpk/src/main/java/com/patrikdufresne/ilp/glpk/GLPKConstraint.java:248-255 | the entries and the lower bound are kept; the upper bound reads back as written |
| `GLPK.Constraint.SetLinear` | com.patrikdufresne.ilp.glpk/src/main/java/com/patrikdufresne/ilp/glpk/GLPKConstraint.java:198-219 | a disposed variable in the linear throws IllegalArgumentException before anything is written; otherwise the whole row is replaced by the linear's non-zero terms (null: an empty row), bounds kept |
| `GLPK.Constraint.StoreRow` | com.patrikdufresne.ilp.glpk/src/main/java/com/patrikdufresne/ilp/glpk/GLPKConstraint.java:202-218 | `glp_set_mat_row` stores the terms' entries when GLPK accepts them (the row then holds the non-zero ones, bounds kept) and changes nothing when it refuses |
| `GLPK.BuildElems` | com.patrikdufresne.ilp.glpk/src/main/java/com/patrikdufresne/ilp/glpk/GLPKConstraint.java:206-215 | the copy loop of `setLinear` produces exactly each term's column number and coefficient, in order |
| `GLPK.Constraint.GetLinear` | com.patrikdufresne.ilp.glpk/src/main/java/com/patrikdufresne/ilp/glpk/GLPKConstraint.java:102-129 | a fresh linear, never null: never used for an empty row, otherwise one term per row entry |
| `GLPK.Constraint.GetValue` | com.patrikdufresne.ilp.glpk/src/main/java/com/patrikdufresne/ilp/glpk/GLPKConstraint.java:171-178 | fails without a solution; otherwise the row's MIP or primal value |
| `GLPK.Constraint.Dispose` | com.patrikdufresne.ilp.glpk/src/main/java/com/patrikdufresne/ilp/glpk/GLPKConstraint.java:90-95 | idempotent; otherwise `removeRow(this)` |
| `Cbc.ElemsOf` | com.patrikdufresne.ilp.cbc/src/main/java/com/patrikdufresne/ilp/cbc/CbcLinearProblem.java:172-177 | the `columns`/`coefs` arrays built from a linear: one entry per term, its variable's column and its coefficient, in iteration order |
| `Cbc.Columns` | com.patrikdufresne.ilp.cbc/src/main/java/com/patrikdufresne/ilp/cbc/CbcLinearProblem.java:172-177 | the copy loop of `addRow` produces exactly `ElemsOf` of the terms |
| `Cbc.TypedReadsBack` | com.patrikdufresne.ilp.cbc/src/main/java/com/patrikdufresne/ilp/cbc/CbcVariable.java:89-99 | after `setType(t)`, `getType` reports `t` for BOOL and REAL; for INTEGER it reports BOOL when the bounds are already 0..1 |
| `Cbc.NewVariableType` | com.patrikdufresne.ilp.cbc/src/main/java/com/patrikdufresne/ilp/cbc/CbcLinearProblem.java:197-207 | a variable added with type `t` reads back as type `t` |
| `Cbc.CompactAsWritten` | com.patrikdufresne.ilp.cbc/src/main/java/com/patrikdufresne/ilp/cbc/CbcLinearProblem.java:410-415 | the `bestSolution` compaction as written: an array of length 0 or 1 is kept as is, otherwise it loses the entry at `index`, and an index past its end throws IndexOutOfBoundsException |
| `Cbc.Compact` | com.patrikdufresne.ilp.cbc/src/main/java/com/patrikdufresne/ilp/cbc/CbcLinearProblem.java:410-415 | the corrected compaction: drops exactly one entry when `index` is inside the array, otherwise keeps it |
| `Cbc.CompactKeepsValues` | com.patrikdufresne.ilp.cbc/src/main/java/com/patrikdufresne/ilp/cbc/CbcLinearProblem.java:396-423 | after removing column `index`, the value of every remaining column `j` is the old value of the column it came from |
| `Cbc.CompactAsWrittenKeepsStaleValue` | com.patrikdufresne.ilp.cbc/src/main/java/com/patrikdufresne/ilp/cbc/CbcLinearProblem.java:410-415 | removing the only column of a one-column solution keeps its value, so a later variable in column 0 would read a stale value |
| `Cbc.CompactAsWrittenThrowsPastEnd` | com.patrikdufresne.ilp.cbc/src/main/java/com/patrikdufresne/ilp/cbc/CbcLinearProblem.java:410-415 | a solution shorter than the column count makes the as-written compaction throw, where the corrected one keeps the array |
| `Cbc.AppendCol` | com.patrikdufresne.ilp.cbc/src/main/java/com/patrikdufresne/ilp/cbc/CbcLinearProblem.java:119-123 | `addCol` appends one free, continuous, named column and changes no row nor the objective sense |
| `Cbc.ElemsOfColumns` | com.patrikdufresne.ilp.cbc/src/main/java/com/patrikdufresne/ilp/cbc/CbcLinearProblem.java:172-177 | the column indices of a linear over distinct live variables are in range, distinct and name those variables |
| `Cbc.WrittenTermReadBack` | com.patrikdufresne.ilp.cbc/src/main/java/com/patrikdufresne/ilp/cbc/CbcConstraint.java:81-94 | every non-zero term written to a row is found again by `getLinear` |
| `Cbc.ReadBackTermWritten` | com.patrikdufresne.ilp.cbc/src/main/java/com/patrikdufresne/ilp/cbc/CbcConstraint.java:81-94 | every term `getLinear` reads from a written row was in the written linear |
| `Cbc.LinearRoundTrip` | com.patrikdufresne.ilp.cbc/src/main/java/com/patrikdufresne/ilp/cbc/CbcConstraint.java:150-170 | writing a linear over distinct live variables and reading it back gives exactly its non-zero terms |
| `Cbc.ObjectiveAsWrittenKeepsUnlisted` | com.patrikdufresne.ilp.cbc/src/main/java/com/patrikdufresne/ilp/cbc/CbcLinearProblem.java:482-501 | as written, a column with a non-zero objective coefficient that the new linear does not mention is still read back as a term, though the linear lacks it |
| `Cbc.RowAsWrittenKeepsUnlisted` | com.patrikdufresne.ilp.cbc/src/main/java/com/patrikdufresne/ilp/cbc/CbcConstraint.java:150-170 | as written, a column with a non-zero row coefficient that the new linear does not mention is still read back as a term of the row |
| `Cbc.ReplaceObjective` | com.patrikdufresne.ilp.cbc/src/main/java/com/patrikdufresne/ilp/cbc/CbcLinearProblem.java:482-501 | the corrected objective write: clear every coefficient, then write the linear; refused iff a column is out of range; rows and sense kept |
| `Cbc.ReplaceRow` | com.patrikdufresne.ilp.cbc/src/main/java/com/patrikdufresne/ilp/cbc/CbcConstraint.java:150-170 | the corrected row write: clear the row, then write the linear; refused iff a column is out of range; other rows, and this row's name and bounds, kept |
| `Cbc.ReplacedObjectiveRoundTrip` | com.patrikdufresne.ilp.cbc/src/main/java/com/patrikdufresne/ilp/cbc/CbcLinearProblem.java:482-501 | with the corrected write, whatever the old objective, exactly the linear's non-zero terms are read back |
| `Cbc.ReplacedRowRoundTrip` | com.patrikdufresne.ilp.cbc/src/main/java/com/patrikdufresne/ilp/cbc/CbcConstraint.java:150-170 | with the corrected write, whatever the old row, exactly the linear's non-zero terms are read back |
| `Cbc.Problem.constructor` | com.patrikdufresne.ilp.cbc/src/main/java/com/patrikdufresne/ilp/cbc/CbcLinearProblem.java:99-103 | a new problem: an empty native model, no variable or constraint, no name taken, status UNKNOWN, no solution |
| `Cbc.Problem.CheckProblem` | com.patrikdufresne.ilp.cbc/src/main/java/com/patrikdufresne/ilp/cbc/CbcLinearProblem.java:227-231 | fails with the disposed error exactly when the problem is disposed |
| `Cbc.Problem.CheckVariableName` | com.patrikdufresne.ilp.cbc/src/main/java/com/patrikdufresne/ilp/cbc/CbcLinearProblem.java:255-262 | ERROR_DUPLICATE_NAME exactly for a null name or one already taken by a variable |
| `Cbc.Problem.CheckConstraintName` | com.patrikdufresne.ilp.cbc/src/main/java/com/patrikdufresne/ilp/cbc/CbcLinearProblem.java:215-222 | ERROR_DUPLICATE_NAME exactly for a null name or one already taken by a constraint |
| `Cbc.Problem.CheckSolution` | com.patrikdufresne.ilp.cbc/src/main/java/com/patrikdufresne/ilp/cbc/CbcLinearProblem.java:236-247 | passes iff the status is FEASIBLE or OPTIMAL and a solution array exists; a null status is a NullPointerException, any other failure "solution not available" |
| `Cbc.Problem.GetStatus` | com.patrikdufresne.ilp.cbc/src/main/java/com/patrikdufresne/ilp/cbc/CbcLinearProblem.java:358-364 | the disposed error on a disposed problem; otherwise the last status, UNKNOWN when none |
| `Cbc.Problem.GetCol` | com.patrikdufresne.ilp.cbc/src/main/java/com/patrikdufresne/ilp/cbc/CbcLinearProblem.java:281-287 | NullPointerException while the variable list is still null (no `addCol` yet); otherwise the variable at `col`, IndexOutOfBoundsException outside the list, "Variables list corrupted" when the stored column disagrees, which never happens in a valid problem |
| `Cbc.Problem.Dispose` | com.patrikdufresne.ilp.cbc/src/main/java/com/patrikdufresne/ilp/cbc/CbcLinearProblem.java:265-272 | afterwards the problem is disposed and holds no solution |
| `Cbc.Problem.GetName` | com.patrikdufresne.ilp.cbc/src/main/java/com/patrikdufresne/ilp/cbc/CbcLinearProblem.java:304-307 | the stored problem name, or the disposed error |
| `Cbc.Problem.SetName` | com.patrikdufresne.ilp.cbc/src/main/java/com/patrikdufresne/ilp/cbc/CbcLinearProblem.java:455-458 | on a live problem `getName` then returns the name set; on a disposed one nothing changes |
| `Cbc.Problem.GetObjectiveDirection` | com.patrikdufresne.ilp.cbc/src/main/java/com/patrikdufresne/ilp/cbc/CbcLinearProblem.java:315-319 | MINIMIZE iff the native sense is positive, MAXIMIZE otherwise |
| `Cbc.Problem.SetObjectiveDirection` | com.patrikdufresne.ilp.cbc/src/main/java/com/patrikdufresne/ilp/cbc/CbcLinearProblem.java:464-476 | any value other than MAXIMIZE or MINIMIZE throws IllegalArgumentException; otherwise the sense is -1 or 1 and `getObjectiveDirection` returns the value set |
| `Cbc.Problem.GetObjectiveValue` | com.patrikdufresne.ilp.cbc/src/main/java/com/patrikdufresne/ilp/cbc/CbcLinearProblem.java:347-352 | the cached objective value once a solution is available, otherwise the error of `checkSolution` |
| `Cbc.Problem.GetObjectiveLinear` | com.patrikdufresne.ilp.cbc/src/main/java/com/patrikdufresne/ilp/cbc/CbcLinearProblem.java:327-341 | null when every objective coefficient is zero, otherwise a fresh linear holding one term per non-zero coefficient |
| `Cbc.Problem.FillTerms` | com.patrikdufresne.ilp.cbc/src/main/java/com/patrikdufresne/ilp/cbc/CbcLinearProblem.java:332-338 | the copy loop adds the non-zero coefficients, in column order, and creates the linear only for the first one |
| `Cbc.Problem.SetObjectiveLinear` | com.patrikdufresne.ilp.cbc/src/main/java/com/patrikdufresne/ilp/cbc/CbcLinearProblem.java:482-501 | a disposed problem or a linear with a disposed variable is refused and changes nothing (a live variable of another problem is accepted); otherwise each term's coefficient is written over the old objective at its column, and every column the linear does not mention keeps its old coefficient (Findings) |
| `Cbc.Problem.AddCol` | com.patrikdufresne.ilp.cbc/src/main/java/com/patrikdufresne/ilp/cbc/CbcLinearProblem.java:111-129 | the variable is appended at the next column, the native model gains one free column with its name, the name is taken, nothing else changes |
| `Cbc.Problem.AddVariable` | com.patrikdufresne.ilp.cbc/src/main/java/com/patrikdufresne/ilp/cbc/CbcLinearProblem.java:197-207 | a disposed problem or a taken name is refused and changes nothing; otherwise a fresh live variable of the requested type with that name is appended |
| `Cbc.Problem.AddRow` | com.patrikdufresne.ilp.cbc/src/main/java/com/patrikdufresne/ilp/cbc/CbcLinearProblem.java:160-191 | the row gets the linear's entries and the bounds, with null bounds written as the infinity sentinel; a native refusal changes nothing |
| `Cbc.Problem.AddConstraint` | com.patrikdufresne.ilp.cbc/src/main/java/com/patrikdufresne/ilp/cbc/CbcLinearProblem.java:132-137 | a disposed problem or a taken name is refused and changes nothing; otherwise a fresh live empty, unbounded constraint with that name is appended |
| `Cbc.Problem.AddConstraintWith` | com.patrikdufresne.ilp.cbc/src/main/java/com/patrikdufresne/ilp/cbc/CbcLinearProblem.java:143-149 | as `addConstraint`, and a bad linear is refused too; the new constraint reads back its name, its normalised bounds and the linear's coefficients |
| `Cbc.Problem.RemoveCol` | com.patrikdufresne.ilp.cbc/src/main/java/com/patrikdufresne/ilp/cbc/CbcLinearProblem.java:396-423 | a variable not in the problem is a RuntimeException; otherwise its column is deleted, later columns shift down, its name is released and the solution is compacted by the corrected `Cbc.Compact` (Findings) |
| `Cbc.Problem.RemoveRow` | com.patrikdufresne.ilp.cbc/src/main/java/com/patrikdufresne/ilp/cbc/CbcLinearProblem.java:425-440 | a constraint not in the problem is a RuntimeException; otherwise its row is deleted, later rows shift down and its name is released |
| `Cbc.Variable.constructor` | com.patrikdufresne.ilp.cbc/src/main/java/com/patrikdufresne/ilp/cbc/CbcVariable.java:40-48 | a new variable starts detached, with column 0, until `addCol` attaches it |
| `Cbc.Variable.CheckVariable` | com.patrikdufresne.ilp.cbc/src/main/java/com/patrikdufresne/ilp/cbc/CbcVariable.java:53-58 | fails with the disposed error exactly when the variable or its problem is disposed |
| `Cbc.Variable.GetLowerBound` | com.patrikdufresne.ilp.cbc/src/main/java/com/patrikdufresne/ilp/cbc/CbcVariable.java:73-80 | the column's lower bound, null when it is the negative infinity sentinel |
| `Cbc.Variable.GetUpperBound` | com.patrikdufresne.ilp.cbc/src/main/java/com/patrikdufresne/ilp/cbc/CbcVariable.java:102-109 | the column's upper bound, null when it is the infinity sentinel |
| `Cbc.Variable.GetName` | com.patrikdufresne.ilp.cbc/src/main/java/com/patrikdufresne/ilp/cbc/CbcVariable.java:83-86 | a detached variable throws NullPointerException, a disposed problem the disposed error, otherwise the column name |
| `Cbc.Variable.GetType` | com.patrikdufresne.ilp.cbc/src/main/java/com/patrikdufresne/ilp/cbc/CbcVariable.java:89-99 | BOOL for a binary column, INTEGER for another integer one, REAL iff the column is continuous |
| `Cbc.Variable.SetLowerBound` | com.patrikdufresne.ilp.cbc/src/main/java/com/patrikdufresne/ilp/cbc/CbcVariable.java:133-136 | replaces only the lower bound; `getLowerBound` then returns the value set (an infinite one as null) and the upper bound and type are kept |
| `Cbc.Variable.SetUpperBound` | com.patrikdufresne.ilp.cbc/src/main/java/com/patrikdufresne/ilp/cbc/CbcVariable.java:159-162 | replaces only the upper bound; `getUpperBound` then returns the value set and the lower bound and type are kept |
| `Cbc.Variable.SetType` | com.patrikdufresne.ilp.cbc/src/main/java/com/patrikdufresne/ilp/cbc/CbcVariable.java:143-153 | BOOL makes the column integer with bounds 0..1, REAL continuous, INTEGER integer; BOOL and REAL read back as set |
| `Cbc.Variable.GetValue` | com.patrikdufresne.ilp.cbc/src/main/java/com/patrikdufresne/ilp/cbc/CbcVariable.java:115-119 | the variable's entry of the best solution, the error of `checkSolution` before a solution, or IndexOutOfBoundsException past the array |
| `Cbc.Variable.Dispose` | com.patrikdufresne.ilp.cbc/src/main/java/com/patrikdufresne/ilp/cbc/CbcVariable.java:64-70 | disposing twice is harmless; otherwise the column is removed from the problem as `removeCol` does, with the solution compacted by the corrected `Cbc.Compact` (Findings) |
| `Cbc.Constraint.constructor` | com.patrikdufresne.ilp.cbc/src/main/java/com/patrikdufresne/ilp/cbc/CbcConstraint.java:48-57 | a new constraint starts detached, with row 0, until `addRow` attaches it |
| `Cbc.Constraint.CheckConstraint` | com.patrikdufresne.ilp.cbc/src/main/java/com/patrikdufresne/ilp/cbc/CbcConstraint.java:62-67 | fails with the disposed error exactly when the constraint or its problem is disposed |
| `Cbc.Constraint.GetName` | com.patrikdufresne.ilp.cbc/src/main/java/com/patrikdufresne/ilp/cbc/CbcConstraint.java:113-116 | the row name of a live constraint |
| `Cbc.Constraint.GetLowerBound` | com.patrikdufresne.ilp.cbc/src/main/java/com/patrikdufresne/ilp/cbc/CbcConstraint.java:100-107 | the row's lower bound, null when it is the negative infinity sentinel |
| `Cbc.Constraint.GetUpperBound` | com.patrikdufresne.ilp.cbc/src/main/java/com/patrikdufresne/ilp/cbc/CbcConstraint.java:122-129 | the row's upper bound, null when it is the infinity sentinel |
| `Cbc.Constraint.GetValue` | com.patrikdufresne.ilp.cbc/src/main/java/com/patrikdufresne/ilp/cbc/CbcConstraint.java:132-137 | always fails: disposed, no solution, or UnsupportedOperationException |
| `Cbc.Constraint.SetName` | com.patrikdufresne.ilp.cbc/src/main/java/com/patrikdufresne/ilp/cbc/CbcConstraint.java:182-185 | `getName` then returns the name set; only the row name changes |
| `Cbc.Constraint.SetLowerBound` | com.patrikdufresne.ilp.cbc/src/main/java/com/patrikdufresne/ilp/cbc/CbcConstraint.java:173-177 | replaces only the row's lower bound and resets the status to UNKNOWN; the upper bound and coefficients are kept |
| `Cbc.Constraint.SetUpperBound` | com.patrikdufresne.ilp.cbc/src/main/java/com/patrikdufresne/ilp/cbc/CbcConstraint.java:191-195 | replaces only the row's upper bound and resets the status to UNKNOWN; the lower bound and coefficients are kept |
| `Cbc.Constraint.SetLinear` | com.patrikdufresne.ilp.cbc/src/main/java/com/patrikdufresne/ilp/cbc/CbcConstraint.java:150-170 | the status becomes UNKNOWN; a linear with a disposed variable throws IllegalArgumentException and keeps the row (a live variable of another problem is accepted); otherwise each term's coefficient is written over the old row at its column, the others keep theirs, and the bounds stay (Findings) |
| `Cbc.Constraint.GetLinear` | com.patrikdufresne.ilp.cbc/src/main/java/com/patrikdufresne/ilp/cbc/CbcConstraint.java:81-94 | the disposed error; NullPointerException while the problem's variable list is still null; otherwise a fresh linear with one term per non-zero coefficient of the row, in column order |
| `Cbc.Constraint.IsEmpty` | com.patrikdufresne.ilp.cbc/src/main/java/com/patrikdufresne/ilp/cbc/CbcConstraint.java:145-147 | `getLinear`'s errors, so NullPointerException before any variable exists; otherwise true iff every coefficient of the row is zero |
| `Cbc.Constraint.Dispose` | com.patrikdufresne.ilp.cbc/src/main/java/com/patrikdufresne/ilp/cbc/CbcConstraint.java:70-75 | disposing twice is harmless; otherwise the row is removed from the problem as `removeRow` does |
| `CbcNative.Create` | com.patrikdufresne.ilp.cbc/src/main/java/com/patrikdufresne/ilp/cbc/CbcLinearProblem.java:99-103 | a new native model has no column, no row and minimises |
| `CbcNative.Zeros` | com.patrikdufresne.ilp.cbc/src/main/java/com/patrikdufresne/ilp/cbc/CbcLinearProblem.java:184-185 | the coefficient vector of a row before any entry is written: all zero, one per column |
| `CbcNative.Written` | com.patrikdufresne.ilp.cbc/src/main/java/com/patrikdufresne/ilp/cbc/CbcConstraint.java:169 | writing `(column, value)` entries over a coefficient vector keeps its length |
| `CbcNative.LastWrite` | com.patrikdufresne.ilp.cbc/src/main/java/com/patrikdufresne/ilp/cbc/CbcConstraint.java:169 | the value the last entry for column `j` writes, absent exactly when no entry names `j` |
| `CbcNative.WrittenSpec` | com.patrikdufresne.ilp.cbc/src/main/java/com/patrikdufresne/ilp/cbc/CbcConstraint.java:169 | after writing, each coefficient is the last value written to its column, or the old coefficient when none was |
| `CbcNative.LastWriteDistinct` | com.patrikdufresne.ilp.cbc/src/main/java/com/patrikdufresne/ilp/cbc/CbcConstraint.java:169 | when the entries name distinct columns, entry `k` is the one that decides its column |
| `CbcNative.AddCol` | com.patrikdufresne.ilp.cbc/src/main/java/com/patrikdufresne/ilp/cbc/CbcLinearProblem.java:122 | `addCol` appends one continuous column with the given bounds and a zero coefficient in every row |
| `CbcNative.DeleteCol` | com.patrikdufresne.ilp.cbc/src/main/java/com/patrikdufresne/ilp/cbc/CbcLinearProblem.java:403 | `deleteCols` removes column `j` from the column list and from every row |
| `CbcNative.AddRow` | com.patrikdufresne.ilp.cbc/src/main/java/com/patrikdufresne/ilp/cbc/CbcLinearProblem.java:184-185 | `addRow` accepts exactly entries whose columns exist, and appends a row holding them and the bounds |
| `CbcNative.DeleteRow` | com.patrikdufresne.ilp.cbc/src/main/java/com/patrikdufresne/ilp/cbc/CbcLinearProblem.java:431 | `deleteRows` removes row `i` and keeps the columns |
| `CbcNative.SetCoefficients` | com.patrikdufresne.ilp.cbc/src/main/java/com/patrikdufresne/ilp/cbc/CbcConstraint.java:169 | `setCoefficients` accepts exactly entries whose columns exist, and writes them over row `i` only |
| `CbcNative.ObjCoefficients` | com.patrikdufresne.ilp.cbc/src/main/java/com/patrikdufresne/ilp/cbc/CbcLinearProblem.java:331 | `getObjCoefficients` has one entry per column, its objective coefficient |
| `CbcNative.SetObjCoefficients` | com.patrikdufresne.ilp.cbc/src/main/java/com/patrikdufresne/ilp/cbc/CbcLinearProblem.java:500 | accepts exactly entries whose columns exist, writes them over the objective, and changes nothing else of any column |
| `CbcNative.WithCol` | com.patrikdufresne.ilp.cbc/src/main/java/com/patrikdufresne/ilp/cbc/CbcVariable.java:133-162 | a column setter replaces column `j` and nothing else |
| `CbcNative.WithRow` | com.patrikdufresne.ilp.cbc/src/main/java/com/patrikdufresne/ilp/cbc/CbcConstraint.java:173-195 | a row setter replaces the name and bounds of row `i`, keeping its coefficients and every other row |
| `Sentinels.WriteLower` | com.patrikdufresne.ilp.cbc/src/main/java/com/patrikdufresne/ilp/cbc/CbcVariable.java:133-136 | a null lower bound is written as minus the solver's infinity, any other as its double value |
| `Sentinels.WriteUpper` | com.patrikdufresne.ilp.cbc/src/main/java/com/patrikdufresne/ilp/cbc/CbcVariable.java:159-162 | a null upper bound is written as the solver's infinity, any other as its double value |
| `Sentinels.ReadLower` | com.patrikdufresne.ilp.cbc/src/main/java/com/patrikdufresne/ilp/cbc/CbcVariable.java:73-80 | a stored lower bound reads back as null exactly when it is minus infinity, otherwise as itself |
| `Sentinels.ReadUpper` | com.patrikdufresne.ilp.cbc/src/main/java/com/patrikdufresne/ilp/cbc/CbcVariable.java:102-109 | a stored upper bound reads back as null exactly when it is infinity, otherwise as itself |
| `Sentinels.NormalLower` | com.patrikdufresne.ilp.cbc/src/main/java/com/patrikdufresne/ilp/cbc/CbcConstraint.java:100-107 | what a lower bound reads back as after it is written: null stays null, a finite value is kept |
| `Sentinels.NormalUpper` | com.patrikdufresne.ilp.cbc/src/main/java/com/patrikdufresne/ilp/cbc/CbcConstraint.java:122-129 | what an upper bound reads back as after it is written: null stays null, a finite value is kept |
| `CbcOptions.OnOff` | com.patrikdufresne.ilp.cbc/src/main/java/com/patrikdufresne/ilp/cbc/CbcSolverOption.java:59-88 | a boolean option is passed as "on" or "off" |
| `CbcOptions.NatToString` | com.patrikdufresne.ilp.cbc/src/main/java/com/patrikdufresne/ilp/cbc/CbcSolverOption.java:74-85 | the decimal form of a natural number: non-empty, digits only, no leading zero |
| `CbcOptions.IntToString` | com.patrikdufresne.ilp.cbc/src/main/java/com/patrikdufresne/ilp/cbc/CbcSolverOption.java:74-85 | `Integer.toString`: non-empty, with a leading minus sign exactly for a negative number |
| `CbcOptions.NatToStringValue` | com.patrikdufresne.ilp.cbc/src/main/java/com/patrikdufresne/ilp/cbc/CbcSolverOption.java:74-85 | the digits of `NatToString(n)` denote `n` |
| `CbcOptions.IntToStringParses` | com.patrikdufresne.ilp.cbc/src/main/java/com/patrikdufresne/ilp/cbc/CbcSolverOption.java:74-85 | parsing `Integer.toString(i)` gives back `i` |
| `CbcOptions.Entry` | com.patrikdufresne.ilp.cbc/src/main/java/com/patrikdufresne/ilp/cbc/CbcSolverOption.java:62-64 | an unset option adds nothing to the arguments; a set one adds its flag followed by its value |
| `CbcOptions.Values` | com.patrikdufresne.ilp.cbc/src/main/java/com/patrikdufresne/ilp/cbc/CbcSolverOption.java:59-88 | one optional value per flag, in the order the arguments are built |
| `CbcOptions.Args` | com.patrikdufresne.ilp.cbc/src/main/java/com/patrikdufresne/ilp/cbc/CbcSolverOption.java:59-88 | the argument list starts with the problem name and ends with "-solve" |
| `CbcOptions.PairsLength` | com.patrikdufresne.ilp.cbc/src/main/java/com/patrikdufresne/ilp/cbc/CbcSolverOption.java:59-88 | the flag/value part holds two strings per option that is set |
| `CbcOptions.ArgsLength` | com.patrikdufresne.ilp.cbc/src/main/java/com/patrikdufresne/ilp/cbc/CbcSolverOption.java:59-88 | the argument list is two strings per set option plus the problem name and "-solve" |
| `CbcOptions.LookupEntry` | com.patrikdufresne.ilp.cbc/src/main/java/com/patrikdufresne/ilp/cbc/CbcSolverOption.java:62-64 | looking a flag up after one entry finds that entry's value when it is this flag and set, otherwise searches on |
| `CbcOptions.LookupAbsent` | com.patrikdufresne.ilp.cbc/src/main/java/com/patrikdufresne/ilp/cbc/CbcSolverOption.java:59-88 | a flag that is not one of the option flags is never found in the arguments |
| `CbcOptions.LookupPairs` | com.patrikdufresne.ilp.cbc/src/main/java/com/patrikdufresne/ilp/cbc/CbcSolverOption.java:59-88 | with distinct flags, looking up flag `k` gives exactly the value of option `k` |
| `CbcOptions.BodyLookup` | com.patrikdufresne.ilp.cbc/src/main/java/com/patrikdufresne/ilp/cbc/CbcSolverOption.java:59-88 | each option's flag, looked up in the arguments, gives that option's value |
| `CbcOptions.BoolValueInjective` | com.patrikdufresne.ilp.cbc/src/main/java/com/patrikdufresne/ilp/cbc/CbcSolverOption.java:62-73 | distinct settings of a boolean option give distinct arguments |
| `CbcOptions.IntValueInjective` | com.patrikdufresne.ilp.cbc/src/main/java/com/patrikdufresne/ilp/cbc/CbcSolverOption.java:74-85 | distinct settings of an integer option give distinct arguments |
| `CbcOptions.ArgsInjective` | com.patrikdufresne.ilp.cbc/src/main/java/com/patrikdufresne/ilp/cbc/CbcSolverOption.java:59-88 | two option objects that give the same argument list hold the same settings, so no setting is lost |
| `CbcOptions.DefaultArgs` | com.patrikdufresne.ilp.cbc/src/main/java/com/patrikdufresne/ilp/cbc/CbcSolverOption.java:44-52 | a new option object gives `problem-name -preprocess off -feasibilityPump off -logLevel 0 -solve` |
| `CbcOptions.SolverOption.constructor` | com.patrikdufresne.ilp.cbc/src/main/java/com/patrikdufresne/ilp/cbc/CbcSolverOption.java:44-52 | a new option object holds the defaults: preprocess and feasibility pump off, log level 0, the rest unset |
| `CbcOptions.SolverOption.GetArgs` | com.patrikdufresne.ilp.cbc/src/main/java/com/patrikdufresne/ilp/cbc/CbcSolverOption.java:59-88 | the arguments are those built from the current settings |
| `CbcOptions.SolverOption.SetCombineSolutions` | com.patrikdufresne.ilp.cbc/src/main/java/com/patrikdufresne/ilp/cbc/CbcSolverOption.java:168-170 | `isCombineSolutions` then returns the value set; no other setting changes |
| `CbcOptions.SolverOption.SetCutsOnOff` | com.patrikdufresne.ilp.cbc/src/main/java/com/patrikdufresne/ilp/cbc/CbcSolverOption.java:178-180 | `getCutsOnOff` then returns the value set; no other setting changes |
| `CbcOptions.SolverOption.SetFeasibilityPump` | com.patrikdufresne.ilp.cbc/src/main/java/com/patrikdufresne/ilp/cbc/CbcSolverOption.java:188-190 | `getFeasibilityPump` then returns the value set; no other setting changes |
| `CbcOptions.SolverOption.SetLogLevel` | com.patrikdufresne.ilp.cbc/src/main/java/com/patrikdufresne/ilp/cbc/CbcSolverOption.java:198-200 | `getLogLevel` then returns the value set; no other setting changes |
| `CbcOptions.SolverOption.SetPreprocess` | com.patrikdufresne.ilp.cbc/src/main/java/com/patrikdufresne/ilp/cbc/CbcSolverOption.java:208-210 | `getPreprocess` then returns the value set; no other setting changes |
| `CbcOptions.SolverOption.SetSLogLevel` | com.patrikdufresne.ilp.cbc/src/main/java/com/patrikdufresne/ilp/cbc/CbcSolverOption.java:218-220 | `getSLogLevel` then returns the value set; no other setting changes |
| `CbcOptions.SolverOption.SetStrategy` | com.patrikdufresne.ilp.cbc/src/main/java/com/patrikdufresne/ilp/cbc/CbcSolverOption.java:228-230 | `getStrategy` then returns the value set; no other setting changes |
| `CbcOptions.SolverOption.SetTrustPseudoCost` | com.patrikdufresne.ilp.cbc/src/main/java/com/patrikdufresne/ilp/cbc/CbcSolverOption.java:238-240 | `getTrustPseudoCost` then returns the value set; no other setting changes |
| `GLPKOptions.BrTech` | com.patrikdufresne.ilp.glpk/src/main/java/com/patrikdufresne/ilp/glpk/GLPKSolverOption.java:69-74 | GLP_BR_LFV exactly for "branch on the last variable", GLP_BR_DTH for anything else |
| `GLPKOptions.SolverOption.constructor` | com.patrikdufresne.ilp.glpk/src/main/java/com/patrikdufresne/ilp/glpk/GLPKSolverOption.java:80-85 | a new option object has no branching technique and no feasibility pump |
| `GLPKOptions.SolverOption.BranchingExclusive` | com.patrikdufresne.ilp.glpk/src/main/java/com/patrikdufresne/ilp/glpk/GLPKSolverOption.java:91-98 | the two branching options are never both reported as enabled |
| `GLPKOptions.SolverOption.SetBranchingLast` | com.patrikdufresne.ilp.glpk/src/main/java/com/patrikdufresne/ilp/glpk/GLPKSolverOption.java:109-111 | `getBranchingLast` then returns the value set, the always-down option is off, and disabling clears the technique |
| `GLPKOptions.SolverOption.SetBranchingLastAlwaysDown` | com.patrikdufresne.ilp.glpk/src/main/java/com/patrikdufresne/ilp/glpk/GLPKSolverOption.java:114-116 | `getBranchingLastAlwaysDown` then returns the value set, the last option is off, and disabling clears the technique |
| `GLPKOptions.SolverOption.SetFeasibilityPumpHeuristic` | com.patrikdufresne.ilp.glpk/src/main/java/com/patrikdufresne/ilp/glpk/GLPKSolverOption.java:122-124 | `getFeasibilityPumpHeuristic` then returns the value set |
| `ORNative.Create` | com.patrikdufresne.ilp.ortools/src/main/java/com/patrikdufresne/ilp/ortools/ORLinearProblem.java:57-61 | the solver a problem wraps starts with its name, minimising, and an empty objective |
| `ORNative.MakeVar` | com.patrikdufresne.ilp.ortools/src/main/java/com/patrikdufresne/ilp/ortools/ORLinearProblem.java:105-106 | `makeVar` creates a variable with exactly the bounds, integrality and name given |
| `ORNative.MakeBoolVar` | com.patrikdufresne.ilp.ortools/src/main/java/com/patrikdufresne/ilp/ortools/ORLinearProblem.java:103 | `makeBoolVar` is an integer variable bounded by 0 and 1 |
| `ORNative.MakeConstraint` | com.patrikdufresne.ilp.ortools/src/main/java/com/patrikdufresne/ilp/ortools/ORLinearProblem.java:74-76 | `makeConstraint` creates an unbounded constraint with no coefficient |
| `ORNative.Coefficient` | com.patrikdufresne.ilp.ortools/src/main/java/com/patrikdufresne/ilp/ortools/ORConstraint.java:73 | `getCoefficient` returns the stored coefficient, 0 for a variable never set and for a null variable |
| `ORNative.SetCoefficient` | com.patrikdufresne.ilp.ortools/src/main/java/com/patrikdufresne/ilp/ortools/ORConstraint.java:131 | `setCoefficient` changes only the given variable's coefficient and ignores a null variable |
| `ORNative.ClearObjective` | com.patrikdufresne.ilp.ortools/src/main/java/com/patrikdufresne/ilp/ortools/ORLinearProblem.java:332-333 | `clear` empties the objective and resets it to minimise |
| `ORNative.LastWrite` | com.patrikdufresne.ilp.ortools/src/main/java/com/patrikdufresne/ilp/ortools/ORConstraint.java:130-132 | the coefficient the last write for a variable sets, absent exactly when no write names it |
| `ORNative.AppliedSpec` | com.patrikdufresne.ilp.ortools/src/main/java/com/patrikdufresne/ilp/ortools/ORConstraint.java:130-132 | after a series of writes, a variable's coefficient is the last value written to it, or the old one when none was |
| `ORNative.LastWriteDistinct` | com.patrikdufresne.ilp.ortools/src/main/java/com/patrikdufresne/ilp/ortools/ORConstraint.java:130-132 | when the writes name distinct variables, write `k` decides its variable |
| `ORTools.IndexOf` | com.patrikdufresne.ilp.ortools/src/main/java/com/patrikdufresne/ilp/ortools/ORLinearProblem.java:268-283 | `List.indexOf`: -1 exactly when the element is absent, otherwise the position of its first occurrence |
| `ORTools.KeyOf` | com.patrikdufresne.ilp.ortools/src/main/java/com/patrikdufresne/ilp/ortools/ORConstraint.java:131 | the native variable a term's variable hands to `setCoefficient`, null once the variable is released |
| `ORTools.WritesOf` | com.patrikdufresne.ilp.ortools/src/main/java/com/patrikdufresne/ilp/ortools/ORConstraint.java:130-132 | the calls the `setLinear` loop makes: one per term, for its variable and its coefficient, in iteration order |
| `ORTools.Coefs` | com.patrikdufresne.ilp.ortools/src/main/java/com/patrikdufresne/ilp/ortools/ORConstraint.java:69-79 | the coefficient `getCoefficient` reports for each variable of the problem, in list order |
| `ORTools.NonZero` | com.patrikdufresne.ilp.ortools/src/main/java/com/patrikdufresne/ilp/ortools/ORLinearProblem.java:336-342 | the terms of the objective loop that are written: those with a non-zero coefficient |
| `ORTools.NonZeroElems` | com.patrikdufresne.ilp.ortools/src/main/java/com/patrikdufresne/ilp/ortools/ORLinearProblem.java:336-342 | a term is kept exactly when it is in the linear and its coefficient is non-zero |
| `ORTools.NonZeroDistinct` | com.patrikdufresne.ilp.ortools/src/main/java/com/patrikdufresne/ilp/ortools/ORLinearProblem.java:336-342 | keeping the non-zero terms keeps their variables distinct |
| `ORTools.WriteObjective` | com.patrikdufresne.ilp.ortools/src/main/java/com/patrikdufresne/ilp/ortools/ORLinearProblem.java:336-342 | the objective loop applies exactly the writes of the non-zero terms, in order |
| `ORTools.WriteRow` | com.patrikdufresne.ilp.ortools/src/main/java/com/patrikdufresne/ilp/ortools/ORConstraint.java:130-132 | the `setLinear` loop applies exactly one write per term, in order |
| `ORTools.AppliedSnoc` | com.patrikdufresne.ilp.ortools/src/main/java/com/patrikdufresne/ilp/ortools/ORConstraint.java:130-132 | applying one more write is one more `setCoefficient` on the result so far |
| `ORTools.WrittenTermReadBack` | com.patrikdufresne.ilp.ortools/src/main/java/com/patrikdufresne/ilp/ortools/ORConstraint.java:69-79 | every non-zero term of a linear over distinct live variables is found again by `getLinear` |
| `ORTools.ReadBackTermWritten` | com.patrikdufresne.ilp.ortools/src/main/java/com/patrikdufresne/ilp/ortools/ORConstraint.java:69-79 | every term `getLinear` reads back was in the written linear |
| `ORTools.LinearRoundTrip` | com.patrikdufresne.ilp.ortools/src/main/java/com/patrikdufresne/ilp/ortools/ORConstraint.java:126-133 | writing a linear over distinct live variables and reading it back gives exactly its non-zero terms |
| `ORTools.ObjectiveRoundTrip` | com.patrikdufresne.ilp.ortools/src/main/java/com/patrikdufresne/ilp/ortools/ORLinearProblem.java:329-344 | `setObjectiveLinear` then `getObjectiveLinear` gives exactly the linear's non-zero terms |
| `ORTools.NewVar` | com.patrikdufresne.ilp.ortools/src/main/java/com/patrikdufresne/ilp/ortools/ORLinearProblem.java:99-112 | a BOOL variable is made by `makeBoolVar`, any other by `makeVar` unbounded, integer for INTEGER |
| `ORTools.TypeOf` | com.patrikdufresne.ilp.ortools/src/main/java/com/patrikdufresne/ilp/ortools/ORVariable.java:102-111 | REAL exactly for a continuous variable, BOOL exactly for an integer one bounded by 0 and 1 |
| `ORTools.NewVariableType` | com.patrikdufresne.ilp.ortools/src/main/java/com/patrikdufresne/ilp/ortools/ORLinearProblem.java:99-112 | a variable added with type `t` reads back as `t` |
| `ORTools.Problem.constructor` | com.patrikdufresne.ilp.ortools/src/main/java/com/patrikdufresne/ilp/ortools/ORLinearProblem.java:57-61 | a new problem wraps a fresh solver and has no variable, no constraint and no status |
| `ORTools.Problem.CheckProblem` | com.patrikdufresne.ilp.ortools/src/main/java/com/patrikdufresne/ilp/ortools/ORLinearProblem.java:122-126 | fails with the disposed error exactly when the problem is disposed |
| `ORTools.Problem.GetStatus` | com.patrikdufresne.ilp.ortools/src/main/java/com/patrikdufresne/ilp/ortools/ORLinearProblem.java:235-241 | the disposed error on a disposed problem; otherwise the last status, UNKNOWN when none |
| `ORTools.Problem.CheckSolution` | com.patrikdufresne.ilp.ortools/src/main/java/com/patrikdufresne/ilp/ortools/ORLinearProblem.java:128-133 | passes iff the problem is live and the status is FEASIBLE or OPTIMAL; otherwise "solution not available" |
| `ORTools.Problem.Dispose` | com.patrikdufresne.ilp.ortools/src/main/java/com/patrikdufresne/ilp/ortools/ORLinearProblem.java:140-154 | afterwards the problem and every variable and constraint it holds are disposed |
| `ORTools.Problem.ReleaseConstraints` | com.patrikdufresne.ilp.ortools/src/main/java/com/patrikdufresne/ilp/ortools/ORLinearProblem.java:146-149 | every constraint drops its native constraint and its problem |
| `ORTools.Problem.ReleaseVariables` | com.patrikdufresne.ilp.ortools/src/main/java/com/patrikdufresne/ilp/ortools/ORLinearProblem.java:150-153 | every variable drops its native variable and its problem |
| `ORTools.Problem.GetName` | com.patrikdufresne.ilp.ortools/src/main/java/com/patrikdufresne/ilp/ortools/ORLinearProblem.java:172-175 | the solver's name, or the disposed error |
| `ORTools.Problem.GetObjectiveDirection` | com.patrikdufresne.ilp.ortools/src/main/java/com/patrikdufresne/ilp/ortools/ORLinearProblem.java:181-191 | MAXIMIZE iff the objective maximises, MINIMIZE iff it minimises |
| `ORTools.Problem.SetObjectiveDirection` | com.patrikdufresne.ilp.ortools/src/main/java/com/patrikdufresne/ilp/ortools/ORLinearProblem.java:311-323 | any value other than MAXIMIZE or MINIMIZE throws IllegalArgumentException; otherwise `getObjectiveDirection` returns the value set |
| `ORTools.Problem.GetObjectiveName` | com.patrikdufresne.ilp.ortools/src/main/java/com/patrikdufresne/ilp/ortools/ORLinearProblem.java:217-220 | the objective has no name: always the empty string on a live problem |
| `ORTools.Problem.GetObjectiveValue` | com.patrikdufresne.ilp.ortools/src/main/java/com/patrikdufresne/ilp/ortools/ORLinearProblem.java:226-229 | the objective value the solver reports, or the disposed error |
| `ORTools.Problem.GetObjectiveLinear` | com.patrikdufresne.ilp.ortools/src/main/java/com/patrikdufresne/ilp/ortools/ORLinearProblem.java:197-211 | null when no variable has a non-zero objective coefficient, otherwise a fresh linear with one term per such variable |
| `ORTools.Problem.FillTerms` | com.patrikdufresne.ilp.ortools/src/main/java/com/patrikdufresne/ilp/ortools/ORLinearProblem.java:201-207 | the copy loop adds the non-zero coefficients, in variable order, and creates the linear only for the first one |
| `ORTools.Problem.SetObjectiveLinear` | com.patrikdufresne.ilp.ortools/src/main/java/com/patrikdufresne/ilp/ortools/ORLinearProblem.java:329-344 | the objective is cleared, back to minimising, and then holds exactly the linear's non-zero terms; a null linear leaves it empty |
| `ORTools.Problem.AddVariable` | com.patrikdufresne.ilp.ortools/src/main/java/com/patrikdufresne/ilp/ortools/ORLinearProblem.java:99-117 | a null name throws NullPointerException; otherwise a fresh live variable with that name, reading back its type, and bounds 0..1 for BOOL or none otherwise |
| `ORTools.Problem.AddConstraint` | com.patrikdufresne.ilp.ortools/src/main/java/com/patrikdufresne/ilp/ortools/ORLinearProblem.java:71-87 | a fresh live constraint is appended, nothing else changes |
| `ORTools.Problem.RemoveVariable` | com.patrikdufresne.ilp.ortools/src/main/java/com/patrikdufresne/ilp/ortools/ORLinearProblem.java:290-305 | a variable not in the list throws RuntimeException, a released one NullPointerException; otherwise it is released and dropped from the list |
| `ORTools.Problem.RemoveConstraint` | com.patrikdufresne.ilp.ortools/src/main/java/com/patrikdufresne/ilp/ortools/ORLinearProblem.java:268-283 | a constraint not in the list throws RuntimeException, a released one NullPointerException; otherwise it is released and dropped from the list |
| `ORTools.Variable.constructor` | com.patrikdufresne.ilp.ortools/src/main/java/com/patrikdufresne/ilp/ortools/ORVariable.java:51-56 | a new variable starts detached, without a native variable, until `addVariable` attaches it |
| `ORTools.Variable.CheckVariable` | com.patrikdufresne.ilp.ortools/src/main/java/com/patrikdufresne/ilp/ortools/ORVariable.java:81-86 | fails with the disposed error exactly when the variable or its problem is disposed |
| `ORTools.Variable.GetLowerBound` | com.patrikdufresne.ilp.ortools/src/main/java/com/patrikdufresne/ilp/ortools/ORVariable.java:62-69 | the native lower bound, null when it is minus infinity |
| `ORTools.Variable.GetUpperBound` | com.patrikdufresne.ilp.ortools/src/main/java/com/patrikdufresne/ilp/ortools/ORVariable.java:117-124 | the native upper bound, null when it is infinity |
| `ORTools.Variable.GetName` | com.patrikdufresne.ilp.ortools/src/main/java/com/patrikdufresne/ilp/ortools/ORVariable.java:72-75 | the native variable's name |
| `ORTools.Variable.GetType` | com.patrikdufresne.ilp.ortools/src/main/java/com/patrikdufresne/ilp/ortools/ORVariable.java:102-111 | REAL exactly for a continuous variable, BOOL exactly for an integer one bounded by 0 and 1, INTEGER otherwise |
| `ORTools.Variable.GetValue` | com.patrikdufresne.ilp.ortools/src/main/java/com/patrikdufresne/ilp/ortools/ORVariable.java:92-96 | the solution value once a solution is available, otherwise the error of `checkSolution` |
| `ORTools.Variable.SetLowerBound` | com.patrikdufresne.ilp.ortools/src/main/java/com/patrikdufresne/ilp/ortools/ORVariable.java:130-139 | replaces only the lower bound and clears the status; `getLowerBound` then returns the value set and the upper bound is kept |
| `ORTools.Variable.SetUpperBound` | com.patrikdufresne.ilp.ortools/src/main/java/com/patrikdufresne/ilp/ortools/ORVariable.java:145-154 | replaces only the upper bound and clears the status; `getUpperBound` then returns the value set and the lower bound is kept |
| `ORTools.Variable.Dispose` | com.patrikdufresne.ilp.ortools/src/main/java/com/patrikdufresne/ilp/ortools/ORVariable.java:168-174 | always succeeds; a live variable is released and dropped from its problem's list, a disposed one is left alone |
| `ORTools.Constraint.constructor` | com.patrikdufresne.ilp.ortools/src/main/java/com/patrikdufresne/ilp/ortools/ORConstraint.java:44-53 | a new constraint starts detached, without a native constraint, until `addConstraint` attaches it |
| `ORTools.Constraint.CheckConstraint` | com.patrikdufresne.ilp.ortools/src/main/java/com/patrikdufresne/ilp/ortools/ORConstraint.java:58-63 | fails with the disposed error exactly when the constraint or its problem is disposed |
| `ORTools.Constraint.GetLowerBound` | com.patrikdufresne.ilp.ortools/src/main/java/com/patrikdufresne/ilp/ortools/ORConstraint.java:85-92 | the native lower bound, null when it is minus infinity |
| `ORTools.Constraint.GetUpperBound` | com.patrikdufresne.ilp.ortools/src/main/java/com/patrikdufresne/ilp/ortools/ORConstraint.java:113-120 | the native upper bound, null when it is infinity |
| `ORTools.Constraint.GetName` | com.patrikdufresne.ilp.ortools/src/main/java/com/patrikdufresne/ilp/ortools/ORConstraint.java:98-101 | the native constraint's name |
| `ORTools.Constraint.GetValue` | com.patrikdufresne.ilp.ortools/src/main/java/com/patrikdufresne/ilp/ortools/ORConstraint.java:107-110 | the constraint's dual value |
| `ORTools.Constraint.SetLowerBound` | com.patrikdufresne.ilp.ortools/src/main/java/com/patrikdufresne/ilp/ortools/ORConstraint.java:139-146 | replaces only the lower bound; `getLowerBound` then returns the value set, the upper bound and the status are kept |
| `ORTools.Constraint.SetUpperBound` | com.patrikdufresne.ilp.ortools/src/main/java/com/patrikdufresne/ilp/ortools/ORConstraint.java:152-159 | replaces only the upper bound; `getUpperBound` then returns the value set, the lower bound and the status are kept |
| `ORTools.Constraint.SetLinear` | com.patrikdufresne.ilp.ortools/src/main/java/com/patrikdufresne/ilp/ortools/ORConstraint.java:126-133 | the coefficients are cleared and the status reset; a null linear then throws NullPointerException, otherwise the coefficients are exactly the linear's writes |
| `ORTools.Constraint.GetLinear` | com.patrikdufresne.ilp.ortools/src/main/java/com/patrikdufresne/ilp/ortools/ORConstraint.java:69-79 | a fresh linear with one term per variable of the problem whose coefficient is non-zero |
| `ORTools.Constraint.IsEmpty` | com.patrikdufresne.ilp.ortools/src/main/java/com/patrikdufresne/ilp/ortools/ORConstraint.java:173-175 | true iff every variable's coefficient in the constraint is zero |
| `ORTools.Constraint.Dispose` | com.patrikdufresne.ilp.ortools/src/main/java/com/patrikdufresne/ilp/ortools/ORConstraint.java:181-186 | always succeeds; a live constraint is released and dropped from its problem's list |
| `GLPKBounds.Boxed` | com.patrikdufresne.ilp/src/main/java/com/patrikdufresne/ilp/util/BoundSnapshot.java:47-53 | a bound read from the problem boxed as a `Number`: null stays null, a value keeps its double value (the legacy `ConstraintSnapshot` boxes a row's bounds the same way) |
| `Util.CapturedBoundsReadBack` | com.patrikdufresne.ilp/src/main/java/com/patrikdufresne/ilp/util/Bound.java:109-123 | a bound captured from a variable or constraint and written back reads back as the same bound |
| `Util.VariableBound` | com.patrikdufresne.ilp/src/main/java/com/patrikdufresne/ilp/util/BoundSnapshot.java:47-53 | the bound a snapshot captures for a variable: its current lower and upper bounds; the disposed error for a disposed variable |
| `Util.ConstraintBound` | com.patrikdufresne.ilp/src/main/java/com/patrikdufresne/ilp/util/ConstraintSnapshot.java:45-47 | the bound a snapshot captures for a constraint: its current lower and upper bounds; the disposed error for a disposed constraint |
| `Util.RestoreVariable` | com.patrikdufresne.ilp/src/main/java/com/patrikdufresne/ilp/util/Bound.java:120-123 | `restore(variable)` sets both bounds, which then read back normalised, and changes nothing else of the column nor any other column |
| `Util.RestoreConstraint` | com.patrikdufresne.ilp/src/main/java/com/patrikdufresne/ilp/util/Bound.java:109-112 | `restore(constraint)` sets both bounds, which then read back normalised, and changes nothing else of the row nor any other row |
| `Util.IsFixed` | com.patrikdufresne.ilp/src/main/java/com/patrikdufresne/ilp/util/Variables.java:35-37 | true iff both bounds are set and equal; a missing lower or upper bound means not fixed |
| `Util.ConstraintSnapshot.constructor` | com.patrikdufresne.ilp/src/main/java/com/patrikdufresne/ilp/util/ConstraintSnapshot.java:69-81 | the snapshot keeps the name and the bound, and an immutable copy of the linear's terms |
| `Util.ConstraintSnapshot.Restore` | com.patrikdufresne.ilp/src/main/java/com/patrikdufresne/ilp/util/ConstraintSnapshot.java:124-130 | a null problem is an IllegalArgumentException; otherwise `addConstraint` with the captured name, linear and bounds. It fails as that call does: a disposed problem, a taken or over-long name, a captured disposed variable, or columns out of range or repeated. Otherwise it succeeds, and the new constraint reads back the captured name, terms and normalised bounds |
| `Util.NewConstraintSnapshot` | com.patrikdufresne.ilp/src/main/java/com/patrikdufresne/ilp/util/ConstraintSnapshot.java:69-81 | a null bound or a null linear is an IllegalArgumentException; otherwise the snapshot holds the name, the bound and the linear's terms |
| `Util.CaptureConstraint` | com.patrikdufresne.ilp/src/main/java/com/patrikdufresne/ilp/util/ConstraintSnapshot.java:40-51 | a null or disposed constraint is an IllegalArgumentException; otherwise the snapshot holds its name, its bounds and the terms of its row |
| `Util.ValueSnapshot.Put` | com.patrikdufresne.ilp/src/main/java/com/patrikdufresne/ilp/util/ValueSnapshot.java:67-69 | always UnsupportedOperationException: a value snapshot is read-only |
| `Util.ValueSnapshot.PutAll` | com.patrikdufresne.ilp/src/main/java/com/patrikdufresne/ilp/util/ValueSnapshot.java:72-74 | always UnsupportedOperationException |
| `Util.ValueSnapshot.Remove` | com.patrikdufresne.ilp/src/main/java/com/patrikdufresne/ilp/util/ValueSnapshot.java:77-79 | always UnsupportedOperationException |
| `Util.ValueSnapshot.Clear` | com.patrikdufresne.ilp/src/main/java/com/patrikdufresne/ilp/util/ValueSnapshot.java:52-54 | always UnsupportedOperationException |
| `Util.IsSatisfied` | com.patrikdufresne.ilp/src/main/java/com/patrikdufresne/ilp/util/Constraints.java:28-42 | a null constraint or snapshot is an IllegalArgumentException; otherwise true iff the row's value under the snapshot lies within its bounds, a missing bound not limiting it |
| `Util.SatisfiedBy` | com.patrikdufresne.ilp/src/main/java/com/patrikdufresne/ilp/util/Constraints.java:33-41 | given the row's terms: a variable without a value is a NullPointerException, otherwise the answer is whether the row's value lies within its lower and upper bound |
| `Util.CaptureThenRestore` | com.patrikdufresne.ilp/src/main/java/com/patrikdufresne/ilp/util/BoundSnapshot.java:135-141 | restoring the bound just captured from a live variable leaves its bounds as they were |
| `Util.RestoreOne` | com.patrikdufresne.ilp/src/main/java/com/patrikdufresne/ilp/util/BoundSnapshot.java:136-140 | one step of the restore loop: the next variable gets its bound back and the variables already restored keep theirs |
| `Util.BoundSnapshot.GetLower` | com.patrikdufresne.ilp/src/main/java/com/patrikdufresne/ilp/util/BoundSnapshot.java:83-89 | the captured lower bound, null for a variable not in the snapshot |
| `Util.BoundSnapshot.GetUpper` | com.patrikdufresne.ilp/src/main/java/com/patrikdufresne/ilp/util/BoundSnapshot.java:99-105 | the captured upper bound, null for a variable not in the snapshot |
| `Util.BoundSnapshot.Put` | com.patrikdufresne.ilp/src/main/java/com/patrikdufresne/ilp/util/BoundSnapshot.java:113-115 | always UnsupportedOperationException: a bound snapshot is read-only |
| `Util.BoundSnapshot.PutAll` | com.patrikdufresne.ilp/src/main/java/com/patrikdufresne/ilp/util/BoundSnapshot.java:118-120 | always UnsupportedOperationException |
| `Util.BoundSnapshot.Remove` | com.patrikdufresne.ilp/src/main/java/com/patrikdufresne/ilp/util/BoundSnapshot.java:123-125 | always UnsupportedOperationException |
| `Util.BoundSnapshot.Clear` | com.patrikdufresne.ilp/src/main/java/com/patrikdufresne/ilp/util/BoundSnapshot.java:65-67 | always UnsupportedOperationException |
| `Util.BoundSnapshot.Restore` | com.patrikdufresne.ilp/src/main/java/com/patrikdufresne/ilp/util/BoundSnapshot.java:135-141 | succeeds iff every variable of the snapshot is live, and then every one of them has its captured bound back |
| `Util.CreateBoundSnapshot` | com.patrikdufresne.ilp/src/main/java/com/patrikdufresne/ilp/util/BoundSnapshot.java:47-53 | succeeds iff every variable is live; the snapshot has exactly those variables, each with its current bounds |
| `Util.SnapshotReadsBack` | com.patrikdufresne.ilp/src/main/java/com/patrikdufresne/ilp/util/BoundSnapshot.java:47-53 | every variable of a fresh snapshot already has the bound the snapshot would restore |
| `Util.CreateValueSnapshot` | com.patrikdufresne.ilp/src/main/java/com/patrikdufresne/ilp/util/ValueSnapshot.java:33-40 | succeeds iff every variable is live and its problem has a solution; the snapshot maps exactly those variables to their values |
| `Util.CollectValues` | com.patrikdufresne.ilp/src/main/java/com/patrikdufresne/ilp/util/ValueSnapshot.java:34-38 | the `getValue` calls in collection order: all succeed iff every variable is live with a solution, and then the k-th value is the k-th variable's column value |
| `Util.ByPosition` | com.patrikdufresne.ilp/src/main/java/com/patrikdufresne/ilp/util/ValueSnapshot.java:34-38 | the map filled by `put(var, value)`: its keys are exactly the listed variables and each maps to the value taken at its position |
| `Util.ValueStep` | com.patrikdufresne.ilp/src/main/java/com/patrikdufresne/ilp/util/ValueSnapshot.java:37 | one `getValue`: it succeeds iff the variable is live with a solution, giving its column value; every variable stays valid, keeps its native problem, and those already read stay ready |
| `Util.Release` | com.patrikdufresne.ilp/src/main/java/com/patrikdufresne/ilp/util/Constraints.java:51-58 | a null or disposed constraint is an IllegalArgumentException; otherwise the snapshot captures it as `create` does and the constraint is then disposed, its row deleted |
| `LegacyGLPK.StatusOf` | ilp/src/com/patrikdufresne/ilp/impl/GLPKLinearProblem.java:82-99 | GLP_OPT is OPTIMAL, GLP_FEAS FEASIBLE, GLP_INFEAS and GLP_NOFEAS INFEASIBLE, GLP_UNBND UNBOUNDED, every other code UNKNOWN |
| `LegacyGLPK.SolutionCodes` | ilp/src/com/patrikdufresne/ilp/impl/GLPKLinearProblem.java:82-99 | a solution is available exactly for the codes GLP_FEAS and GLP_OPT |
| `LegacyGLPK.Value` | ilp/src/com/patrikdufresne/ilp/impl/GLPKVariable.java:31-37 | a REAL value is boxed as a double, a BOOL or INTEGER one as the `int` cast of the double |
| `LegacyGLPK.ValueOfWhole` | ilp/src/com/patrikdufresne/ilp/impl/GLPKVariable.java:31-37 | within the `int` range, the boxed integer equals the double exactly when the double is whole, and is its truncation toward zero |
| `LegacyGLPK.TruncateWhole` | ilp/src/com/patrikdufresne/ilp/impl/GLPKVariable.java:31-37 | truncation toward zero keeps a value exactly when it is whole |
| `LegacyGLPK.Valued` | ilp/src/com/patrikdufresne/ilp/impl/GLPKVariable.java:105-114 | a missing bound stays null, a present one is boxed by the column's type |
| `LegacyGLPK.ElemsOf` | ilp/src/com/patrikdufresne/ilp/impl/GLPKConstraint.java:210-222 | the `ind`/`val` arrays built from a linear: one entry per term, its variable's column and its coefficient, in iteration order |
| `LegacyGLPK.RowRoundTrip` | ilp/src/com/patrikdufresne/ilp/impl/GLPKConstraint.java:203-227 | a linear over distinct live variables is accepted by `glp_set_mat_row`, and the row then holds exactly its non-zero terms, in order |
| `LegacyGLPK.ObjectiveRoundTrip` | ilp/src/com/patrikdufresne/ilp/impl/GLPKLinearProblem.java:496-518 | `setObjectiveLinear` of a linear over distinct live variables succeeds, and the objective then has exactly its non-zero terms |
| `LegacyGLPK.BuildElems` | ilp/src/com/patrikdufresne/ilp/impl/GLPKConstraint.java:210-222 | the copy loop of `setLinear` produces exactly `ElemsOf` of the terms |
| `LegacyGLPK.FillLinear` | ilp/src/com/patrikdufresne/ilp/impl/GLPKConstraint.java:99-127 | the copy loop of `getLinear` adds one term per row entry, in row order, to a fresh linear |
| `LegacyGLPK.Problem.constructor` | ilp/src/com/patrikdufresne/ilp/impl/GLPKLinearProblem.java:129-131 | a new problem: an empty native problem, no variable or constraint, nothing cached, not modified |
| `LegacyGLPK.Problem.CheckProblem` | ilp/src/com/patrikdufresne/ilp/impl/GLPKLinearProblem.java:214-218 | fails with the disposed error exactly when the problem is disposed |
| `LegacyGLPK.Problem.Clear` | ilp/src/com/patrikdufresne/ilp/impl/GLPKLinearProblem.java:234-236 | afterwards the problem is marked unmodified |
| `LegacyGLPK.Problem.IsMIP` | ilp/src/com/patrikdufresne/ilp/impl/GLPKLinearProblem.java:384-391 | the cached answer when there is one; otherwise true iff no column is REAL, computed from the problem and then cached |
| `LegacyGLPK.Problem.GetStatus` | ilp/src/com/patrikdufresne/ilp/impl/GLPKLinearProblem.java:402-419 | the status GLPK reports for the MIP or the simplex solution, as `status` converts it, and the result is cached |
| `LegacyGLPK.Problem.CheckSolution` | ilp/src/com/patrikdufresne/ilp/impl/GLPKLinearProblem.java:224-229 | passes iff the status is FEASIBLE or OPTIMAL; otherwise "solution not available" |
| `LegacyGLPK.Problem.IsPrimalFeasible` | ilp/src/com/patrikdufresne/ilp/impl/GLPKLinearProblem.java:448-457 | whether GLPK reports the primal solution feasible, then cached |
| `LegacyGLPK.Problem.IsDualFeasible` | ilp/src/com/patrikdufresne/ilp/impl/GLPKLinearProblem.java:438-445 | whether GLPK reports the dual solution feasible, then cached |
| `LegacyGLPK.Problem.CheckPrimal` | ilp/src/com/patrikdufresne/ilp/impl/GLPKLinearProblem.java:205-209 | passes iff the primal solution is feasible; otherwise "primal solution value not available." |
| `LegacyGLPK.Problem.CheckDual` | ilp/src/com/patrikdufresne/ilp/impl/GLPKLinearProblem.java:196-200 | passes iff the dual solution is feasible; otherwise "dual solution value not available" |
| `LegacyGLPK.Problem.GetCol` | ilp/src/com/patrikdufresne/ilp/impl/GLPKLinearProblem.java:273-279 | NullPointerException before the first `addCol` creates the variable list; otherwise the variable at column `col`, or IndexOutOfBoundsException outside 1..count |
| `LegacyGLPK.Problem.Dispose` | ilp/src/com/patrikdufresne/ilp/impl/GLPKLinearProblem.java:256-264 | afterwards the problem is disposed |
| `LegacyGLPK.Problem.GetName` | ilp/src/com/patrikdufresne/ilp/impl/GLPKLinearProblem.java:296-299 | the stored problem name |
| `LegacyGLPK.Problem.SetName` | ilp/src/com/patrikdufresne/ilp/impl/GLPKLinearProblem.java:463-473 | a name over 255 UTF-16 code units throws IndexOutOfBoundsException and keeps the problem's name; otherwise `getName` returns it; either way the problem is marked modified |
| `LegacyGLPK.Problem.GetObjectiveName` | ilp/src/com/patrikdufresne/ilp/impl/GLPKLinearProblem.java:353-357 | the stored objective name |
| `LegacyGLPK.Problem.SetObjectiveName` | ilp/src/com/patrikdufresne/ilp/impl/GLPKLinearProblem.java:524-534 | over 255 UTF-16 code units throws IndexOutOfBoundsException; otherwise `getObjectiveName` returns it |
| `LegacyGLPK.Problem.GetObjectiveDirection` | ilp/src/com/patrikdufresne/ilp/impl/GLPKLinearProblem.java:307-317 | MAXIMIZE iff GLPK maximises, MINIMIZE iff it minimises |
| `LegacyGLPK.Problem.SetObjectiveDirection` | ilp/src/com/patrikdufresne/ilp/impl/GLPKLinearProblem.java:479-490 | MAXIMIZE makes GLPK maximise and any other value minimise; `getObjectiveDirection` then agrees |
| `LegacyGLPK.Problem.GetObjectiveValue` | ilp/src/com/patrikdufresne/ilp/impl/GLPKLinearProblem.java:363-373 | "solution not available" without a solution; otherwise the MIP objective value for a MIP and the simplex one for an LP |
| `LegacyGLPK.Problem.GetObjectiveLinear` | ilp/src/com/patrikdufresne/ilp/impl/GLPKLinearProblem.java:326-350 | an empty fresh linear when there is no column, null when every objective coefficient is zero, otherwise a fresh linear with one term per non-zero coefficient |
| `LegacyGLPK.Problem.SetObjectiveLinear` | ilp/src/com/patrikdufresne/ilp/impl/GLPKLinearProblem.java:496-518 | every objective coefficient is zeroed first; a null or empty linear leaves them so, otherwise the linear's coefficients are written over them |
| `LegacyGLPK.Problem.ZeroObjective` | ilp/src/com/patrikdufresne/ilp/impl/GLPKLinearProblem.java:502-506 | the zeroing loop sets every objective coefficient to 0 |
| `LegacyGLPK.Problem.WriteObjective` | ilp/src/com/patrikdufresne/ilp/impl/GLPKLinearProblem.java:512-516 | the writing loop sets each term's objective coefficient, failing only when a term names a column that does not exist |
| `LegacyGLPK.Problem.AddCol` | ilp/src/com/patrikdufresne/ilp/impl/GLPKLinearProblem.java:139-156 | the variable is appended at the next column, the native problem gains one column, the MIP cache is cleared |
| `LegacyGLPK.Problem.AddRow` | ilp/src/com/patrikdufresne/ilp/impl/GLPKLinearProblem.java:170-185 | the constraint is appended at the next row and the native problem gains one row |
| `LegacyGLPK.Problem.AddVariable` | ilp/src/com/patrikdufresne/ilp/impl/GLPKLinearProblem.java:188-191 | on a live problem, a fresh live REAL continuous variable is appended; a disposed problem changes nothing |
| `LegacyGLPK.Problem.AddConstraint` | ilp/src/com/patrikdufresne/ilp/impl/GLPKLinearProblem.java:159-162 | on a live problem, a fresh live empty constraint is appended; a disposed problem changes nothing |
| `LegacyGLPK.Problem.RemoveCol` | ilp/src/com/patrikdufresne/ilp/impl/GLPKLinearProblem.java:565-587 | a variable not in the problem is a RuntimeException; otherwise its column is deleted, later columns shift down and the variable is detached |
| `LegacyGLPK.Problem.RemoveRow` | ilp/src/com/patrikdufresne/ilp/impl/GLPKLinearProblem.java:589-613 | a constraint not in the problem is a RuntimeException; otherwise its row is deleted, later rows shift down and the constraint is detached |
| `LegacyGLPK.Variable.constructor` | ilp/src/com/patrikdufresne/ilp/impl/GLPKVariable.java:52-61 | a new variable starts detached, with column 0, until `addCol` attaches it |
| `LegacyGLPK.Variable.CheckVariable` | ilp/src/com/patrikdufresne/ilp/impl/GLPKVariable.java:66-71 | fails with the disposed error exactly when the variable or its problem is disposed |
| `LegacyGLPK.Variable.GetType` | ilp/src/com/patrikdufresne/ilp/impl/GLPKVariable.java:123-137 | the column's type: REAL for a continuous column, BOOL for an integer 0..1 column, INTEGER otherwise |
| `LegacyGLPK.Variable.GetLowerBound` | ilp/src/com/patrikdufresne/ilp/impl/GLPKVariable.java:105-114 | null for a column without a lower bound, otherwise the bound boxed by the column's type |
| `LegacyGLPK.Variable.GetUpperBound` | ilp/src/com/patrikdufresne/ilp/impl/GLPKVariable.java:140-149 | null for a column without an upper bound, otherwise the bound boxed by the column's type |
| `LegacyGLPK.Variable.GetName` | ilp/src/com/patrikdufresne/ilp/impl/GLPKVariable.java:117-120 | a detached variable throws NullPointerException, a disposed problem the disposed error, otherwise the column name |
| `LegacyGLPK.Variable.SetLowerBound` | ilp/src/com/patrikdufresne/ilp/impl/GLPKVariable.java:187-199 | the lower bound becomes the value set; the upper bound is rewritten from `getUpperBound`, so an integer column's fractional upper bound is truncated |
| `LegacyGLPK.Variable.SetUpperBound` | ilp/src/com/patrikdufresne/ilp/impl/GLPKVariable.java:246-257 | the upper bound becomes the value set; the lower bound is rewritten from `getLowerBound` |
| `LegacyGLPK.Variable.SetName` | ilp/src/com/patrikdufresne/ilp/impl/GLPKVariable.java:202-212 | a name over 255 UTF-16 code units throws IllegalArgumentException and keeps the column; otherwise `getName` returns it |
| `LegacyGLPK.Variable.SetType` | ilp/src/com/patrikdufresne/ilp/impl/GLPKVariable.java:215-240 | the column gets the kind and, for BOOL, the bounds 0..1 of the type; the MIP cache is updated as written; BOOL and REAL read back as set |
| `LegacyGLPK.Variable.GetValue` | ilp/src/com/patrikdufresne/ilp/impl/GLPKVariable.java:159-172 | "solution not available" without a solution; the MIP value boxed by type for a MIP; the primal value, or "primal solution value not available.", for an LP |
| `LegacyGLPK.Variable.GetDual` | ilp/src/com/patrikdufresne/ilp/impl/GLPKVariable.java:94-102 | "solution not available" without a solution; otherwise the column's dual value, or "dual solution value not available" |
| `LegacyGLPK.Variable.Dispose` | ilp/src/com/patrikdufresne/ilp/impl/GLPKVariable.java:77-84 | disposing twice is harmless; otherwise the column is removed as `removeCol` does |
| `LegacyGLPK.BoxedBoundReadsBack` | ilp/src/com/patrikdufresne/ilp/impl/GLPKVariable.java:105-114 | a bound boxed by type reads back unchanged when written again, and a REAL one is the stored bound itself |
| `LegacyGLPK.TruncatedBoundLoosens` | ilp/src/com/patrikdufresne/ilp/impl/GLPKVariable.java:31-37 | a fractional integer bound read back moves toward zero by less than one |
| `LegacyGLPK.SetLowerBoundAsWrittenLoosensUpper` | ilp/src/com/patrikdufresne/ilp/impl/GLPKVariable.java:187-199 | on an INTEGER column with upper bound -2.5, `setLowerBound(-4)` leaves upper bound -2 |
| `LegacyGLPK.Constraint.constructor` | ilp/src/com/patrikdufresne/ilp/impl/GLPKConstraint.java:55-63 | a new constraint starts detached, with row 0, until `addRow` attaches it |
| `LegacyGLPK.Constraint.CheckConstraint` | ilp/src/com/patrikdufresne/ilp/impl/GLPKConstraint.java:68-73 | fails with the disposed error exactly when the constraint or its problem is disposed |
| `LegacyGLPK.Constraint.GetName` | ilp/src/com/patrikdufresne/ilp/impl/GLPKConstraint.java:148-152 | the row name |
| `LegacyGLPK.Constraint.GetLowerBound` | ilp/src/com/patrikdufresne/ilp/impl/GLPKConstraint.java:133-142 | the row's lower bound, null when its type has none |
| `LegacyGLPK.Constraint.GetUpperBound` | ilp/src/com/patrikdufresne/ilp/impl/GLPKConstraint.java:158-166 | the row's upper bound, null when its type has none |
| `LegacyGLPK.Constraint.IsEmpty` | ilp/src/com/patrikdufresne/ilp/impl/GLPKConstraint.java:190-196 | true iff the row has no entry |
| `LegacyGLPK.Constraint.SetName` | ilp/src/com/patrikdufresne/ilp/impl/GLPKConstraint.java:248-258 | a name over 255 UTF-16 code units throws IllegalArgumentException and keeps the row; otherwise `getName` returns it |
| `LegacyGLPK.Constraint.SetLowerBound` | ilp/src/com/patrikdufresne/ilp/impl/GLPKConstraint.java:230-242 | the lower bound becomes the value set and the upper bound is kept |
| `LegacyGLPK.Constraint.SetUpperBound` | ilp/src/com/patrikdufresne/ilp/impl/GLPKConstraint.java:264-275 | the upper bound becomes the value set and the lower bound is kept |
| `LegacyGLPK.Constraint.SetLinear` | ilp/src/com/patrikdufresne/ilp/impl/GLPKConstraint.java:203-227 | a linear with a disposed variable throws IllegalArgumentException (a live variable of another problem is accepted); otherwise the row holds exactly its non-zero terms and keeps its bounds |
| `LegacyGLPK.Constraint.StoreRow` | ilp/src/com/patrikdufresne/ilp/impl/GLPKConstraint.java:225-226 | `glp_set_mat_row` stores the entries when GLPK accepts them, and changes nothing when it refuses |
| `LegacyGLPK.Constraint.GetLinear` | ilp/src/com/patrikdufresne/ilp/impl/GLPKConstraint.java:99-127 | null for an empty row, otherwise a fresh linear with one term per row entry |
| `LegacyGLPK.Constraint.GetValue` | ilp/src/com/patrikdufresne/ilp/impl/GLPKConstraint.java:169-182 | "solution not available" without a solution; the MIP row value for a MIP; the primal value, or "primal solution value not available.", for an LP |
| `LegacyGLPK.Constraint.GetDual` | ilp/src/com/patrikdufresne/ilp/impl/GLPKConstraint.java:84-92 | "solution not available" without a solution; otherwise the row's dual value, or "dual solution value not available" |
| `LegacyGLPK.Constraint.Dispose` | ilp/src/com/patrikdufresne/ilp/impl/GLPKConstraint.java:76-81 | disposing twice is harmless; otherwise the row is removed as `removeRow` does |
| `LegacyUtil.VariableBound` | ilp/src/com/patrikdufresne/ilp/util/BoundSnapshot.java:40-41 | the bound a snapshot captures for a variable: its bounds as `getLowerBound`/`getUpperBound` box them by type; the disposed error for a disposed variable |
| `LegacyUtil.ConstraintBound` | ilp/src/com/patrikdufresne/ilp/util/ConstraintSnapshot.java:36-37 | the bound a snapshot captures for a constraint: its current lower and upper bounds; the disposed error for a disposed constraint |
| `LegacyUtil.RestoreVariable` | ilp/src/com/patrikdufresne/ilp/util/BoundSnapshot.java:129-130 | the lower then the upper bound are set from the bound, and only this column's bounds change |
| `LegacyUtil.ValuedByIntegrality` | ilp/src/com/patrikdufresne/ilp/impl/GLPKVariable.java:105-114 | how a bound is boxed depends only on whether its column is integer |
| `LegacyUtil.WholeCastsBack` | ilp/src/com/patrikdufresne/ilp/impl/GLPKVariable.java:31-37 | an `int` boxed as a double and cast back is the same `int` |
| `LegacyUtil.CaptureThenRestore` | ilp/src/com/patrikdufresne/ilp/util/BoundSnapshot.java:126-132 | a column restored from a captured bound is captured again as the same bound |
| `LegacyUtil.RestoreOfFractionalIsTruncated` | ilp/src/com/patrikdufresne/ilp/util/BoundSnapshot.java:40-41 | an integer column with bounds 0.5..7.5 is captured as 0..7, so restoring it does not give back its bounds |
| `LegacyUtil.IsFixed` | ilp/src/com/patrikdufresne/ilp/util/Variables.java:26-29 | `Number.equals` on the boxed bounds: for a REAL column both bounds are set and equal, for an integer one their `int` casts are; a missing bound means not fixed |
| `LegacyUtil.FractionalRangeReadsFixed` | ilp/src/com/patrikdufresne/ilp/util/Variables.java:26-29 | an integer column with bounds 2.25..2.75 reads as fixed although its bounds differ |
| `LegacyUtil.RestoreOne` | ilp/src/com/patrikdufresne/ilp/util/BoundSnapshot.java:128-131 | one step of the restore loop: the next variable gets its bound back and the variables already restored keep theirs |
| `LegacyUtil.BoundSnapshot.GetLower` | ilp/src/com/patrikdufresne/ilp/util/BoundSnapshot.java:74-80 | the captured lower bound, null for a variable not in the snapshot |
| `LegacyUtil.BoundSnapshot.GetUpper` | ilp/src/com/patrikdufresne/ilp/util/BoundSnapshot.java:90-96 | the captured upper bound, null for a variable not in the snapshot |
| `LegacyUtil.BoundSnapshot.Put` | ilp/src/com/patrikdufresne/ilp/util/BoundSnapshot.java:104-106 | always UnsupportedOperationException: a bound snapshot is read-only |
| `LegacyUtil.BoundSnapshot.PutAll` | ilp/src/com/patrikdufresne/ilp/util/BoundSnapshot.java:109-111 | always UnsupportedOperationException |
| `LegacyUtil.BoundSnapshot.Remove` | ilp/src/com/patrikdufresne/ilp/util/BoundSnapshot.java:114-116 | always UnsupportedOperationException |
| `LegacyUtil.BoundSnapshot.Clear` | ilp/src/com/patrikdufresne/ilp/util/BoundSnapshot.java:56-58 | always UnsupportedOperationException |
| `LegacyUtil.BoundSnapshot.Restore` | ilp/src/com/patrikdufresne/ilp/util/BoundSnapshot.java:126-132 | succeeds iff every variable of the snapshot is live, and then every one of them has its captured bound written back |
| `LegacyUtil.CreateBoundSnapshot` | ilp/src/com/patrikdufresne/ilp/util/BoundSnapshot.java:36-44 | succeeds iff every variable is live; the snapshot has exactly those variables, each with its bounds boxed by type |
| `LegacyUtil.SnapshotRestoresCaptured` | ilp/src/com/patrikdufresne/ilp/util/BoundSnapshot.java:126-132 | after a restore, capturing the variable again gives the snapshot's bound |
| `LegacyUtil.ConstraintSnapshot.constructor` | ilp/src/com/patrikdufresne/ilp/util/ConstraintSnapshot.java:58-67 | the snapshot keeps the name and the bound, and an immutable copy of the linear, null for a null linear |
| `LegacyUtil.ConstraintSnapshot.Restore` | ilp/src/com/patrikdufresne/ilp/util/ConstraintSnapshot.java:112-124 | a null problem is an IllegalArgumentException; a disposed problem is the disposed error. Otherwise one constraint is added, then named, given the linear unless it is null, and bounded. A name over 255 UTF-16 code units, or a linear with a disposed variable, is an IllegalArgumentException. Otherwise a null linear always succeeds, and a linear succeeds exactly when its columns are in range and distinct, as `glp_set_mat_row` requires. The new constraint then reads back the name, the linear's non-zero terms and the normalised bounds |
| `LegacyUtil.ConstraintSnapshot.Configure` | ilp/src/com/patrikdufresne/ilp/util/ConstraintSnapshot.java:119-122 | the new constraint gets the name, then the linear and the bounds. A name over 255 UTF-16 code units or a disposed variable in the linear is an IllegalArgumentException. Otherwise it succeeds for a null linear, and exactly when the row is accepted for another |
| `LegacyUtil.ConstraintSnapshot.WriteRow` | ilp/src/com/patrikdufresne/ilp/util/ConstraintSnapshot.java:120-122 | the linear, when there is one, then the bounds are written, and the name is kept. A null linear always succeeds. A disposed variable is an IllegalArgumentException. Otherwise it succeeds exactly when the row's columns are in range and distinct |
| `LegacyUtil.WriteBounds` | ilp/src/com/patrikdufresne/ilp/util/ConstraintSnapshot.java:122 | both bounds are written and read back normalised; the name and the entries are kept |
| `LegacyUtil.NewConstraintSnapshot` | ilp/src/com/patrikdufresne/ilp/util/ConstraintSnapshot.java:58-67 | a null bound is an IllegalArgumentException; a null linear is allowed and kept as null |
| `LegacyUtil.CaptureConstraint` | ilp/src/com/patrikdufresne/ilp/util/ConstraintSnapshot.java:29-41 | a null or disposed constraint is an IllegalArgumentException; otherwise the snapshot holds its name, its bounds and its row's terms, the linear being null for an empty row |

## Left out

- Native solving: the solver classes (`GLPKSolver` in both trees, `CbcSolver`, `ORSolver`), their callbacks (including the `BRANCHING_LAST_ALWAYS_DOWN` branch callback) and their global lock are not modelled. A problem's status, its solution values and the CBC `bestSolution` are fields that a solve would assign; the model never computes them.
- Native library loading (`GLPKLibrary`, `ORLibrary`) and `synchronized`: platform plumbing and concurrency. Every operation is modelled as sequential.
- Floating point: coefficients, bounds and values are Dafny `real`s. NaN, -0.0 and rounding are not modelled. `DBL_MAX` and `COIN_DBL_MAX` are exact constants.
- Cbc.Variable.GetValue: returns the stored value without `CbcLinearProblem.round` (BigDecimal HALF_EVEN). Floating-point formatting is outside the model.
- Cbc.Problem.GetObjectiveValue: returns the stored objective value without `CbcLinearProblem.round` (9 decimals, HALF_EVEN) as well. So for a stored 0.9999999999988346 the source gives 1.0 and the model the stored value.
- GLPK's own name limit in `glp_set_*_name` counts the bytes of the encoded name. A name that passes the Java check of 255 UTF-16 code units but encodes to more than 255 bytes makes GLPK fail natively. That failure is not modelled.
- Cbc.Constraint.GetValue: models only the order of checks, then the `UnsupportedOperationException` that is always thrown.
- `toString` everywhere, `LinearProblems.toString`, and logging (`ILPPolicy`, `ILPLogger`): string formatting and I/O.
- The interfaces, factories, the demo and the tests are not modelled. They only document behaviour, which the model states on the implementing classes.
- `CostStrategy` is an unused constant table.
- `Status` and `VarType` have no behaviour beyond tag equality, so they are plain datatypes.
- The order of a GLPK row's elements: `glp_get_mat_row` may return them in any order. The model reads them back in the order they were written, so `getLinear` preserves that order.
- The read-only views (`getVariables`, `getConstraints`, and a snapshot's `keySet`, `entrySet` and `values`) are not modelled. Their contents are the entity lists and maps the model exposes as fields.
- The legacy tree's `load`, `save`, `createLinear` and `createTerm`, and the legacy `AbstractLinearProblem`: file I/O, and builders that duplicate the modelled `LinearBuilders`. The legacy `AbstractLinearProblem` is not part of this model. The legacy GLPK classes rely on three of its behaviours, which the model takes from the newer tree's `AbstractLinearProblem`: `checkLinear` refuses only a term whose variable is disposed; `isMIP` is true iff no column is REAL; and `makeDirty` sets a modified flag that `clear` resets.
- The legacy `ValueSnapshot` is not part of this model. The legacy `ConstraintSnapshot` getters only return its fields and become the class's fields.
- The legacy problem's variable and constraint lists are created lazily (null before the first add). The model starts them empty. A null list and an empty one behave alike in every modelled operation except `getCol`, which reads the variable list without a null test (impl/GLPKLinearProblem.java:274). The model therefore records whether that list exists (`hasVariableList`).
- The CBC problem's name sets and constraint list are also created lazily. The model starts them empty, because a null one and an empty one behave alike in every modelled operation. Its variable list is the exception: `getCol` and `CbcConstraint.getLinear` read it without a null test. The model therefore records whether it exists (`hasVariableList`).
- Cbc.Problem.SetObjectiveLinear, Cbc.Constraint.SetLinear: these model the code as written, writing over the old coefficients. The intended replacement, `Cbc.ReplaceObjective` and `Cbc.ReplaceRow` (Findings), is stated on the native values. No class member calls it.
- LegacyGLPK.Problem.RemoveCol: on a disposed problem the native call fails; the model returns `Err(Native)` instead of native undefined behaviour. LegacyGLPK.Problem.RemoveRow does the same.
- The legacy `ILPException` has no `ERROR_DUPLICATE_NAME`. The shared `ILPErrors` models it, and the legacy tree never raises code 4.
- `GLPKVariable`: `GLPKLinearProblem.addVariable` calls a two-argument constructor, but `GLPKVariable.java` declares only the one-argument form. The model follows the caller: the constructor registers the column and then sets the name.
- `CbcConstraint` reads `parent.INFINITY`, which `CbcLinearProblem` does not declare. The model takes it to be the problem's infinity (`COIN_DBL_MAX`).
- The legacy `Bound.restore`, used by the legacy snapshots, is not defined in the legacy `Bound.java`. The model gives it the newer tree's meaning: set the lower bound, then the upper.
- The composite adders that `AbstractLinearProblem` gives every backend (`addBinaryVariable`, `addIntegerVariable` and the four-argument `addConstraint`) are modelled on GLPK. `addConstraint` is also modelled on CBC. OR-Tools inherits the same defaults over the same primitive calls, so they are not repeated there.
- `ORLinearProblem.getVariables` returns the internal mutable list. Changes made through it are not modelled.
- ORTools.Problem.GetObjectiveDirection: the "Unknown direction." exception cannot arise, because the native objective is always either maximising or minimising.
- The GLPK bindings (glpk-java, in both trees): a call GLPK refuses is `Err(Native)` and leaves the problem unchanged. Such calls are `glp_set_mat_row` with a column out of range or repeated, and `glp_set_obj_coef` with an index out of range. GLPK itself reports a fatal error and aborts, and `glp_set_mat_row` has already emptied the row when it finds the bad index. Neither the abort nor the emptied row is modelled.
- The CBC bindings (cbc4j over `OsiClpSolverInterface`) are modelled by the meaning of each named `OsiSolverInterface` call:
  - a write to one index changes only that entry, and the last write wins;
  - an index out of range is `Err(Native)`;
  - `isBinary` means integer with bounds in {0, 1};
  - `getInfinity` is `COIN_DBL_MAX`.
- The OR-Tools bindings are modelled by the documented meaning of each `MPSolver`, `MPVariable`, `MPConstraint` and `MPObjective` call. Coefficients are kept in maps keyed by variable, so an unset coefficient reads 0.
- `getDual`, `isPrimalFeasible` and `isDualFeasible` of the legacy tree read native solution state. The model reads them from fields of the native value, which a solve would set.

## Findings

| source | as written | input that shows it | evidently intended | confidence | as-written member | corrected member |
|---|---|---|---|---|---|---|
| com.patrikdufresne.ilp.glpk/src/main/java/com/patrikdufresne/ilp/glpk/GLPKVariable.java:177-200 | `setType` clears the cached MIP flag only for REAL. The same holds for `removeCol` (GLPKLinearProblem.java:431-453), which never clears it. | A problem with one REAL column whose `isMIP()` cached `false`, then `setType(INTEGER)` (or adding an INTEGER column and removing the REAL one): `isMIP()` still answers `false`. | Any change to the column types invalidates the cache. | not executed | `GLPK.SetTypeAsWrittenGoesStale`, `GLPK.RemoveColAsWrittenGoesStale` | `GLPK.Variable.SetType`, `GLPK.Problem.RemoveCol`: both clear the cache and keep `GLPK.Problem.Valid`, whose last clause says a cached flag equals `IsMIP` of the column kinds |
| com.patrikdufresne.ilp.cbc/src/main/java/com/patrikdufresne/ilp/cbc/CbcLinearProblem.java:410-415 | `removeCol` compacts `bestSolution` only when its length exceeds 1. It also copies past the end when the array is shorter than the column count. | `bestSolution = [5.0]`, remove column 0: the stale 5.0 stays for the next column 0. `bestSolution = [1.0, 2.0]`, remove column 2: the copy throws. | Drop exactly the removed column's entry when it exists, and otherwise keep the array. | not executed | `Cbc.CompactAsWrittenKeepsStaleValue`, `Cbc.CompactAsWrittenThrowsPastEnd` | `Cbc.Compact`, `Cbc.CompactKeepsValues`, used by `Cbc.Problem.RemoveCol` |
| ilp/src/com/patrikdufresne/ilp/impl/GLPKVariable.java:187-199 | `setLowerBound` reads the current upper bound through the getter, which truncates it for integer types, then writes that truncated value back. | An INTEGER column with upper bound -2.5, then `setLowerBound(-4)`: the upper bound becomes -2. | The upper bound is left as stored, as the newer GLPK backend does. | not executed | `LegacyGLPK.SetLowerBoundAsWrittenLoosensUpper` | `GLPK.Variable.SetLowerBound`, `GLPKBounds.SetLowerKeepsUpper` |
| com.patrikdufresne.ilp.cbc/src/main/java/com/patrikdufresne/ilp/cbc/CbcLinearProblem.java:482-501 | `setObjectiveLinear` writes the linear's coefficients over the old objective without clearing it. A null or empty linear therefore leaves the objective as it was. | Objective `3x`, then `setObjectiveLinear(2y)`: `getObjectiveLinear()` gives `3x + 2y`. `setObjectiveLinear(null)` keeps `3x`. | The objective becomes exactly the linear, and a null or empty linear removes it, as `LinearProblem.setObjectiveLinear` documents and the GLPK and OR-Tools backends do. | not executed | `Cbc.ObjectiveAsWrittenKeepsUnlisted` (the writes of `Cbc.Problem.SetObjectiveLinear`) | `Cbc.ReplaceObjective`, `Cbc.ReplacedObjectiveRoundTrip` |
| com.patrikdufresne.ilp.cbc/src/main/java/com/patrikdufresne/ilp/cbc/CbcConstraint.java:150-170 | `setLinear` writes the linear's coefficients over the old row without clearing it. A null linear therefore leaves the row as it was. | Row `x + y`, then `setLinear(2x)`: `getLinear()` gives `2x + y`. `setLinear(null)` keeps `x + y`. | The row becomes exactly the linear, and null resets it, as `Constraint.setLinear` documents and the GLPK and OR-Tools backends do. | not executed | `Cbc.RowAsWrittenKeepsUnlisted` (the writes of `Cbc.Constraint.SetLinear`) | `Cbc.ReplaceRow`, `Cbc.ReplacedRowRoundTrip` |
