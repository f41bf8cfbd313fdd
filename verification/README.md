# Generic matrix library: a Dafny model

This project models the matrix engine of the `MathematicalEntities` C# library with the element type fixed to `int`.

The `Matricies` namespace holds a generic `Matrix<T>` with a logical `rowCount x columnCount` shape over jagged physical storage. It raises one change notification per write and has two `Multiply` overloads. Three subclasses change the storage and the indexer:
- `DiagonalMatrix` stores one row of n values and refuses writes off the diagonal.
- `SymmetricMatrix` validates its source and stores the lower triangle.
- `SquareMatrix` only validates.

`AdditionVisitor` adds two matrices cell by cell.

The top-level namespace keeps an older `Matrix<T>` over a rectangular `T[,]`. It adds `Difference` against a matrix or a scalar, and has its own `SquareMatrix`.

Every class is an immutable datatype. Every operation that can throw returns a `Result`; the rest (`GetValue`, `SetDimensions`, `N`, `M`, enumeration) return plain values. The source's multiplication loops are also modelled as methods and proved equal to the pure functions.
- `Ok(value)` stands for a normal return.
- `Err(e)` stands for the exception thrown. There is one `Error` per way of failing, and each names its exception; several share an exception type. For example, a null source array gives `NullSource` (`ArgumentNullException`) when a constructor's own check rejects it, and `NullDereference` (`NullReferenceException`) in `DiagonalMatrix` and `SymmetricMatrix`, which read the array's length before any check.

A null array argument of a constructor (two-dimensional, one-dimensional or jagged) is `Option.None`.

A write through an indexer returns the new matrix together with the `ChangeEvent` the write raises. `Matrices.Replay` collects the event log of a sequence of writes.

The three `Matricies` classes are one datatype, `Matrices.Matrix`, and the `kind` field records the storage layout: `Dense` for the base class and for `SquareMatrix`, whose storage and indexers are the base class's, `Diagonal` for `DiagonalMatrix` and `Symmetric` for `SymmetricMatrix`. The virtual `GetValue` and the overridden write indexer are dispatched on it.

Modules, one per source class:
- `Results`, `ChangeEvents`, `Grids`: shared types, the `T[,]` array, the dot product, row-major flattening.
- `Matrices`: `Matricies/Matrix.cs`, with the read and write mappings of all three kinds.
- `Products`: the two `Multiply` overloads of `Matricies/Matrix.cs`.
- `DiagonalMatrices`, `SymmetricMatrices`, `SquareMatrices`: the three subclasses.
- `Addition`: `AdditionVisitor`.
- `LegacyMatrices`, `LegacySquareMatrices`: the top-level `Matrix.cs` and `SquareMatrix.cs`.
- `MatrixLaws`: properties relating operations of different classes.

Where the intended behaviour and the code disagree, the model follows the code:
- Enumeration walks the physical storage. A diagonal matrix yields its n stored values and a symmetric matrix its lower triangle, not the expanded logical grid.
- A diagonal write records the physical position `(0, i)` in its change event, not the logical `(i, i)`. A symmetric write records `(max(i, j), min(i, j))`.
- The write indexer has no bounds check of its own. A write outside the storage fails with the runtime's `IndexOutOfRangeException` (`StorageIndexOutOfRange`), not with the read indexer's `ArgumentOutOfRangeException` (`IndexOutOfRange`).
- The product is `N x M`, not `N x anotherMatrix.M`, in both matrix classes (see Findings).

## Model

| member | source | states |
|---|---|---|
| Matrices.GetValue | EPAM.Summer.Dulina.11/MathematicalEntities/Matricies/Matrix.cs:151-154 | The reference read mapping every read and write contract is stated against: a dense matrix reads its stored cell (i, j), a diagonal matrix stored cell (0, i) on the diagonal and 0 off it (DiagonalMatrix.cs:27-30), a symmetric matrix stored cell (max(i, j), min(i, j)), the same cell its write indexer writes (SymmetricMatrix.cs:58-61) |
| Matrices.Get | EPAM.Summer.Dulina.11/MathematicalEntities/Matricies/Matrix.cs:18-33 | A read succeeds exactly when both indices lie inside the logical shape; otherwise it fails with the read indexer's out-of-range error; on success it yields the class's `GetValue` |
| Matrices.BaseSet | EPAM.Summer.Dulina.11/MathematicalEntities/Matricies/Matrix.cs:34-39 | The base write succeeds exactly when the position lies in the physical storage; it changes that one stored cell and no other, keeps every row length, and raises one event carrying the position, the previous and the new value |
| Matrices.Set | EPAM.Summer.Dulina.11/MathematicalEntities/Matricies/Matrix.cs:34-39 | For every class a write succeeds exactly when the position is in range and, for a diagonal matrix, on the diagonal. The storage layout, kind and shape are preserved. The written cell reads back the value, every other logical cell reads as before unless it shares storage with the written one, and exactly one event reports the position the base write used with the old logical value |
| Matrices.Replay | EPAM.Summer.Dulina.11/MathematicalEntities/Matricies/Matrix.cs:34-46 | A sequence of writes succeeds exactly when every write is to a writable position; it keeps the layout and shape and raises one event per write, in order, each carrying the value written |
| Matrices.New | EPAM.Summer.Dulina.11/MathematicalEntities/Matricies/Matrix.cs:66-86 | Construction from counts fails exactly when either count is below 1; otherwise the shape is as requested and every cell reads 0 |
| Matrices.FromArray | EPAM.Summer.Dulina.11/MathematicalEntities/Matricies/Matrix.cs:88-107 | Construction from an array fails only on null; the shape is the array's (empty allowed) and every cell reads as the array's |
| Matrices.SetDimensions | EPAM.Summer.Dulina.11/MathematicalEntities/Matricies/Matrix.cs:109-113 | The logical shape becomes the given counts; the storage and the class are unchanged |
| Matrices.FromJagged | EPAM.Summer.Dulina.11/MathematicalEntities/Matricies/Matrix.cs:115-135 | The jagged constructor fails on null with the null-argument error, and on an empty array with the bounds error (it reads `array[0]`); otherwise it keeps the rows as given and leaves the shape 0 x 0 |
| Matrices.MatrixConvert | EPAM.Summer.Dulina.11/MathematicalEntities/Matricies/Matrix.cs:137-149 | The conversion fails exactly on an empty shape; otherwise it is a dense matrix of the same shape reading the same at every cell |
| Matrices.ConvertDenseIsCopy | EPAM.Summer.Dulina.11/MathematicalEntities/Matricies/Matrix.cs:137-149 | Converting a non-empty dense matrix gives back an equal value |
| Matrices.Enumerate | EPAM.Summer.Dulina.11/MathematicalEntities/Matricies/Matrix.cs:197-206 | Enumeration yields rows x cols values for a dense matrix with cell (i, j) at i * cols + j, n values for a diagonal matrix (the diagonal), and 1 + ... + n values for a symmetric matrix with (i, j), j <= i, at 1 + ... + i + j |
| Products.Multiply | EPAM.Summer.Dulina.11/MathematicalEntities/Matricies/Matrix.cs:156-176 | As written: a shape mismatch fails first, then an empty left operand, then a right operand wider than the left; on success the result is N x M, holds the sum over k of A[i, k] * B[k, j] in the right operand's columns and 0 in the rest |
| Products.AccumulateCell | EPAM.Summer.Dulina.11/MathematicalEntities/Matricies/Matrix.cs:168-171 | The innermost loop fails (the result's read indexer throws) exactly when column j is outside the result; otherwise cell (i, j) gains the dot product of row i of A with column j of B and every other cell is unchanged |
| Products.MultiplyByLoops | EPAM.Summer.Dulina.11/MathematicalEntities/Matricies/Matrix.cs:163-175 | The triple loop, accumulating through the result's read and write indexers, computes exactly `Multiply`, failures included |
| Products.MultiplyIntended | EPAM.Summer.Dulina.11/MathematicalEntities/Matricies/Matrix.cs:158-163 | Corrected product: fails only on a shape mismatch or an empty result; on success it is N x B.M and every cell is the sum over k of A[i, k] * B[k, j] |
| Products.MultiplyAgreesOnSquareOperand | EPAM.Summer.Dulina.11/MathematicalEntities/Matricies/Matrix.cs:156-176 | When B is M x M the product as written and the corrected product are equal, failures included |
| Products.MultiplyRejectsWiderOperand | EPAM.Summer.Dulina.11/MathematicalEntities/Matricies/Matrix.cs:163-170 | [[2]] times [[3, 4]] throws as written, while the corrected product is [[6, 8]] |
| Products.MultiplyPadsNarrowerOperand | EPAM.Summer.Dulina.11/MathematicalEntities/Matricies/Matrix.cs:163-170 | [[1, 2], [3, 4]] times [[5], [6]] gives [[17, 0], [39, 0]] as written, while the corrected product is [[17], [39]] |
| Products.MultiplyExample | EPAM.Summer.Dulina.11/MathematicalEntities/Matricies/Matrix.cs:156-176 | [[1, 2], [3, 4]] times [[5, 6], [7, 8]] is [[19, 22], [43, 50]] |
| Products.MultiplyByScalar | EPAM.Summer.Dulina.11/MathematicalEntities/Matricies/Matrix.cs:178-190 | Scaling fails exactly on an empty shape (from the conversion); otherwise the result is a dense matrix of the receiver's shape whose every cell is the receiver's cell times the scalar |
| Products.MultiplyByOneIsConvert | EPAM.Summer.Dulina.11/MathematicalEntities/Matricies/Matrix.cs:178-190 | Scaling by 1 is the dense conversion, failures included |
| DiagonalMatrices.ConvertToMultiDimensionalArray | EPAM.Summer.Dulina.11/MathematicalEntities/Matricies/DiagonalMatrix.cs:32-40 | The values become a 1 x n array whose cell (0, i) is value i |
| DiagonalMatrices.New | EPAM.Summer.Dulina.11/MathematicalEntities/Matricies/DiagonalMatrix.cs:22-25 | Construction fails only on null, with the null-dereference error of the conversion reading `array.Length` (line 34); the logical shape is n x n over the one stored row of values, a read on the diagonal gives value i and any other read gives 0 |
| DiagonalMatrices.OffDiagonalReadsZero | EPAM.Summer.Dulina.11/MathematicalEntities/Matricies/DiagonalMatrix.cs:27-30 | Every in-range read off the diagonal yields 0 |
| DiagonalMatrices.ReadsCheckLogicalShape | EPAM.Summer.Dulina.11/MathematicalEntities/Matricies/DiagonalMatrix.cs:22-30 | A read succeeds exactly when both indices are below n, the length of the single stored row |
| DiagonalMatrices.SetOffDiagonalFails | EPAM.Summer.Dulina.11/MathematicalEntities/Matricies/DiagonalMatrix.cs:7-20 | A write with i != j fails with the off-diagonal error, whatever the indices |
| DiagonalMatrices.SetDiagonalRoundTrip | EPAM.Summer.Dulina.11/MathematicalEntities/Matricies/DiagonalMatrix.cs:7-20 | A write at (i, i) succeeds, reads back, leaves every other logical cell as it was and raises one event at position (0, i) |
| DiagonalMatrices.OffDiagonalZeroAfterWrites | EPAM.Summer.Dulina.11/MathematicalEntities/Matricies/DiagonalMatrix.cs:7-30 | After any sequence of successful writes every off-diagonal cell still reads 0 |
| DiagonalMatrices.EnumerateYieldsDiagonal | EPAM.Summer.Dulina.11/MathematicalEntities/Matricies/Matrix.cs:197-206 | Enumerating a diagonal matrix built from some values yields exactly those values |
| DiagonalMatrices.NewExample | EPAM.Summer.Dulina.11/MathematicalEntities/Matricies/DiagonalMatrix.cs:22-30 | [5, 7, 9] gives a 3 x 3 matrix reading 5, 7, 9 on the diagonal and 0 at (0, 1), and refuses a write at (0, 1) |
| SymmetricMatrices.CheckMatrixForSymmetric | EPAM.Summer.Dulina.11/MathematicalEntities/Matricies/SymmetricMatrix.cs:28-56 | Validation succeeds exactly when the array equals its transpose (though the loop compares only j <= i); a non-square array fails as not square, an asymmetric one as not symmetric; the result's row i is `array[i, 0..i]` |
| SymmetricMatrices.CheckByLoops | EPAM.Summer.Dulina.11/MathematicalEntities/Matricies/SymmetricMatrix.cs:28-56 | The comparison and copy loops compute exactly `CheckMatrixForSymmetric` |
| SymmetricMatrices.New | EPAM.Summer.Dulina.11/MathematicalEntities/Matricies/SymmetricMatrix.cs:23-30 | Construction succeeds exactly for a non-empty symmetric array, with the error of each failing stage otherwise (null dereferenced by `GetLength(0)`, not square, not symmetric, empty); the result is n x n, stores row i as `array[i, 0..i]`, and reads as the array at every cell |
| SymmetricMatrices.ReadsAreSymmetric | EPAM.Summer.Dulina.11/MathematicalEntities/Matricies/SymmetricMatrix.cs:58-61 | Every symmetric matrix reads the same at (i, j) and (j, i), out-of-range failures included |
| SymmetricMatrices.SetKeepsSymmetry | EPAM.Summer.Dulina.11/MathematicalEntities/Matricies/SymmetricMatrix.cs:12-21 | An in-range write succeeds, keeps the matrix symmetric and valid, is visible at (i, j) and at (j, i), and raises one event at (max, min) |
| SymmetricMatrices.SetChangesOnlyMirrorPair | EPAM.Summer.Dulina.11/MathematicalEntities/Matricies/SymmetricMatrix.cs:12-21 | A write at (i, j) leaves every cell other than (i, j) and (j, i) as it was |
| SymmetricMatrices.SetWritesLowerTriangle | EPAM.Summer.Dulina.11/MathematicalEntities/Matricies/SymmetricMatrix.cs:12-21 | The write lands in stored cell (max(i, j), min(i, j)), which lies inside the triangle |
| SymmetricMatrices.AcceptsSymmetricExample | EPAM.Summer.Dulina.11/MathematicalEntities/Matricies/SymmetricMatrix.cs:28-56 | [[1, 2], [2, 1]] is accepted and stored as [[1], [2, 1]] |
| SymmetricMatrices.RejectsAsymmetricExample | EPAM.Summer.Dulina.11/MathematicalEntities/Matricies/SymmetricMatrix.cs:34-43 | [[1, 2], [3, 1]] is refused as not symmetric |
| SymmetricMatrices.RejectsEmptyArray | EPAM.Summer.Dulina.11/MathematicalEntities/Matricies/Matrix.cs:125 | A 0 x 0 array passes validation, but construction fails when the jagged constructor reads its first row |
| SquareMatrices.New | EPAM.Summer.Dulina.11/MathematicalEntities/Matricies/SquareMatrix.cs:7 | A negative dimension fails in the allocation; otherwise the result is d x d (0 x 0 included) and reads 0 everywhere |
| SquareMatrices.FromArray | EPAM.Summer.Dulina.11/MathematicalEntities/Matricies/SquareMatrix.cs:9-15 | Null fails first, then a non-square array; a square array is copied cell for cell with N == M |
| Addition.Add | EPAM.Summer.Dulina.11/MathematicalEntities/Visitors/AdditionVisitor.cs:16-31 | Addition fails with a dimension mismatch on a shape mismatch, and with too-small dimensions on an equal but empty shape; otherwise the result is a dense matrix of the shared shape whose every cell is the sum of the operands' cells as read through their indexers |
| LegacyMatrices.N | EPAM.Summer.Dulina.11/MathematicalEntities/Matrix.cs:45-51 | `N` is the array's first length: the number of stored rows, which every read and write is bounded by |
| LegacyMatrices.M | EPAM.Summer.Dulina.11/MathematicalEntities/Matrix.cs:53-59 | `M` is the array's second length: the length of every stored row (kept even when there are no rows) |
| LegacyMatrices.Get | EPAM.Summer.Dulina.11/MathematicalEntities/Matrix.cs:25-30 | A read succeeds exactly inside the array, yielding the stored cell, and otherwise fails with the runtime's bounds error |
| LegacyMatrices.Set | EPAM.Summer.Dulina.11/MathematicalEntities/Matrix.cs:31-36 | A write succeeds exactly inside the array; the cell reads back, every other cell, the shape and the delegates are unchanged, and one event carries (i, j, old, new) |
| LegacyMatrices.New | EPAM.Summer.Dulina.11/MathematicalEntities/Matrix.cs:63-76 | As written: fails exactly when either count is below 1; otherwise the shape is as requested, every cell reads 0, and no arithmetic delegate is compiled |
| LegacyMatrices.NewIntended | EPAM.Summer.Dulina.11/MathematicalEntities/Matrix.cs:63-76 | Corrected counts constructor: the same checks and zeros, with the delegates compiled |
| LegacyMatrices.FromArray | EPAM.Summer.Dulina.11/MathematicalEntities/Matrix.cs:78-95 | Fails only on null; the stored array is the source array (any shape) and the delegates are compiled |
| LegacyMatrices.Multiply | EPAM.Summer.Dulina.11/MathematicalEntities/Matrix.cs:97-117 | As written: a shape mismatch fails first, then an empty operand. Without delegates the call fails, with a bounds error if B has no columns. With delegates a B narrower than M fails the bounds check. On success the result is N x M, holds the sum over k of A[i, k] * B[k, j] (B's columns beyond M dropped), and has no delegates |
| LegacyMatrices.MultiplyIntended | EPAM.Summer.Dulina.11/MathematicalEntities/Matrix.cs:97-117 | Corrected product: fails only on a shape mismatch or an empty result; on success it is N x B.M with every cell the sum over k of A[i, k] * B[k, j] |
| LegacyMatrices.AccumulateCell | EPAM.Summer.Dulina.11/MathematicalEntities/Matrix.cs:109-112 | The innermost loop fails with the bounds error exactly when j is past B's columns, and otherwise with the missing-delegate error exactly when A has no delegates; on success cell (i, j) gains the dot product of row i of A with column j of B and every other cell is unchanged |
| LegacyMatrices.MultiplyByLoops | EPAM.Summer.Dulina.11/MathematicalEntities/Matrix.cs:97-117 | The triple loop, with j and k over M and the operands evaluated in C# order, computes exactly `Multiply`, failures included |
| LegacyMatrices.MultiplyAgreesOnSquareOperand | EPAM.Summer.Dulina.11/MathematicalEntities/Matrix.cs:97-117 | With delegates and B of size M x M, the product as written and the corrected product succeed together and hold the same cells |
| LegacyMatrices.MultiplyByScalar | EPAM.Summer.Dulina.11/MathematicalEntities/Matrix.cs:119-131 | Fails exactly when the receiver has no delegates and a cell to visit; otherwise the result has the receiver's shape, has delegates, and every cell is the receiver's cell times the scalar |
| LegacyMatrices.MultiplyByOneIsCopy | EPAM.Summer.Dulina.11/MathematicalEntities/Matrix.cs:119-131 | When scaling succeeds, scaling by one returns exactly the receiver's array with delegates, the same matrix the array constructor builds from it |
| LegacyMatrices.Difference | EPAM.Summer.Dulina.11/MathematicalEntities/Matrix.cs:133-150 | Fails with a dimension mismatch on a shape mismatch; on equal shapes with a cell to visit, fails exactly when the receiver lacks delegates, with the missing-delegate error; otherwise every cell is A[i, j] - B[i, j] in A's shape |
| LegacyMatrices.DifferenceByScalar | EPAM.Summer.Dulina.11/MathematicalEntities/Matrix.cs:152-164 | Fails exactly for lack of delegates with a cell to visit; otherwise every cell is A[i, j] - value in A's shape |
| LegacyMatrices.DifferenceByScalarIsDifferenceWithConstant | EPAM.Summer.Dulina.11/MathematicalEntities/Matrix.cs:133-164 | Subtracting a scalar equals subtracting the same-shaped matrix holding that scalar everywhere, failures included |
| LegacyMatrices.Enumerate | EPAM.Summer.Dulina.11/MathematicalEntities/Matrix.cs:171-177 | Enumeration yields N * M values with cell (i, j) at i * M + j |
| LegacyMatrices.RowMajorOrder | EPAM.Summer.Dulina.11/MathematicalEntities/Matrix.cs:171-177 | Walking the array row by row visits N * M cells and reaches cell (i, j) at position i * M + j |
| LegacyMatrices.MultiplyDropsColumnsExample | EPAM.Summer.Dulina.11/MathematicalEntities/Matrix.cs:104-111 | [[2]] times [[3, 4]] returns [[6]] as written, while the corrected product is [[6, 8]] |
| LegacyMatrices.MultiplyRejectsNarrowerOperandExample | EPAM.Summer.Dulina.11/MathematicalEntities/Matrix.cs:107-111 | [[1, 2], [3, 4]] times [[5], [6]] throws as written, while the corrected product is [[17], [39]] |
| LegacyMatrices.CountsConstructorLacksOperatorsExample | EPAM.Summer.Dulina.11/MathematicalEntities/Matrix.cs:63-95 | A 2 x 2 matrix from the counts constructor throws on scaling and on both differences; from the corrected constructor all three succeed |
| LegacyMatrices.ProductLacksOperators | EPAM.Summer.Dulina.11/MathematicalEntities/Matrix.cs:104 | Every successful product lacks delegates, so scaling it throws |
| LegacyMatrices.IntendedConstructorSupportsArithmetic | EPAM.Summer.Dulina.11/MathematicalEntities/Matrix.cs:63-95 | Every matrix from the corrected constructor can be scaled, have a scalar subtracted, and have any same-shaped matrix subtracted |
| LegacySquareMatrices.New | EPAM.Summer.Dulina.11/MathematicalEntities/SquareMatrix.cs:9 | A negative dimension fails in the allocation; otherwise the result is d x d (0 x 0 included), reads 0 everywhere and has delegates |
| LegacySquareMatrices.FromArray | EPAM.Summer.Dulina.11/MathematicalEntities/SquareMatrix.cs:11-17 | Null fails first, then a non-square array; a square array is stored as given, with delegates |
| LegacySquareMatrices.SquareMatrixSupportsScaling | EPAM.Summer.Dulina.11/MathematicalEntities/SquareMatrix.cs:9 | A square matrix of any positive dimension can be scaled, where the counts constructor's matrix of the same shape cannot |
| MatrixLaws.ScalingIsProductWithScalarDiagonal | EPAM.Summer.Dulina.11/MathematicalEntities/Matricies/Matrix.cs:156-190 | Scaling by v equals multiplying on the right by the diagonal matrix of v's, as written and as corrected, failures included |
| MatrixLaws.IdentityProductIsConvert | EPAM.Summer.Dulina.11/MathematicalEntities/Matricies/Matrix.cs:137-176 | Multiplying by the diagonal matrix of ones is the dense conversion |
| MatrixLaws.AddingDiagonalChangesOnlyDiagonal | EPAM.Summer.Dulina.11/MathematicalEntities/Visitors/AdditionVisitor.cs:28 | Adding a diagonal matrix leaves every off-diagonal cell of the other operand as it was and adds the stored values on the diagonal |
| MatrixLaws.DifferenceUndoesAddition | EPAM.Summer.Dulina.11/MathematicalEntities/Visitors/AdditionVisitor.cs:16-31 | Adding B and then subtracting B with the legacy `Difference` restores A's cells exactly, for every pair of classes |

## Left out

- `OperationHelper` and the expression compilation in the legacy constructor: the delegates are `int` `+`, `-` and `*`. Only whether the legacy delegates exist is kept, as the `operators` flag.
- Generic `T`, `Comparer<T>.Default` and floating-point elements: elements are unbounded integers and equality stands in for the comparer.
- 32-bit overflow: C# `int` arithmetic wraps around, the model's does not. This affects the products, sums and differences of every arithmetic member.
- The visitor interfaces, `MatrixAccept` and the `Addition` extension method: this is double-dispatch plumbing, and `Addition.Add(a, b)` stands for `a.Addition(b)`.
- The two `IMatrix` interfaces: they carry no behaviour. Both operands of every operation are matrices of the same class family.
- The `NewChange` multicast delegate, `OnChange` and the `Change` console handler: a write returns the event it raises instead of invoking observers.
- `SymmetricMatrix.CreateMatrix`: it overrides a method the base class shown does not define, and calls `ToArray`, which neither matrix class implements.
- The null check of the protected `Matrix(T[][])` constructor is modelled (`Matrices.FromJagged`), but no public constructor reaches it, because `CheckMatrixForSymmetric` never returns null. Null rows inside a jagged array are not modelled: the only jagged array the library builds has every row allocated.
- Null operands of arithmetic: the two `Multiply(IMatrix)` methods, the legacy `Difference(IMatrix)` and the addition visitor throw `NullReferenceException` for a null operand. The model's operands are matrix values and cannot be null, so that path is not modelled.
- Object identity and mutation in place: every result is a new value, so "operands unchanged" and "results are fresh" hold by construction and are not stated separately.
- Matrices.Replay: states the new value of each event, not its position and old value (those are stated per write by `Matrices.Set`).

## Findings

| source | as written | input that shows it | evidently intended | confidence | as-written member | corrected member |
|---|---|---|---|---|---|---|
| EPAM.Summer.Dulina.11/MathematicalEntities/Matricies/Matrix.cs:163 | the product is allocated `N x M`, while `j` runs over `anotherMatrix.M` | `[[2]]` times `[[3, 4]]` throws `ArgumentOutOfRangeException`; `[[1, 2], [3, 4]]` times `[[5], [6]]` returns a 2 x 2 matrix with a zero second column | allocate `N x anotherMatrix.M` | not executed | Products.Multiply, Products.MultiplyRejectsWiderOperand | Products.MultiplyIntended |
| EPAM.Summer.Dulina.11/MathematicalEntities/Matrix.cs:107 | `j` runs over `M` (the left operand's columns), not over `anotherMatrix.M`, into an `N x M` result | `[[2]]` times `[[3, 4]]` returns `[[6]]`; `[[1, 2], [3, 4]]` times `[[5], [6]]` throws `IndexOutOfRangeException` | an `N x anotherMatrix.M` result with `j` over `anotherMatrix.M` | not executed | LegacyMatrices.Multiply, LegacyMatrices.MultiplyDropsColumnsExample | LegacyMatrices.MultiplyIntended |
| EPAM.Summer.Dulina.11/MathematicalEntities/Matrix.cs:63-76 | the counts constructor never compiles the multiply, add and subtract delegates, so arithmetic on such a matrix (and on every product, which is built by it) calls a null delegate | `new Matrix<int>(2, 2).Multiply(3)` throws `NullReferenceException` | compile the delegates in every constructor | not executed | LegacyMatrices.New, LegacyMatrices.CountsConstructorLacksOperatorsExample | LegacyMatrices.NewIntended |
