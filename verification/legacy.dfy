/** `MathematicalEntities.Matrix<T>`, the older matrix class kept next to the
    `Matricies` hierarchy.  It stores a rectangular `T[,]` directly, its
    indexer is the array access itself, and its arithmetic goes through
    three delegates (multiply, add, subtract) that only the array
    constructor compiles. */
module LegacyMatrices {
  import opened Results
  import opened Grids
  import opened ChangeEvents

  /** The stored array, and whether the constructor compiled the arithmetic
      delegates.  `Matrix(int, int)` leaves them null; `Matrix(T[,])` sets
      them. */
  datatype LegacyMatrix = LegacyMatrix(grid: Grid, operators: bool)

  predicate Valid(m: LegacyMatrix)
  {
    Rectangular(m.grid)
  }

  /** `N`: the array's first length, the number of stored rows. */
  function N(m: LegacyMatrix): (n: nat)
    ensures Valid(m) ==> n == |m.grid.cells|
  {
    m.grid.height
  }

  /** `M`: the array's second length, the length of every stored row; an
      array without rows still keeps it. */
  function M(m: LegacyMatrix): (w: nat)
    ensures Valid(m) ==> forall i | 0 <= i < |m.grid.cells| :: |m.grid.cells[i]| == w
  {
    m.grid.width
  }

  predicate InRange(m: LegacyMatrix, i: int, j: int)
  {
    0 <= i < N(m) && 0 <= j < M(m)
  }

  /** Two valid matrices with the same shape, the same cells and the same
      delegates are the same value. */
  lemma Extensionality(x: LegacyMatrix, y: LegacyMatrix)
    requires Valid(x) && Valid(y)
    requires N(x) == N(y) && M(x) == M(y) && x.operators == y.operators
    requires forall i, j | InRange(x, i, j) :: x.grid.cells[i][j] == y.grid.cells[i][j]
    ensures x == y
  {
    assert forall i | 0 <= i < N(x) :: x.grid.cells[i] == y.grid.cells[i];
  }

  /** The read indexer: the array access, whose bounds check throws. */
  function Get(m: LegacyMatrix, i: int, j: int): (r: Result<int>)
    requires Valid(m)
    ensures r.Ok? <==> InRange(m, i, j)
    ensures r.Err? ==> r.error == StorageIndexOutOfRange
    ensures r.Ok? ==> r.value == m.grid.cells[i][j]
  {
    if InRange(m, i, j) then Ok(m.grid.cells[i][j]) else Err(StorageIndexOutOfRange)
  }

  /** The write indexer: reads the old value (throwing out of range), stores
      the new one and raises one change event.  Every other cell keeps its
      value and the shape and delegates stay as they were. */
  function Set(m: LegacyMatrix, i: int, j: int, v: int): (r: Result<(LegacyMatrix, ChangeEvent)>)
    requires Valid(m)
    ensures r.Ok? <==> InRange(m, i, j)
    ensures r.Err? ==> r.error == StorageIndexOutOfRange
    ensures r.Ok? ==>
      && Valid(r.value.0) && N(r.value.0) == N(m) && M(r.value.0) == M(m)
      && r.value.0.operators == m.operators
    ensures r.Ok? ==> Get(r.value.0, i, j) == Ok(v)
    ensures r.Ok? ==> forall p, q | InRange(m, p, q) && !(p == i && q == j) ::
      Get(r.value.0, p, q) == Get(m, p, q)
    ensures r.Ok? ==> r.value.1 == ChangeEvent(i, j, Get(m, i, j).value, v)
  {
    if !InRange(m, i, j) then Err(StorageIndexOutOfRange)
    else
      var cells := m.grid.cells[i := m.grid.cells[i][j := v]];
      Ok((m.(grid := m.grid.(cells := cells)), ChangeEvent(i, j, m.grid.cells[i][j], v)))
  }

  /** `Matrix(int rowCount, int columnCount)` as written: both counts must
      be at least 1, every cell is 0, and no delegate is compiled. */
  function New(rowCount: int, columnCount: int): (r: Result<LegacyMatrix>)
    ensures r.Ok? <==> rowCount >= 1 && columnCount >= 1
    ensures r.Err? ==> r.error == DimensionTooSmall
    ensures r.Ok? ==> Valid(r.value) && N(r.value) == rowCount && M(r.value) == columnCount
    ensures r.Ok? ==> !r.value.operators
    ensures r.Ok? ==> forall i, j | InRange(r.value, i, j) :: Get(r.value, i, j) == Ok(0)
  {
    if rowCount < 1 || columnCount < 1 then Err(DimensionTooSmall)
    else Ok(LegacyMatrix(Zeros(rowCount, columnCount), false))
  }

  /** The counts constructor as the class evidently intends it: the same
      checks and zeros, with the delegates compiled as the array
      constructor compiles them. */
  function NewIntended(rowCount: int, columnCount: int): (r: Result<LegacyMatrix>)
    ensures r.Ok? <==> rowCount >= 1 && columnCount >= 1
    ensures r.Err? ==> r.error == DimensionTooSmall
    ensures r.Ok? ==> Valid(r.value) && N(r.value) == rowCount && M(r.value) == columnCount
    ensures r.Ok? ==> r.value.operators
    ensures r.Ok? ==> forall i, j | InRange(r.value, i, j) :: Get(r.value, i, j) == Ok(0)
  {
    if rowCount < 1 || columnCount < 1 then Err(DimensionTooSmall)
    else Ok(LegacyMatrix(Zeros(rowCount, columnCount), true))
  }

  /** `Matrix(T[,] array)`: a null array throws; otherwise the cells are
      copied, any shape (empty ones included) is accepted, and the
      delegates are compiled. */
  function FromArray(a: Option<Grid>): (r: Result<LegacyMatrix>)
    requires a.Some? ==> Rectangular(a.value)
    ensures r.Ok? <==> a.Some?
    ensures r.Err? ==> r.error == NullSource
    ensures r.Ok? ==> Valid(r.value) && r.value.grid == a.value && r.value.operators
  {
    match a
    case None => Err(NullSource)
    case Some(g) => Ok(LegacyMatrix(g, true))
  }

  /** Entry (i, j) of the product: the sum over k of a[i, k] * b[k, j]. */
  function Cell(a: LegacyMatrix, b: LegacyMatrix, i: nat, j: nat): int
    requires Valid(a) && Valid(b) && M(a) == N(b)
    requires i < N(a) && j < M(b)
  {
    Dot(a.grid.cells[i], Column(b.grid.cells, j), M(a))
  }

  /** `Multiply(IMatrix)` as written.  After the dimension check the result
      is allocated through the counts constructor (so an empty operand
      throws) with the left operand's shape `N x M`, and j runs over `M`
      rather than over the right operand's columns.  The delegates called
      are the left operand's: without them the first call throws, unless
      the read of `anotherMatrix[0, 0]` among its arguments throws first.
      With them, a right operand narrower than `M` throws in that read, and
      a wider one is cut down to its first `M` columns.  The result never
      has delegates of its own. */
  function Multiply(a: LegacyMatrix, b: LegacyMatrix): (r: Result<LegacyMatrix>)
    requires Valid(a) && Valid(b)
    ensures r.Ok? <==> M(a) == N(b) && N(a) >= 1 && M(a) >= 1 && a.operators && M(b) >= M(a)
    ensures M(a) != N(b) ==> r == Err(DimensionMismatch)
    ensures M(a) == N(b) && (N(a) < 1 || M(a) < 1) ==> r == Err(DimensionTooSmall)
    ensures M(a) == N(b) && N(a) >= 1 && M(a) >= 1 && !a.operators && M(b) >= 1 ==> r == Err(MissingOperator)
    ensures M(a) == N(b) && N(a) >= 1 && M(a) >= 1 && M(b) < M(a) && (a.operators || M(b) == 0)
      ==> r == Err(StorageIndexOutOfRange)
    ensures r.Ok? ==> Valid(r.value) && N(r.value) == N(a) && M(r.value) == M(a) && !r.value.operators
    ensures r.Ok? ==> forall i, j | InRange(r.value, i, j) :: Get(r.value, i, j) == Ok(Cell(a, b, i, j))
  {
    if M(a) != N(b) then
      Err(DimensionMismatch)
    else
      var result :- New(N(a), M(a));
      if !a.operators then
        if M(b) == 0 then Err(StorageIndexOutOfRange) else Err(MissingOperator)
      else if M(b) < M(a) then
        Err(StorageIndexOutOfRange)
      else
        Ok(result.(grid := result.grid.(cells := seq(N(a), i requires 0 <= i < N(a) =>
          seq(M(a), j requires 0 <= j < M(a) => Cell(a, b, i, j))))))
  }

  /** The product the dimension check evidently intends: an
      `N x anotherMatrix.M` result holding the product for every pair of
      compatible shapes, with delegates of its own. */
  function MultiplyIntended(a: LegacyMatrix, b: LegacyMatrix): (r: Result<LegacyMatrix>)
    requires Valid(a) && Valid(b)
    ensures r.Ok? <==> M(a) == N(b) && N(a) >= 1 && M(b) >= 1
    ensures M(a) != N(b) ==> r == Err(DimensionMismatch)
    ensures r.Err? && M(a) == N(b) ==> r.error == DimensionTooSmall
    ensures r.Ok? ==> Valid(r.value) && N(r.value) == N(a) && M(r.value) == M(b) && r.value.operators
    ensures r.Ok? ==> forall i, j | InRange(r.value, i, j) :: Get(r.value, i, j) == Ok(Cell(a, b, i, j))
  {
    if M(a) != N(b) then
      Err(DimensionMismatch)
    else
      var result :- NewIntended(N(a), M(b));
      Ok(result.(grid := result.grid.(cells := seq(N(a), i requires 0 <= i < N(a) =>
        seq(M(b), j requires 0 <= j < M(b) => Cell(a, b, i, j))))))
  }

  /** With delegates and a square right operand the code as written and the
      intended product hold the same cells; only the result's delegates
      differ. */
  lemma MultiplyAgreesOnSquareOperand(a: LegacyMatrix, b: LegacyMatrix)
    requires Valid(a) && Valid(b) && a.operators
    requires N(b) == M(b) == M(a)
    ensures Multiply(a, b).Ok? <==> MultiplyIntended(a, b).Ok?
    ensures Multiply(a, b).Ok? ==> Multiply(a, b).value.grid == MultiplyIntended(a, b).value.grid
  {
    if Multiply(a, b).Ok? {
      var x := Multiply(a, b).value;
      var y := MultiplyIntended(a, b).value;
      Extensionality(x, y.(operators := false));
    }
  }

  /** The innermost loop of `Multiply(IMatrix)`: k runs over `M`, each
      step evaluating `AdditionF(result[i, j], MultiplyF(matrix[i, k],
      anotherMatrix[k, j]))` left to right and storing it back.  The read of
      `anotherMatrix[k, j]` throws when j is past the right operand's
      columns; otherwise the invocation of a missing delegate throws.  On
      success cell (i, j) gains the dot product of row i of `a` with column j
      of `b`, and every other cell keeps its value. */
  method AccumulateCell(a: LegacyMatrix, b: LegacyMatrix, result: LegacyMatrix, i: nat, j: nat)
    returns (r: Result<LegacyMatrix>)
    requires Valid(a) && Valid(b) && M(a) == N(b)
    requires Valid(result) && N(result) == N(a) && M(result) == M(a)
    requires i < N(a) && j < M(a)
    ensures r.Ok? <==> j < M(b) && a.operators
    ensures r.Err? ==> r.error == (if j < M(b) then MissingOperator else StorageIndexOutOfRange)
    ensures r.Ok? ==>
      && Valid(r.value) && N(r.value) == N(a) && M(r.value) == M(a)
      && r.value.operators == result.operators
    ensures r.Ok? ==> forall p, q | InRange(result, p, q) ::
      r.value.grid.cells[p][q]
      == (if p == i && q == j then result.grid.cells[i][j] + Cell(a, b, i, j) else result.grid.cells[p][q])
  {
    var current := result;
    for k := 0 to M(a)
      invariant Valid(current) && N(current) == N(a) && M(current) == M(a)
      invariant current.operators == result.operators
      invariant k == 0 ==> current == result
      invariant 0 < k ==> j < M(b) && a.operators
      invariant 0 < k ==> forall p, q | InRange(result, p, q) ::
        current.grid.cells[p][q]
        == (if p == i && q == j then result.grid.cells[i][j] + Dot(a.grid.cells[i], Column(b.grid.cells, j), k)
            else result.grid.cells[p][q])
    {
      var sum := Get(current, i, j).value;
      var x := Get(a, i, k).value;
      var y :- Get(b, k, j);
      if !a.operators {
        return Err(MissingOperator);
      }
      var written := Set(current, i, j, sum + x * y).value;
      current := written.0;
    }
    return Ok(current);
  }

  /** The triple loop of `Multiply(IMatrix)` as written: i over `N`, j over
      `M`, the accumulation of cell (i, j) in between, into a result from the
      counts constructor.  It computes exactly `Multiply`, failures
      included. */
  method MultiplyByLoops(a: LegacyMatrix, b: LegacyMatrix) returns (r: Result<LegacyMatrix>)
    requires Valid(a) && Valid(b)
    ensures r == Multiply(a, b)
  {
    if M(a) != N(b) {
      return Err(DimensionMismatch);
    }
    var result :- New(N(a), M(a));
    for i := 0 to N(a)
      invariant Valid(result) && N(result) == N(a) && M(result) == M(a) && !result.operators
      invariant 0 < i ==> a.operators && M(a) <= M(b)
      invariant forall p, q | InRange(result, p, q) ::
        result.grid.cells[p][q] == (if p < i then Cell(a, b, p, q) else 0)
    {
      for j := 0 to M(a)
        invariant Valid(result) && N(result) == N(a) && M(result) == M(a) && !result.operators
        invariant 0 < i ==> a.operators && M(a) <= M(b)
        invariant 0 < j ==> a.operators && j <= M(b)
        invariant forall p, q | InRange(result, p, q) ::
          result.grid.cells[p][q] == (if p < i || (p == i && q < j) then Cell(a, b, p, q) else 0)
      {
        result :- AccumulateCell(a, b, result, i, j);
      }
    }
    Extensionality(result, Multiply(a, b).value);
    return Ok(result);
  }

  /** `Multiply(T value)`: copies the array through the array constructor
      (so the result has delegates), then multiplies every cell by the
      scalar with the receiver's multiply delegate, which throws when the
      receiver has none and there is a cell to visit. */
  function MultiplyByScalar(a: LegacyMatrix, value: int): (r: Result<LegacyMatrix>)
    requires Valid(a)
    ensures r.Ok? <==> a.operators || N(a) == 0 || M(a) == 0
    ensures r.Err? ==> r.error == MissingOperator
    ensures r.Ok? ==> Valid(r.value) && N(r.value) == N(a) && M(r.value) == M(a) && r.value.operators
    ensures r.Ok? ==> forall i, j | InRange(a, i, j) :: Get(r.value, i, j) == Ok(Get(a, i, j).value * value)
  {
    var result := FromArray(Some(a.grid)).value;
    if !a.operators && N(a) >= 1 && M(a) >= 1 then
      Err(MissingOperator)
    else
      Ok(result.(grid := result.grid.(cells := seq(N(a), i requires 0 <= i < N(a) =>
        seq(M(a), j requires 0 <= j < M(a) => a.grid.cells[i][j] * value)))))
  }

  /** Scaling by one gives back the receiver's array, now with delegates:
      the copy the array constructor would make of it. */
  lemma MultiplyByOneIsCopy(a: LegacyMatrix)
    requires Valid(a)
    ensures a.operators || N(a) == 0 || M(a) == 0 ==>
      MultiplyByScalar(a, 1) == FromArray(Some(a.grid)) == Ok(a.(operators := true))
  {
    if MultiplyByScalar(a, 1).Ok? {
      var x := MultiplyByScalar(a, 1).value;
      var y := a.(operators := true);
      forall i, j | InRange(x, i, j)
        ensures x.grid.cells[i][j] == y.grid.cells[i][j]
      {
        assert Get(x, i, j) == Ok(a.grid.cells[i][j] * 1);
      }
      Extensionality(x, y);
    }
  }

  /** `Difference(IMatrix)`: the shapes must agree; the result is a copy of
      the receiver with the other operand subtracted cell by cell through
      the receiver's subtract delegate. */
  function Difference(a: LegacyMatrix, b: LegacyMatrix): (r: Result<LegacyMatrix>)
    requires Valid(a) && Valid(b)
    ensures r.Ok? <==> N(a) == N(b) && M(a) == M(b) && (a.operators || N(a) == 0 || M(a) == 0)
    ensures N(a) != N(b) || M(a) != M(b) ==> r == Err(DimensionMismatch)
    ensures N(a) == N(b) && M(a) == M(b) && N(a) >= 1 && M(a) >= 1 && !a.operators ==> r == Err(MissingOperator)
    ensures r.Err? ==> r.error in {DimensionMismatch, MissingOperator}
    ensures r.Ok? ==> Valid(r.value) && N(r.value) == N(a) && M(r.value) == M(a) && r.value.operators
    ensures r.Ok? ==> forall i, j | InRange(a, i, j) ::
      Get(r.value, i, j) == Ok(Get(a, i, j).value - Get(b, i, j).value)
  {
    if N(a) != N(b) || M(a) != M(b) then
      Err(DimensionMismatch)
    else
      var result := FromArray(Some(a.grid)).value;
      if !a.operators && N(a) >= 1 && M(a) >= 1 then
        Err(MissingOperator)
      else
        Ok(result.(grid := result.grid.(cells := seq(N(a), i requires 0 <= i < N(a) =>
          seq(M(a), j requires 0 <= j < M(a) => a.grid.cells[i][j] - b.grid.cells[i][j])))))
  }

  /** `Difference(T value)`: the scalar subtracted from every cell of a copy
      of the receiver. */
  function DifferenceByScalar(a: LegacyMatrix, value: int): (r: Result<LegacyMatrix>)
    requires Valid(a)
    ensures r.Ok? <==> a.operators || N(a) == 0 || M(a) == 0
    ensures r.Err? ==> r.error == MissingOperator
    ensures r.Ok? ==> Valid(r.value) && N(r.value) == N(a) && M(r.value) == M(a) && r.value.operators
    ensures r.Ok? ==> forall i, j | InRange(a, i, j) :: Get(r.value, i, j) == Ok(Get(a, i, j).value - value)
  {
    var result := FromArray(Some(a.grid)).value;
    if !a.operators && N(a) >= 1 && M(a) >= 1 then
      Err(MissingOperator)
    else
      Ok(result.(grid := result.grid.(cells := seq(N(a), i requires 0 <= i < N(a) =>
        seq(M(a), j requires 0 <= j < M(a) => a.grid.cells[i][j] - value)))))
  }

  /** The array every cell of which is `value`, wrapped by the array
      constructor. */
  function Constant(rows: nat, cols: nat, value: int): (c: LegacyMatrix)
    ensures Valid(c) && N(c) == rows && M(c) == cols && c.operators
    ensures forall i, j | InRange(c, i, j) :: Get(c, i, j) == Ok(value)
  {
    FromArray(Some(Grid(rows, cols, seq(rows, _ => seq(cols, _ => value))))).value
  }

  /** Subtracting a scalar is subtracting the matrix that holds that scalar
      everywhere. */
  lemma DifferenceByScalarIsDifferenceWithConstant(a: LegacyMatrix, value: int)
    requires Valid(a)
    ensures DifferenceByScalar(a, value) == Difference(a, Constant(N(a), M(a), value))
  {
    var c := Constant(N(a), M(a), value);
    if DifferenceByScalar(a, value).Ok? {
      var x := DifferenceByScalar(a, value).value;
      var y := Difference(a, c).value;
      forall i, j | InRange(x, i, j)
        ensures x.grid.cells[i][j] == y.grid.cells[i][j]
      {
        assert Get(c, i, j) == Ok(value);
      }
      Extensionality(x, y);
    }
  }

  /** The foreach over the array: row-major order, cell (i, j) at position
      i * M + j. */
  function Enumerate(m: LegacyMatrix): (r: seq<int>)
    requires Valid(m)
    ensures |r| == N(m) * M(m)
    ensures forall i, j | InRange(m, i, j) :: i * M(m) + j < |r| && r[i * M(m) + j] == m.grid.cells[i][j]
  {
    RowMajorOrder(m);
    Flatten(m.grid.cells)
  }

  /** Flattening the rows of a rectangular array puts cell (i, j) at
      i * M, after the i full rows before it, plus j. */
  lemma RowMajorOrder(m: LegacyMatrix)
    requires Valid(m)
    ensures |Flatten(m.grid.cells)| == N(m) * M(m)
    ensures forall i, j | InRange(m, i, j) ::
      i * M(m) + j < |Flatten(m.grid.cells)| && Flatten(m.grid.cells)[i * M(m) + j] == m.grid.cells[i][j]
  {
    FlattenRectangleLength(m.grid.cells, M(m));
    forall i, j | InRange(m, i, j)
      ensures i * M(m) + j < |Flatten(m.grid.cells)| && Flatten(m.grid.cells)[i * M(m) + j] == m.grid.cells[i][j]
    {
      FlattenRectangleCell(m.grid.cells, M(m), i, j);
    }
  }

  /** A 1 x 1 matrix times a 1 x 2 matrix: the code as written returns the
      1 x 1 matrix [[6]], the intended product is [[6, 8]]. */
  lemma MultiplyDropsColumnsExample()
    ensures var a := FromArray(Some(Grid(1, 1, [[2]]))).value;
            var b := FromArray(Some(Grid(1, 2, [[3, 4]]))).value;
            && Multiply(a, b).Ok? && Multiply(a, b).value.grid.cells == [[6]]
            && MultiplyIntended(a, b).Ok? && MultiplyIntended(a, b).value.grid.cells == [[6, 8]]
  {
    var a := FromArray(Some(Grid(1, 1, [[2]]))).value;
    var b := FromArray(Some(Grid(1, 2, [[3, 4]]))).value;
    assert Column(b.grid.cells, 0) == [3];
    assert Column(b.grid.cells, 1) == [4];
    assert Cell(a, b, 0, 0) == 6 && Cell(a, b, 0, 1) == 8;
    var w := Multiply(a, b).value;
    assert Get(w, 0, 0) == Ok(6);
    assert w.grid.cells[0] == [6];
    var p := MultiplyIntended(a, b).value;
    assert Get(p, 0, 0) == Ok(6) && Get(p, 0, 1) == Ok(8);
    assert p.grid.cells[0] == [6, 8];
  }

  /** A 2 x 2 matrix times a 2 x 1 matrix: the code as written throws, the
      intended product is [[17], [39]]. */
  lemma MultiplyRejectsNarrowerOperandExample()
    ensures var a := FromArray(Some(Grid(2, 2, [[1, 2], [3, 4]]))).value;
            var b := FromArray(Some(Grid(2, 1, [[5], [6]]))).value;
            && Multiply(a, b) == Err(StorageIndexOutOfRange)
            && MultiplyIntended(a, b).Ok? && MultiplyIntended(a, b).value.grid.cells == [[17], [39]]
  {
    var a := FromArray(Some(Grid(2, 2, [[1, 2], [3, 4]]))).value;
    var b := FromArray(Some(Grid(2, 1, [[5], [6]]))).value;
    assert Column(b.grid.cells, 0) == [5, 6];
    assert Cell(a, b, 0, 0) == 17 && Cell(a, b, 1, 0) == 39;
    var p := MultiplyIntended(a, b).value;
    assert Get(p, 0, 0) == Ok(17) && Get(p, 1, 0) == Ok(39);
    assert p.grid.cells[0] == [17];
    assert p.grid.cells[1] == [39];
  }

  /** A matrix built from its counts cannot do arithmetic: scaling it, or
      subtracting anything from it, throws.  Built as intended it can. */
  lemma CountsConstructorLacksOperatorsExample()
    ensures var m := New(2, 2).value;
            && MultiplyByScalar(m, 3) == Err(MissingOperator)
            && DifferenceByScalar(m, 3) == Err(MissingOperator)
            && Difference(m, m) == Err(MissingOperator)
    ensures var m := NewIntended(2, 2).value;
            && MultiplyByScalar(m, 3).Ok? && DifferenceByScalar(m, 3).Ok? && Difference(m, m).Ok?
  {
  }

  /** The product of two matrices never has delegates, so it cannot itself
      be scaled or subtracted from. */
  lemma ProductLacksOperators(a: LegacyMatrix, b: LegacyMatrix, value: int)
    requires Valid(a) && Valid(b)
    requires Multiply(a, b).Ok?
    ensures MultiplyByScalar(Multiply(a, b).value, value) == Err(MissingOperator)
  {
  }

  /** Every matrix the intended constructors produce supports every
      arithmetic operation on operands of its own shape. */
  lemma IntendedConstructorSupportsArithmetic(rowCount: int, columnCount: int, b: LegacyMatrix, value: int)
    requires NewIntended(rowCount, columnCount).Ok?
    requires Valid(b) && N(b) == rowCount && M(b) == columnCount
    ensures var m := NewIntended(rowCount, columnCount).value;
            && MultiplyByScalar(m, value).Ok?
            && DifferenceByScalar(m, value).Ok?
            && Difference(m, b).Ok?
  {
  }
}
