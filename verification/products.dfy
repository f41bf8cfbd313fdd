/** The two `Multiply` overloads of the `Matricies` matrix: matrix by
    matrix and matrix by scalar.  Both read their operands through the
    logical indexer, so they work the same for every matrix class, and both
    return a fresh dense matrix. */
module Products {
  import opened Results
  import opened Grids
  import opened Matrices

  /** Entry (i, j) of the mathematical product: the sum over k of
      a[i, k] * b[k, j], with both operands read through the indexer. */
  function Cell(a: Matrix, b: Matrix, i: nat, j: nat): int
    requires Valid(a) && Valid(b) && a.cols == b.rows
    requires i < a.rows && j < b.cols
  {
    Dot(Logical(a)[i], Column(Logical(b), j), a.cols)
  }

  /** `Multiply(IMatrix)` as written: after the dimension check it
      allocates the result as `N x M` (the left operand's shape) and loops
      j over the right operand's columns, so a right operand wider than the
      left one runs the result's read indexer out of range, and a narrower
      one leaves the result's last columns at 0.  When the right operand is
      square both effects vanish and the result is the product. */
  function Multiply(a: Matrix, b: Matrix): (r: Result<Matrix>)
    requires Valid(a) && Valid(b)
    ensures r.Ok? <==> a.cols == b.rows && a.rows >= 1 && a.cols >= 1 && b.cols <= a.cols
    ensures a.cols != b.rows ==> r == Err(DimensionMismatch)
    ensures a.cols == b.rows && (a.rows < 1 || a.cols < 1) ==> r == Err(DimensionTooSmall)
    ensures a.cols == b.rows && a.rows >= 1 && a.cols >= 1 && b.cols > a.cols ==> r == Err(IndexOutOfRange)
    ensures r.Ok? ==>
      && Valid(r.value) && r.value.kind == Dense
      && r.value.rows == a.rows && r.value.cols == a.cols
    ensures r.Ok? ==> forall i, j | 0 <= i < a.rows && 0 <= j < b.cols ::
      Get(r.value, i, j) == Ok(Cell(a, b, i, j))
    ensures r.Ok? ==> forall i, j | 0 <= i < a.rows && b.cols <= j < a.cols ::
      Get(r.value, i, j) == Ok(0)
  {
    if a.cols != b.rows then
      Err(DimensionMismatch)
    else
      var result :- New(a.rows, a.cols);
      if b.cols > a.cols then
        Err(IndexOutOfRange)
      else
        Ok(result.(cells := seq(a.rows, i requires 0 <= i < a.rows =>
          seq(a.cols, j requires 0 <= j < a.cols => if j < b.cols then Cell(a, b, i, j) else 0))))
  }

  /** The innermost loop of `Multiply(IMatrix)`: k runs over the right
      operand's rows, each step reading the accumulator at (i, j) through
      the result's read indexer and writing it back through the write
      indexer.  The read throws when j is outside the result; otherwise
      cell (i, j) gains the dot product of row i of `a` with column j of
      `b`, and every other cell keeps its value. */
  method AccumulateCell(a: Matrix, b: Matrix, result: Matrix, i: nat, j: nat) returns (r: Result<Matrix>)
    requires Valid(a) && Valid(b) && a.cols == b.rows && b.rows >= 1
    requires Valid(result) && result.kind == Dense && result.rows == a.rows && result.cols == a.cols
    requires i < a.rows && j < b.cols
    ensures r.Ok? <==> j < a.cols
    ensures r.Err? ==> r.error == IndexOutOfRange
    ensures r.Ok? ==>
      && Valid(r.value) && r.value.kind == Dense
      && r.value.rows == a.rows && r.value.cols == a.cols
    ensures r.Ok? ==> forall p, q | InRange(result, p, q) ::
      GetValue(r.value, p, q)
      == (if p == i && q == j then GetValue(result, i, j) + Cell(a, b, i, j) else GetValue(result, p, q))
  {
    var current := result;
    for k := 0 to b.rows
      invariant Valid(current) && current.kind == Dense
      invariant current.rows == a.rows && current.cols == a.cols
      invariant 0 < k ==> j < a.cols
      invariant forall p, q | InRange(result, p, q) ::
        GetValue(current, p, q)
        == (if p == i && q == j then GetValue(result, i, j) + Dot(Logical(a)[i], Column(Logical(b), j), k)
            else GetValue(result, p, q))
    {
      var sum :- Get(current, i, j);
      var term := Get(a, i, k).value * Get(b, k, j).value;
      var written := Set(current, i, j, sum + term).value;
      current := written.0;
    }
    return Ok(current);
  }

  /** The triple loop of `Multiply(IMatrix)`: i over the left operand's
      rows, j over the right operand's columns, the accumulation of cell
      (i, j) in between.  It computes exactly `Multiply`, failures
      included. */
  method MultiplyByLoops(a: Matrix, b: Matrix) returns (r: Result<Matrix>)
    requires Valid(a) && Valid(b)
    ensures r == Multiply(a, b)
  {
    if a.cols != b.rows {
      return Err(DimensionMismatch);
    }
    var result :- New(a.rows, a.cols);
    for i := 0 to a.rows
      invariant Valid(result) && result.kind == Dense
      invariant result.rows == a.rows && result.cols == a.cols
      invariant 0 < i ==> b.cols <= a.cols
      invariant forall p, q | InRange(result, p, q) ::
        GetValue(result, p, q) == (if p < i && q < b.cols then Cell(a, b, p, q) else 0)
    {
      for j := 0 to b.cols
        invariant Valid(result) && result.kind == Dense
        invariant result.rows == a.rows && result.cols == a.cols
        invariant j <= a.cols
        invariant forall p, q | InRange(result, p, q) ::
          GetValue(result, p, q)
          == (if (p < i && q < b.cols) || (p == i && q < j) then Cell(a, b, p, q) else 0)
      {
        result :- AccumulateCell(a, b, result, i, j);
      }
    }
    DenseExtensionality(result, Multiply(a, b).value);
    return Ok(result);
  }

  /** The product the dimension check evidently intends: an
      `N x anotherMatrix.M` result holding the product for every pair of
      compatible shapes. */
  function MultiplyIntended(a: Matrix, b: Matrix): (r: Result<Matrix>)
    requires Valid(a) && Valid(b)
    ensures r.Ok? <==> a.cols == b.rows && a.rows >= 1 && b.cols >= 1
    ensures a.cols != b.rows ==> r == Err(DimensionMismatch)
    ensures r.Err? && a.cols == b.rows ==> r.error == DimensionTooSmall
    ensures r.Ok? ==>
      && Valid(r.value) && r.value.kind == Dense
      && r.value.rows == a.rows && r.value.cols == b.cols
    ensures r.Ok? ==> forall i, j | 0 <= i < a.rows && 0 <= j < b.cols ::
      Get(r.value, i, j) == Ok(Cell(a, b, i, j))
  {
    if a.cols != b.rows then
      Err(DimensionMismatch)
    else
      var result :- New(a.rows, b.cols);
      Ok(result.(cells := seq(a.rows, i requires 0 <= i < a.rows =>
        seq(b.cols, j requires 0 <= j < b.cols => Cell(a, b, i, j)))))
  }

  /** With a square right operand the code as written and the intended
      product coincide, failures included. */
  lemma MultiplyAgreesOnSquareOperand(a: Matrix, b: Matrix)
    requires Valid(a) && Valid(b)
    requires b.rows == b.cols == a.cols
    ensures Multiply(a, b) == MultiplyIntended(a, b)
  {
    if a.rows >= 1 && a.cols >= 1 {
      DenseExtensionality(Multiply(a, b).value, MultiplyIntended(a, b).value);
    }
  }

  /** A 1 x 1 matrix times a 1 x 2 matrix: the code as written throws, the
      intended product is [[6, 8]]. */
  lemma MultiplyRejectsWiderOperand()
    ensures var a := Matrix(Dense, 1, 1, [[2]]);
            var b := Matrix(Dense, 1, 2, [[3, 4]]);
            && Multiply(a, b) == Err(IndexOutOfRange)
            && MultiplyIntended(a, b).Ok?
            && Logical(MultiplyIntended(a, b).value) == [[6, 8]]
  {
    var a := Matrix(Dense, 1, 1, [[2]]);
    var b := Matrix(Dense, 1, 2, [[3, 4]]);
    var p := MultiplyIntended(a, b).value;
    assert Logical(a)[0] == [2];
    assert Column(Logical(b), 0) == [3];
    assert Column(Logical(b), 1) == [4];
    assert Cell(a, b, 0, 0) == 6 && Cell(a, b, 0, 1) == 8;
    assert Get(p, 0, 0) == Ok(6) && Get(p, 0, 1) == Ok(8);
    assert Logical(p)[0] == [6, 8];
  }

  /** A 2 x 2 matrix times a 2 x 1 matrix: the code as written returns a
      2 x 2 matrix whose second column is all 0, the intended product is
      the 2 x 1 column [[17], [39]]. */
  lemma MultiplyPadsNarrowerOperand()
    ensures var a := Matrix(Dense, 2, 2, [[1, 2], [3, 4]]);
            var b := Matrix(Dense, 2, 1, [[5], [6]]);
            && Multiply(a, b).Ok?
            && Logical(Multiply(a, b).value) == [[17, 0], [39, 0]]
            && MultiplyIntended(a, b).Ok?
            && Logical(MultiplyIntended(a, b).value) == [[17], [39]]
  {
    var a := Matrix(Dense, 2, 2, [[1, 2], [3, 4]]);
    var b := Matrix(Dense, 2, 1, [[5], [6]]);
    assert Column(Logical(b), 0) == [5, 6];
    assert Logical(a)[0] == [1, 2];
    assert Logical(a)[1] == [3, 4];
    assert Cell(a, b, 0, 0) == 17;
    assert Cell(a, b, 1, 0) == 39;
    var w := Multiply(a, b).value;
    assert Get(w, 0, 0) == Ok(17) && Get(w, 1, 0) == Ok(39);
    assert Get(w, 0, 1) == Ok(0) && Get(w, 1, 1) == Ok(0);
    assert Logical(w)[0] == [17, 0];
    assert Logical(w)[1] == [39, 0];
    var p := MultiplyIntended(a, b).value;
    assert Get(p, 0, 0) == Ok(17) && Get(p, 1, 0) == Ok(39);
    assert Logical(p)[0] == [17];
    assert Logical(p)[1] == [39];
  }

  /** [[1, 2], [3, 4]] times [[5, 6], [7, 8]] is [[19, 22], [43, 50]]. */
  lemma MultiplyExample()
    ensures var a := Matrix(Dense, 2, 2, [[1, 2], [3, 4]]);
            var b := Matrix(Dense, 2, 2, [[5, 6], [7, 8]]);
            && Multiply(a, b).Ok?
            && Logical(Multiply(a, b).value) == [[19, 22], [43, 50]]
  {
    var a := Matrix(Dense, 2, 2, [[1, 2], [3, 4]]);
    var b := Matrix(Dense, 2, 2, [[5, 6], [7, 8]]);
    assert Logical(a)[0] == [1, 2];
    assert Logical(a)[1] == [3, 4];
    assert Column(Logical(b), 0) == [5, 7];
    assert Column(Logical(b), 1) == [6, 8];
    var p := Multiply(a, b).value;
    assert Get(p, 0, 0) == Ok(19) && Get(p, 0, 1) == Ok(22);
    assert Get(p, 1, 0) == Ok(43) && Get(p, 1, 1) == Ok(50);
    assert Logical(p)[0] == [19, 22];
    assert Logical(p)[1] == [43, 50];
  }

  /** `Multiply(T value)`: `MatrixConvert` copies the receiver into a fresh
      dense matrix (so an empty shape throws), then every cell is multiplied
      by the scalar in place.  The receiver is a value and stays as it was. */
  function MultiplyByScalar(a: Matrix, value: int): (r: Result<Matrix>)
    requires Valid(a)
    ensures r.Ok? <==> a.rows >= 1 && a.cols >= 1
    ensures r.Err? ==> r.error == DimensionTooSmall
    ensures r.Ok? ==>
      && Valid(r.value) && r.value.kind == Dense
      && r.value.rows == a.rows && r.value.cols == a.cols
    ensures r.Ok? ==> forall i, j | InRange(a, i, j) :: Get(r.value, i, j) == Ok(GetValue(a, i, j) * value)
  {
    var result :- MatrixConvert(a);
    Ok(result.(cells := seq(a.rows, i requires 0 <= i < a.rows =>
      seq(a.cols, j requires 0 <= j < a.cols => result.cells[i][j] * value))))
  }

  /** Scaling by 1 is the conversion to a dense copy. */
  lemma MultiplyByOneIsConvert(a: Matrix)
    requires Valid(a)
    ensures MultiplyByScalar(a, 1) == MatrixConvert(a)
  {
    if a.rows >= 1 && a.cols >= 1 {
      DenseExtensionality(MultiplyByScalar(a, 1).value, MatrixConvert(a).value);
    }
  }
}
