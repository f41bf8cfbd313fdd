/** `AdditionVisitor<T>.VisitMatrix`, reached through the `Addition`
    extension method: cell-wise sum of two matrices of one shape.  The
    visitor's double dispatch is left out; `Add(a, b)` is
    `a.Addition(b)`, with `a` the visited matrix and `b` the matrix to add. */
module Addition {
  import opened Results
  import opened Grids
  import opened Matrices

  /** Both dimensions must match; the result is allocated with
      `Matrix(N, M)`, so an empty shape throws; every cell is the sum of the
      operands' cells read through their indexers. */
  function Add(a: Matrix, b: Matrix): (r: Result<Matrix>)
    requires Valid(a) && Valid(b)
    ensures r.Ok? <==> a.rows == b.rows && a.cols == b.cols && a.rows >= 1 && a.cols >= 1
    ensures (a.rows != b.rows || a.cols != b.cols) ==> r == Err(DimensionMismatch)
    ensures a.rows == b.rows && a.cols == b.cols && (a.rows < 1 || a.cols < 1) ==> r == Err(DimensionTooSmall)
    ensures r.Err? ==> r.error in {DimensionMismatch, DimensionTooSmall}
    ensures r.Ok? ==>
      && Valid(r.value) && r.value.kind == Dense
      && r.value.rows == a.rows && r.value.cols == a.cols
    ensures r.Ok? ==> forall i, j | InRange(a, i, j) ::
      Get(r.value, i, j) == Ok(Get(a, i, j).value + Get(b, i, j).value)
  {
    if a.rows != b.rows || a.cols != b.cols then
      Err(DimensionMismatch)
    else
      var result :- New(a.rows, a.cols);
      Ok(result.(cells := seq(a.rows, i requires 0 <= i < a.rows =>
        seq(a.cols, j requires 0 <= j < a.cols => GetValue(a, i, j) + GetValue(b, i, j)))))
  }
}
