/** `SquareMatrix<T>` of the `Matricies` namespace: validation only; once
    built it is an ordinary dense matrix. */
module SquareMatrices {
  import opened Results
  import opened Grids
  import opened Matrices

  /** `SquareMatrix(int dimension)`: passes `new T[d, d]` to the array
      constructor, so a negative dimension fails in the allocation and a
      dimension of 0 gives a 0 x 0 matrix (the array constructor has no
      lower bound). */
  function New(dimension: int): (r: Result<Matrix>)
    ensures r.Ok? <==> dimension >= 0
    ensures r.Err? ==> r.error == NegativeSize
    ensures r.Ok? ==>
      && Valid(r.value) && r.value.kind == Dense
      && r.value.rows == dimension && r.value.cols == dimension
    ensures r.Ok? ==> forall i, j | InRange(r.value, i, j) :: Get(r.value, i, j) == Ok(0)
  {
    if dimension < 0 then Err(NegativeSize)
    else Matrices.FromArray(Some(Zeros(dimension, dimension)))
  }

  /** `SquareMatrix(T[,] array)`: the base constructor runs first (a null
      array throws there), then a non-square array throws. */
  function FromArray(a: Option<Grid>): (r: Result<Matrix>)
    requires a.Some? ==> Rectangular(a.value)
    ensures r.Ok? <==> a.Some? && IsSquare(a.value)
    ensures a.None? ==> r == Err(NullSource)
    ensures a.Some? && !IsSquare(a.value) ==> r == Err(NotSquare)
    ensures r.Ok? ==>
      && Valid(r.value) && r.value.kind == Dense
      && r.value.rows == a.value.height && r.value.cols == a.value.height
    ensures r.Ok? ==> forall i, j | InRange(r.value, i, j) :: Get(r.value, i, j) == Ok(a.value.cells[i][j])
  {
    var base :- Matrices.FromArray(a);
    if a.value.height != a.value.width then Err(NotSquare) else Ok(base)
  }
}
