/** `MathematicalEntities.SquareMatrix<T>`: the older matrix class
    restricted to square arrays.  Both constructors go through the array
    constructor, so every square matrix has its arithmetic delegates. */
module LegacySquareMatrices {
  import opened Results
  import opened Grids
  import opened LegacyMatrices

  /** `SquareMatrix(int dimension)`: passes `new T[d, d]` to the array
      constructor, so a negative dimension fails in the allocation, a
      dimension of 0 gives a 0 x 0 matrix, and the result can do arithmetic
      (unlike one from the counts constructor). */
  function New(dimension: int): (r: Result<LegacyMatrix>)
    ensures r.Ok? <==> dimension >= 0
    ensures r.Err? ==> r.error == NegativeSize
    ensures r.Ok? ==>
      && Valid(r.value) && N(r.value) == dimension && M(r.value) == dimension
      && r.value.operators
    ensures r.Ok? ==> forall i, j | InRange(r.value, i, j) :: Get(r.value, i, j) == Ok(0)
  {
    if dimension < 0 then Err(NegativeSize)
    else LegacyMatrices.FromArray(Some(Zeros(dimension, dimension)))
  }

  /** `SquareMatrix(T[,] array)`: the base constructor runs first (a null
      array throws there), then a non-square array throws. */
  function FromArray(a: Option<Grid>): (r: Result<LegacyMatrix>)
    requires a.Some? ==> Rectangular(a.value)
    ensures r.Ok? <==> a.Some? && IsSquare(a.value)
    ensures a.None? ==> r == Err(NullSource)
    ensures a.Some? && !IsSquare(a.value) ==> r == Err(NotSquare)
    ensures r.Ok? ==> Valid(r.value) && N(r.value) == M(r.value) && r.value.grid == a.value
    ensures r.Ok? ==> r.value.operators
  {
    var base :- LegacyMatrices.FromArray(a);
    if a.value.height != a.value.width then Err(NotSquare) else Ok(base)
  }

  /** A square matrix of any dimension can be scaled, where the counts
      constructor's matrix of the same shape cannot. */
  lemma SquareMatrixSupportsScaling(dimension: int, value: int)
    requires dimension >= 1
    ensures LegacyMatrices.MultiplyByScalar(New(dimension).value, value).Ok?
    ensures LegacyMatrices.MultiplyByScalar(LegacyMatrices.New(dimension, dimension).value, value)
      == Err(MissingOperator)
  {
  }
}
