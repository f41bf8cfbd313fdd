/** `DiagonalMatrix<T>`: an n x n matrix that stores only its diagonal, as
    one physical row of n cells.  Reads off the diagonal yield 0 and writes
    off the diagonal throw; both overrides live in `Matrices.GetValue` and
    `Matrices.Set`.  This module holds the constructor and the properties
    of the class. */
module DiagonalMatrices {
  import opened Results
  import opened Grids
  import opened ChangeEvents
  import opened Matrices

  /** `ConvertToMultiDimensionalArray`: the values laid out as a 1 x n array. */
  function ConvertToMultiDimensionalArray(values: seq<int>): (g: Grid)
    ensures Rectangular(g) && g.height == 1 && g.width == |values|
    ensures forall i | 0 <= i < |values| :: g.cells[0][i] == values[i]
  {
    Grid(1, |values|, [values])
  }

  /** `DiagonalMatrix(T[] array)`: a null array throws when the conversion
      reads its length, before the base constructor's null check; otherwise the base
      array constructor copies the 1 x n layout and `SetDimensions` makes
      the logical shape n x n.  An empty array gives a 0 x 0 matrix. */
  function New(values: Option<seq<int>>): (r: Result<Matrix>)
    ensures r.Ok? <==> values.Some?
    ensures r.Err? ==> r.error == NullDereference
    ensures r.Ok? ==>
      && Valid(r.value) && r.value.kind == Diagonal
      && r.value.rows == |values.value| && r.value.cols == |values.value|
    ensures r.Ok? ==> r.value.cells == [values.value]
    ensures r.Ok? ==> forall i, j | InRange(r.value, i, j) ::
      Get(r.value, i, j) == Ok(if i == j then values.value[i] else 0)
  {
    match values
    case None => Err(NullDereference)
    case Some(v) =>
      var base := Matrices.FromArray(Some(ConvertToMultiDimensionalArray(v))).value;
      Ok(SetDimensions(base.(kind := Diagonal), |v|, |v|))
  }

  /** Every diagonal matrix reads 0 off its diagonal. */
  lemma OffDiagonalReadsZero(m: Matrix, i: int, j: int)
    requires Valid(m) && m.kind == Diagonal
    requires InRange(m, i, j) && i != j
    ensures Get(m, i, j) == Ok(0)
  {
  }

  /** Reads are checked against the logical n x n shape, not against the
      1 x n storage. */
  lemma ReadsCheckLogicalShape(m: Matrix, i: int, j: int)
    requires Valid(m) && m.kind == Diagonal
    ensures Get(m, i, j).Ok? <==> 0 <= i < |m.cells[0]| && 0 <= j < |m.cells[0]|
  {
  }

  /** A write off the diagonal throws, whatever the indices. */
  lemma SetOffDiagonalFails(m: Matrix, i: int, j: int, v: int)
    requires Valid(m) && m.kind == Diagonal && i != j
    ensures Set(m, i, j, v) == Err(OffDiagonalWrite)
  {
  }

  /** A write at (i, i) reads back, leaves every other cell as it was, and
      raises one event that reports the physical position (0, i). */
  lemma SetDiagonalRoundTrip(m: Matrix, i: int, v: int)
    requires Valid(m) && m.kind == Diagonal && 0 <= i < m.rows
    ensures Set(m, i, i, v).Ok?
    ensures var m' := Set(m, i, i, v).value.0;
            && Valid(m') && m'.kind == Diagonal && m'.rows == m.rows
            && Get(m', i, i) == Ok(v)
            && forall p, q | InRange(m, p, q) && !(p == i && q == i) :: Get(m', p, q) == Get(m, p, q)
    ensures Set(m, i, i, v).value.1 == ChangeEvent(0, i, GetValue(m, i, i), v)
  {
  }

  /** However many writes succeed, the cells off the diagonal still read 0. */
  lemma OffDiagonalZeroAfterWrites(m: Matrix, writes: seq<Write>)
    requires Valid(m) && m.kind == Diagonal
    requires Replay(m, writes).Ok?
    ensures forall i, j | InRange(m, i, j) && i != j :: Get(Replay(m, writes).value.0, i, j) == Ok(0)
  {
  }

  /** Enumerating a diagonal matrix yields its n diagonal values, not n * n. */
  lemma EnumerateYieldsDiagonal(values: seq<int>)
    ensures New(Some(values)).Ok?
    ensures Enumerate(New(Some(values)).value) == values
  {
    var m := New(Some(values)).value;
    assert forall i | 0 <= i < |values| :: GetValue(m, i, i) == values[i];
  }

  /** The values [5, 7, 9] give a 3 x 3 matrix with 5, 7, 9 on the diagonal
      and 0 elsewhere, which refuses a write at (0, 1). */
  lemma NewExample()
    ensures var r := New(Some([5, 7, 9]));
            && r.Ok? && r.value.rows == 3 && r.value.cols == 3
            && Get(r.value, 0, 0) == Ok(5) && Get(r.value, 1, 1) == Ok(7)
            && Get(r.value, 2, 2) == Ok(9) && Get(r.value, 0, 1) == Ok(0)
            && Set(r.value, 0, 1, 3) == Err(OffDiagonalWrite)
  {
  }
}
