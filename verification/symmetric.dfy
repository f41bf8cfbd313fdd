/** `SymmetricMatrix<T>`: an n x n matrix built from a symmetric array and
    stored as its lower triangle, row i holding i + 1 cells.  A read or
    write at (i, j) with j > i goes to the stored cell (j, i); both
    overrides live in `Matrices.GetValue` and `Matrices.Set`.  This module
    holds the validation, the constructor and the properties of the class. */
module SymmetricMatrices {
  import opened Results
  import opened Grids
  import opened ChangeEvents
  import opened Matrices

  /** The validation loop's condition: every cell on or below the diagonal
      equals its mirror image. */
  predicate MirroredBelowDiagonal(a: Grid)
    requires Rectangular(a) && IsSquare(a)
  {
    forall i, j | 0 <= j <= i < a.height :: a.cells[i][j] == a.cells[j][i]
  }

  /** Symmetry in the usual sense: a square array equal to its transpose. */
  predicate IsSymmetricArray(a: Grid)
    requires Rectangular(a)
  {
    && IsSquare(a)
    && forall i, j | 0 <= i < a.height && 0 <= j < a.height :: a.cells[i][j] == a.cells[j][i]
  }

  /** Row i of the result is the first i + 1 cells of the array's row i. */
  function LowerTriangle(a: Grid): (t: seq<seq<int>>)
    requires Rectangular(a) && IsSquare(a)
    ensures |t| == a.height
    ensures forall i | 0 <= i < a.height :: |t[i]| == i + 1
  {
    seq(a.height, i requires 0 <= i < a.height => a.cells[i][..i + 1])
  }

  /** `CheckMatrixForSymmetric`: a non-square array throws, an array that
      differs from its transpose throws, otherwise the result is the lower
      triangle, row i holding `array[i, 0..i]`. */
  function CheckMatrixForSymmetric(a: Grid): (r: Result<seq<seq<int>>>)
    requires Rectangular(a)
    ensures r.Ok? <==> IsSymmetricArray(a)
    ensures !IsSquare(a) ==> r == Err(NotSquare)
    ensures IsSquare(a) && !IsSymmetricArray(a) ==> r == Err(NotSymmetric)
    ensures r.Ok? ==> |r.value| == a.height
    ensures r.Ok? ==> forall i | 0 <= i < a.height ::
      && |r.value[i]| == i + 1
      && forall j | 0 <= j <= i :: r.value[i][j] == a.cells[i][j]
  {
    if a.height != a.width then Err(NotSquare)
    else if !MirroredBelowDiagonal(a) then Err(NotSymmetric)
    else Ok(LowerTriangle(a))
  }

  /** The two loops of `CheckMatrixForSymmetric` as written: compare
      `array[i, j]` with `array[j, i]` for j <= i and throw at the first
      difference, then copy `array[i, 0..i]` into row i of a jagged array
      cell by cell.  They compute exactly `CheckMatrixForSymmetric`. */
  method CheckByLoops(a: Grid) returns (r: Result<seq<seq<int>>>)
    requires Rectangular(a)
    ensures r == CheckMatrixForSymmetric(a)
  {
    if a.height != a.width {
      return Err(NotSquare);
    }
    var n := a.height;
    for i := 0 to n
      invariant forall p, q | 0 <= q <= p < i :: a.cells[p][q] == a.cells[q][p]
    {
      for j := 0 to i + 1
        invariant forall q | 0 <= q < j :: a.cells[i][q] == a.cells[q][i]
      {
        if a.cells[i][j] != a.cells[j][i] {
          return Err(NotSymmetric);
        }
      }
    }
    var result: seq<seq<int>> := [];
    for i := 0 to n
      invariant |result| == i
      invariant forall p | 0 <= p < i :: result[p] == a.cells[p][..p + 1]
    {
      var row: seq<int> := [];
      for j := 0 to i + 1
        invariant row == a.cells[i][..j]
      {
        row := row + [a.cells[i][j]];
      }
      result := result + [row];
    }
    assert result == LowerTriangle(a);
    return Ok(result);
  }

  /** `SymmetricMatrix(T[,] array)`: a null array throws when the
      validation reads its length, before any null check; the validation
      may throw, and the protected jagged-array constructor then reads
      `array[0]`, so a 0 x 0 array throws as well.  Otherwise the storage is
      the lower triangle, the logical shape is n x n, and every cell reads
      as in the source array. */
  function New(a: Option<Grid>): (r: Result<Matrix>)
    requires a.Some? ==> Rectangular(a.value)
    ensures r.Ok? <==> a.Some? && IsSymmetricArray(a.value) && a.value.height >= 1
    ensures a.None? ==> r == Err(NullDereference)
    ensures a.Some? && !IsSquare(a.value) ==> r == Err(NotSquare)
    ensures a.Some? && IsSquare(a.value) && !IsSymmetricArray(a.value) ==> r == Err(NotSymmetric)
    ensures a.Some? && IsSymmetricArray(a.value) && a.value.height == 0 ==> r == Err(StorageIndexOutOfRange)
    ensures r.Ok? ==>
      && Valid(r.value) && r.value.kind == Symmetric
      && r.value.rows == a.value.height && r.value.cols == a.value.height
    ensures r.Ok? ==> forall i | 0 <= i < a.value.height :: r.value.cells[i] == a.value.cells[i][..i + 1]
    ensures r.Ok? ==> forall i, j | InRange(r.value, i, j) :: Get(r.value, i, j) == Ok(a.value.cells[i][j])
  {
    match a
    case None => Err(NullDereference)
    case Some(g) =>
      var triangle :- CheckMatrixForSymmetric(g);
      var base :- FromJagged(Some(triangle));
      Ok(SetDimensions(base.(kind := Symmetric), g.height, g.height))
  }

  /** Every symmetric matrix reads the same at (i, j) and (j, i). */
  lemma ReadsAreSymmetric(m: Matrix, i: int, j: int)
    requires Valid(m) && m.kind == Symmetric
    ensures Get(m, i, j) == Get(m, j, i)
  {
  }

  /** A write at (i, j) with both indices in range succeeds, is visible at
      both (i, j) and (j, i), and raises one event reporting the stored
      position (max, min). */
  lemma SetKeepsSymmetry(m: Matrix, i: int, j: int, v: int)
    requires Valid(m) && m.kind == Symmetric && InRange(m, i, j)
    ensures Set(m, i, j, v).Ok?
    ensures var m' := Set(m, i, j, v).value.0;
            && Valid(m') && m'.kind == Symmetric && m'.rows == m.rows
            && Get(m', i, j) == Ok(v) && Get(m', j, i) == Ok(v)
    ensures Set(m, i, j, v).value.1 == ChangeEvent(Max(i, j), Min(i, j), GetValue(m, i, j), v)
  {
  }

  /** A write at (i, j) leaves every cell other than (i, j) and (j, i) as
      it was. */
  lemma SetChangesOnlyMirrorPair(m: Matrix, i: int, j: int, v: int, p: int, q: int)
    requires Valid(m) && m.kind == Symmetric && InRange(m, i, j) && InRange(m, p, q)
    requires !(p == i && q == j) && !(p == j && q == i)
    ensures Get(Set(m, i, j, v).value.0, p, q) == Get(m, p, q)
  {
  }

  /** The storage cell a write lands in is (max(i, j), min(i, j)), which is
      inside the triangle. */
  lemma SetWritesLowerTriangle(m: Matrix, i: int, j: int, v: int)
    requires Valid(m) && m.kind == Symmetric && InRange(m, i, j)
    ensures var m' := Set(m, i, j, v).value.0;
            && Min(i, j) < |m.cells[Max(i, j)]|
            && m'.cells[Max(i, j)][Min(i, j)] == v
  {
  }

  /** [[1, 2], [2, 1]] is accepted and stored as [[1], [2, 1]]. */
  lemma AcceptsSymmetricExample()
    ensures var r := New(Some(Grid(2, 2, [[1, 2], [2, 1]])));
            && r.Ok? && r.value.cells == [[1], [2, 1]]
  {
    var g := Grid(2, 2, [[1, 2], [2, 1]]);
    assert IsSymmetricArray(g);
    assert g.cells[0][..1] == [1];
    assert g.cells[1][..2] == [2, 1];
  }

  /** [[1, 2], [3, 1]] is refused as not symmetric. */
  lemma RejectsAsymmetricExample()
    ensures New(Some(Grid(2, 2, [[1, 2], [3, 1]]))) == Err(NotSymmetric)
  {
    var g := Grid(2, 2, [[1, 2], [3, 1]]);
    assert g.cells[1][0] != g.cells[0][1];
  }

  /** A 0 x 0 array is symmetric, yet construction throws. */
  lemma RejectsEmptyArray()
    ensures New(Some(Grid(0, 0, []))) == Err(StorageIndexOutOfRange)
  {
  }
}
