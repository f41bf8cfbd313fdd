/** Properties that tie the classes together: operations of one class
    checked against operations of another that should compute the same
    thing. */
module MatrixLaws {
  import opened Results
  import opened Grids
  import opened Matrices
  import Products
  import Addition
  import DiagonalMatrices
  import LegacyMatrices

  /** The diagonal matrix with `value` in each of its n diagonal cells. */
  function ScalarDiagonal(n: nat, value: int): (d: Matrix)
    ensures Valid(d) && d.kind == Diagonal && d.rows == n && d.cols == n
    ensures forall i, j | InRange(d, i, j) :: GetValue(d, i, j) == (if i == j then value else 0)
  {
    DiagonalMatrices.New(Some(seq(n, _ => value))).value
  }

  /** Multiplying by the scalar `value` is multiplying on the right by the
      diagonal matrix holding `value` on its diagonal: both fail on an empty
      shape and otherwise give the same dense matrix.  The right operand is
      square, so this holds of the product as written and as intended. */
  lemma ScalingIsProductWithScalarDiagonal(a: Matrix, value: int)
    requires Valid(a)
    ensures Products.Multiply(a, ScalarDiagonal(a.cols, value)) == Products.MultiplyByScalar(a, value)
    ensures Products.MultiplyIntended(a, ScalarDiagonal(a.cols, value)) == Products.MultiplyByScalar(a, value)
  {
    var d := ScalarDiagonal(a.cols, value);
    Products.MultiplyAgreesOnSquareOperand(a, d);
    if a.rows >= 1 && a.cols >= 1 {
      var x := Products.Multiply(a, d).value;
      var y := Products.MultiplyByScalar(a, value).value;
      forall i, j | InRange(x, i, j)
        ensures GetValue(x, i, j) == GetValue(y, i, j)
      {
        var column := Column(Logical(d), j);
        assert forall t | 0 <= t < a.cols :: column[t] == (if t == j then value else 0);
        DotWithScaledUnit(Logical(a)[i], column, a.cols, j, value);
        assert Get(x, i, j) == Ok(Products.Cell(a, d, i, j));
        assert Get(y, i, j) == Ok(GetValue(a, i, j) * value);
      }
      DenseExtensionality(x, y);
    }
  }

  /** In particular the diagonal matrix of ones is a right identity, up to
      the conversion to a dense copy. */
  lemma IdentityProductIsConvert(a: Matrix)
    requires Valid(a)
    ensures Products.Multiply(a, ScalarDiagonal(a.cols, 1)) == MatrixConvert(a)
  {
    ScalingIsProductWithScalarDiagonal(a, 1);
    Products.MultiplyByOneIsConvert(a);
  }

  /** The visitor reads both operands through their indexers, so a diagonal
      operand contributes its diagonal values on the diagonal and nothing
      anywhere else. */
  lemma AddingDiagonalChangesOnlyDiagonal(d: Matrix, b: Matrix)
    requires Valid(d) && d.kind == Diagonal && Valid(b)
    requires Addition.Add(d, b).Ok?
    ensures forall i, j | InRange(b, i, j) && i != j ::
      Get(Addition.Add(d, b).value, i, j) == Get(b, i, j)
    ensures forall i | 0 <= i < b.rows ::
      Get(Addition.Add(d, b).value, i, i) == Ok(d.cells[0][i] + GetValue(b, i, i))
  {
  }

  /** The legacy matrix built from the array a matrix's indexer reads. */
  function LegacyCopy(m: Matrix): (l: LegacyMatrices.LegacyMatrix)
    requires Valid(m)
    ensures LegacyMatrices.Valid(l) && l.operators
    ensures LegacyMatrices.N(l) == m.rows && LegacyMatrices.M(l) == m.cols
    ensures forall i, j | InRange(m, i, j) :: LegacyMatrices.Get(l, i, j) == Ok(GetValue(m, i, j))
  {
    LegacyMatrices.FromArray(Some(Grid(m.rows, m.cols, Logical(m)))).value
  }

  /** Adding B and then subtracting B with the legacy `Difference` gives
      back A's cells, whatever the classes of A and B. */
  lemma DifferenceUndoesAddition(a: Matrix, b: Matrix)
    requires Valid(a) && Valid(b)
    requires Addition.Add(a, b).Ok?
    ensures LegacyMatrices.Difference(LegacyCopy(Addition.Add(a, b).value), LegacyCopy(b)) == Ok(LegacyCopy(a))
  {
    var s := Addition.Add(a, b).value;
    var x := LegacyMatrices.Difference(LegacyCopy(s), LegacyCopy(b)).value;
    var y := LegacyCopy(a);
    forall i, j | LegacyMatrices.InRange(x, i, j)
      ensures x.grid.cells[i][j] == y.grid.cells[i][j]
    {
      assert LegacyMatrices.Get(LegacyCopy(s), i, j) == Ok(GetValue(a, i, j) + GetValue(b, i, j));
      assert LegacyMatrices.Get(LegacyCopy(b), i, j) == Ok(GetValue(b, i, j));
      assert LegacyMatrices.Get(y, i, j) == Ok(GetValue(a, i, j));
    }
    LegacyMatrices.Extensionality(x, y);
  }
}
