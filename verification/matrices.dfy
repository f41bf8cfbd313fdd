/** The generic matrix of the `Matricies` namespace (`Matrix<T>` with
    `T = int`): logical dimensions, jagged physical storage, the
    bounds-checked indexer, the change notification raised by every write,
    the constructors, `MatrixConvert` and enumeration.  The diagonal and
    symmetric subclasses override only the read mapping (`GetValue`) and the
    write indexer; both overrides are dispatched here on `kind`, the
    storage layout. */
module Matrices {
  import opened Results
  import opened Grids
  import opened ChangeEvents

  /** The storage layout of a matrix: `Dense` for the base class and for
      `SquareMatrix`, whose storage and indexers are the base class's. */
  datatype Kind = Dense | Diagonal | Symmetric

  /** `rows`/`cols` are the logical `rowCount`/`columnCount`; `cells` is the
      physical jagged array `matrix`. */
  datatype Matrix = Matrix(kind: Kind, rows: nat, cols: nat, cells: seq<seq<int>>)

  /** The storage layout every constructor establishes and every write keeps:
      dense storage is rows x cols, a diagonal matrix stores one row of n
      cells, a symmetric matrix stores a lower triangle whose row i has
      i + 1 cells. */
  predicate Valid(m: Matrix)
  {
    match m.kind
    case Dense =>
      && |m.cells| == m.rows
      && forall i | 0 <= i < m.rows :: |m.cells[i]| == m.cols
    case Diagonal =>
      && m.rows == m.cols
      && |m.cells| == 1
      && |m.cells[0]| == m.cols
    case Symmetric =>
      && m.rows == m.cols
      && |m.cells| == m.rows
      && forall i | 0 <= i < m.rows :: |m.cells[i]| == i + 1
  }

  predicate InRange(m: Matrix, i: int, j: int)
  {
    0 <= i < m.rows && 0 <= j < m.cols
  }

  /** Where a write at logical (i, j) may land: anywhere in range, except
      that a diagonal matrix accepts writes on its diagonal only. */
  predicate Writable(m: Matrix, i: int, j: int)
  {
    InRange(m, i, j) && (m.kind == Diagonal ==> i == j)
  }

  /** The logical positions that share storage with (i, j), so that a write
      at (i, j) shows at all of them. */
  predicate Aliases(m: Matrix, i: int, j: int, p: int, q: int)
  {
    match m.kind
    case Dense => p == i && q == j
    case Diagonal => p == i && q == i
    case Symmetric => (p == i && q == j) || (p == j && q == i)
  }

  function Max(a: int, b: int): int
  {
    if a < b then b else a
  }

  function Min(a: int, b: int): int
  {
    if a < b then a else b
  }

  /** The virtual `GetValue`: how each class reads logical (i, j) out of its
      physical storage.  A dense matrix reads its own cell, a diagonal
      matrix reads stored cell (0, i) on the diagonal and 0 off it, and a
      symmetric matrix reads stored cell (max, min), the cell its write
      indexer writes. */
  function GetValue(m: Matrix, i: nat, j: nat): (v: int)
    requires Valid(m) && InRange(m, i, j)
    ensures m.kind == Dense ==> v == m.cells[i][j]
    ensures m.kind == Diagonal ==> v == (if i == j then m.cells[0][i] else 0)
    ensures m.kind == Symmetric ==> Min(i, j) <= Max(i, j) < m.rows && v == m.cells[Max(i, j)][Min(i, j)]
  {
    match m.kind
    case Dense => m.cells[i][j]
    case Diagonal => if i == j then m.cells[0][i] else 0
    case Symmetric => if j > i then m.cells[j][i] else m.cells[i][j]
  }

  /** The read indexer `this[i, j]`: a bounds check against the logical
      dimensions, then `GetValue`. */
  function Get(m: Matrix, i: int, j: int): (r: Result<int>)
    requires Valid(m)
    ensures r.Ok? <==> InRange(m, i, j)
    ensures r.Err? ==> r.error == IndexOutOfRange
    ensures r.Ok? ==> r.value == GetValue(m, i, j)
  {
    if i < 0 || i >= m.rows then Err(IndexOutOfRange)
    else if j < 0 || j >= m.cols then Err(IndexOutOfRange)
    else Ok(GetValue(m, i, j))
  }

  /** The full logical rows x cols grid, as read through the indexer. */
  function Logical(m: Matrix): (g: seq<seq<int>>)
    requires Valid(m)
    ensures |g| == m.rows
    ensures forall i | 0 <= i < m.rows :: |g[i]| == m.cols
    ensures forall i, j | 0 <= i < m.rows && 0 <= j < m.cols :: g[i][j] == GetValue(m, i, j)
  {
    seq(m.rows, i requires 0 <= i < m.rows =>
      seq(m.cols, j requires 0 <= j < m.cols => GetValue(m, i, j)))
  }

  /** Two dense matrices of one shape that read the same everywhere are equal. */
  lemma DenseExtensionality(x: Matrix, y: Matrix)
    requires Valid(x) && Valid(y) && x.kind == Dense && y.kind == Dense
    requires x.rows == y.rows && x.cols == y.cols
    requires forall i, j | InRange(x, i, j) :: GetValue(x, i, j) == GetValue(y, i, j)
    ensures x == y
  {
    forall i | 0 <= i < x.rows
      ensures x.cells[i] == y.cells[i]
    {
      assert forall j | 0 <= j < x.cols :: x.cells[i][j] == GetValue(x, i, j);
    }
  }

  /** The base class's write indexer: no check of its own, so an index
      outside the physical storage surfaces as the runtime's
      IndexOutOfRangeException.  On success the cell is overwritten and one
      change event carries the position written, the old and the new value. */
  function BaseSet(m: Matrix, i: int, j: int, v: int): (r: Result<(Matrix, ChangeEvent)>)
    ensures r.Ok? <==> 0 <= i < |m.cells| && 0 <= j < |m.cells[i]|
    ensures r.Err? ==> r.error == StorageIndexOutOfRange
    ensures r.Ok? ==> r.value.1 == ChangeEvent(i, j, m.cells[i][j], v)
    ensures r.Ok? ==> r.value.0.kind == m.kind && r.value.0.rows == m.rows && r.value.0.cols == m.cols
    ensures r.Ok? ==> |r.value.0.cells| == |m.cells|
    ensures r.Ok? ==> forall p | 0 <= p < |m.cells| ::
      |r.value.0.cells[p]| == |m.cells[p]|
      && forall q | 0 <= q < |m.cells[p]| ::
        r.value.0.cells[p][q] == (if p == i && q == j then v else m.cells[p][q])
  {
    if 0 <= i < |m.cells| && 0 <= j < |m.cells[i]| then
      var old_ := m.cells[i][j];
      Ok((m.(cells := m.cells[i := m.cells[i][j := v]]), ChangeEvent(i, j, old_, v)))
    else
      Err(StorageIndexOutOfRange)
  }

  /** The write indexer `this[i, j] = v` as each class defines it: the
      dense base writes (i, j); a diagonal matrix writes physical (0, i) when
      i == j and refuses any other position; a symmetric matrix writes
      (max, min) of the two indices.  The change event reports the position
      its base-class write used. */
  function Set(m: Matrix, i: int, j: int, v: int): (r: Result<(Matrix, ChangeEvent)>)
    requires Valid(m)
    ensures r.Ok? <==> Writable(m, i, j)
    ensures r.Err? ==> r.error == (if m.kind == Diagonal && i != j then OffDiagonalWrite else StorageIndexOutOfRange)
    ensures r.Ok? ==>
      && Valid(r.value.0)
      && r.value.0.kind == m.kind && r.value.0.rows == m.rows && r.value.0.cols == m.cols
    ensures r.Ok? ==> GetValue(r.value.0, i, j) == v
    ensures r.Ok? ==> forall p, q | InRange(m, p, q) ::
      GetValue(r.value.0, p, q) == (if Aliases(m, i, j, p, q) then v else GetValue(m, p, q))
    ensures r.Ok? && m.kind == Dense ==> r.value.1 == ChangeEvent(i, j, GetValue(m, i, j), v)
    ensures r.Ok? && m.kind == Diagonal ==> r.value.1 == ChangeEvent(0, i, GetValue(m, i, j), v)
    ensures r.Ok? && m.kind == Symmetric ==> r.value.1 == ChangeEvent(Max(i, j), Min(i, j), GetValue(m, i, j), v)
  {
    match m.kind
    case Dense => BaseSet(m, i, j, v)
    case Diagonal =>
      if i == j then BaseSet(m, 0, i, v) else Err(OffDiagonalWrite)
    case Symmetric =>
      if j > i then BaseSet(m, j, i, v) else BaseSet(m, i, j, v)
  }

  /** One use of the write indexer. */
  datatype Write = Write(i: int, j: int, value: int)

  /** A sequence of writes, stopping at the first one that throws; on
      success, the final matrix and the change events raised, in order. */
  function Replay(m: Matrix, writes: seq<Write>): (r: Result<(Matrix, seq<ChangeEvent>)>)
    requires Valid(m)
    ensures r.Ok? <==> forall k | 0 <= k < |writes| :: Writable(m, writes[k].i, writes[k].j)
    ensures r.Ok? ==>
      && Valid(r.value.0)
      && r.value.0.kind == m.kind && r.value.0.rows == m.rows && r.value.0.cols == m.cols
    ensures r.Ok? ==> |r.value.1| == |writes|
    ensures r.Ok? ==> forall k | 0 <= k < |writes| :: r.value.1[k].newValue == writes[k].value
    decreases |writes|
  {
    if |writes| == 0 then
      Ok((m, []))
    else
      var step :- Set(m, writes[0].i, writes[0].j, writes[0].value);
      var rest :- Replay(step.0, writes[1..]);
      Ok((rest.0, [step.1] + rest.1))
  }

  /** `Matrix(rowCount, columnCount)`: both counts must be at least 1; every
      cell starts at `default(int)`. */
  function New(rowCount: int, columnCount: int): (r: Result<Matrix>)
    ensures r.Ok? <==> rowCount >= 1 && columnCount >= 1
    ensures r.Err? ==> r.error == DimensionTooSmall
    ensures r.Ok? ==>
      && Valid(r.value) && r.value.kind == Dense
      && r.value.rows == rowCount && r.value.cols == columnCount
    ensures r.Ok? ==> forall i, j | InRange(r.value, i, j) :: Get(r.value, i, j) == Ok(0)
  {
    if rowCount < 1 then Err(DimensionTooSmall)
    else if columnCount < 1 then Err(DimensionTooSmall)
    else Ok(Matrix(Dense, rowCount, columnCount, Zeros(rowCount, columnCount).cells))
  }

  /** `Matrix(T[,] array)`: a null array throws; otherwise the dimensions
      are the array's lengths (no lower bound) and every cell is copied. */
  function FromArray(a: Option<Grid>): (r: Result<Matrix>)
    requires a.Some? ==> Rectangular(a.value)
    ensures r.Ok? <==> a.Some?
    ensures r.Err? ==> r.error == NullSource
    ensures r.Ok? ==>
      && Valid(r.value) && r.value.kind == Dense
      && r.value.rows == a.value.height && r.value.cols == a.value.width
    ensures r.Ok? ==> forall i, j | InRange(r.value, i, j) :: Get(r.value, i, j) == Ok(a.value.cells[i][j])
  {
    match a
    case None => Err(NullSource)
    case Some(g) => Ok(Matrix(Dense, g.height, g.width, g.cells))
  }

  /** The protected `Matrix(T[][] array)` used by `SymmetricMatrix`: a
      null array throws; otherwise it copies the jagged rows as they are,
      but first reads `array[0]`, so an empty array throws; the logical
      dimensions stay 0 x 0 until the subclass calls `SetDimensions`. */
  function FromJagged(jagged: Option<seq<seq<int>>>): (r: Result<Matrix>)
    ensures r.Ok? <==> jagged.Some? && |jagged.value| >= 1
    ensures jagged.None? ==> r == Err(NullSource)
    ensures jagged.Some? && |jagged.value| == 0 ==> r == Err(StorageIndexOutOfRange)
    ensures r.Ok? ==> r.value.cells == jagged.value && r.value.rows == 0 && r.value.cols == 0
  {
    match jagged
    case None => Err(NullSource)
    case Some(rows) =>
      if |rows| == 0 then Err(StorageIndexOutOfRange)
      else Ok(Matrix(Dense, 0, 0, rows))
  }

  /** `SetDimensions`: overwrites the logical shape and nothing else. */
  function SetDimensions(m: Matrix, rowCount: nat, columnCount: nat): (r: Matrix)
    ensures r.rows == rowCount && r.cols == columnCount
    ensures r.kind == m.kind && r.cells == m.cells
  {
    m.(rows := rowCount, cols := columnCount)
  }

  /** `MatrixConvert`: a fresh dense matrix of the same logical shape,
      allocated with `Matrix(N, M)` (so an empty shape throws) and filled
      through both indexers. */
  function MatrixConvert(m: Matrix): (r: Result<Matrix>)
    requires Valid(m)
    ensures r.Ok? <==> m.rows >= 1 && m.cols >= 1
    ensures r.Err? ==> r.error == DimensionTooSmall
    ensures r.Ok? ==>
      && Valid(r.value) && r.value.kind == Dense
      && r.value.rows == m.rows && r.value.cols == m.cols
    ensures r.Ok? ==> forall i, j | InRange(m, i, j) :: Get(r.value, i, j) == Get(m, i, j)
  {
    var converted :- New(m.rows, m.cols);
    Ok(converted.(cells := Logical(m)))
  }

  /** Converting a dense matrix yields the same matrix value: the copy
      differs from the original only in identity. */
  lemma ConvertDenseIsCopy(m: Matrix)
    requires Valid(m) && m.kind == Dense && m.rows >= 1 && m.cols >= 1
    ensures MatrixConvert(m) == Ok(m)
  {
    DenseExtensionality(MatrixConvert(m).value, m);
  }

  /** `r` lists the physical storage of `m` in the order of its rows: a
      dense matrix's rows x cols cells with (i, j) at i * cols + j, a
      diagonal matrix's n diagonal values, a symmetric matrix's lower
      triangle with (i, j), j <= i, at 1 + ... + i + j. */
  ghost predicate InStorageOrder(m: Matrix, r: seq<int>)
    requires Valid(m)
  {
    match m.kind
    case Dense =>
      && |r| == m.rows * m.cols
      && forall i, j | InRange(m, i, j) :: i * m.cols + j < |r| && r[i * m.cols + j] == GetValue(m, i, j)
    case Diagonal =>
      && |r| == m.rows
      && forall i | 0 <= i < m.rows :: r[i] == GetValue(m, i, i)
    case Symmetric =>
      && |r| == Triangular(m.rows)
      && forall i, j | 0 <= j <= i < m.rows :: Triangular(i) + j < |r| && r[Triangular(i) + j] == GetValue(m, i, j)
  }

  /** `GetEnumerator`: the physical storage, row after row.  A dense matrix
      yields all rows x cols cells in row-major order, a diagonal matrix
      only its n diagonal values, a symmetric matrix its lower triangle. */
  function Enumerate(m: Matrix): (r: seq<int>)
    requires Valid(m)
    ensures InStorageOrder(m, r)
  {
    StorageOrder(m);
    Flatten(m.cells)
  }

  /** Flattening the rows of each class lists its storage in order. */
  lemma StorageOrder(m: Matrix)
    requires Valid(m)
    ensures InStorageOrder(m, Flatten(m.cells))
  {
    match m.kind
    case Dense => DenseStorageOrder(m);
    case Diagonal => DiagonalStorageOrder(m);
    case Symmetric => TriangleStorageOrder(m);
  }

  lemma DenseStorageOrder(m: Matrix)
    requires Valid(m) && m.kind == Dense
    ensures |Flatten(m.cells)| == m.rows * m.cols
    ensures forall i, j | InRange(m, i, j) ::
      i * m.cols + j < |Flatten(m.cells)| && Flatten(m.cells)[i * m.cols + j] == GetValue(m, i, j)
  {
    FlattenRectangleLength(m.cells, m.cols);
    forall i, j | InRange(m, i, j)
      ensures i * m.cols + j < |Flatten(m.cells)| && Flatten(m.cells)[i * m.cols + j] == GetValue(m, i, j)
    {
      FlattenRectangleCell(m.cells, m.cols, i, j);
    }
  }

  lemma DiagonalStorageOrder(m: Matrix)
    requires Valid(m) && m.kind == Diagonal
    ensures Flatten(m.cells) == m.cells[0]
  {
    assert m.cells == [m.cells[0]];
    FlattenSingle(m.cells[0]);
  }

  lemma TriangleStorageOrder(m: Matrix)
    requires Valid(m) && m.kind == Symmetric
    ensures |Flatten(m.cells)| == Triangular(m.rows)
    ensures forall i, j | 0 <= j <= i < m.rows ::
      Triangular(i) + j < |Flatten(m.cells)| && Flatten(m.cells)[Triangular(i) + j] == GetValue(m, i, j)
  {
    FlattenTriangleLength(m.cells);
    forall i, j | 0 <= j <= i < m.rows
      ensures Triangular(i) + j < |Flatten(m.cells)| && Flatten(m.cells)[Triangular(i) + j] == GetValue(m, i, j)
    {
      FlattenTriangleCell(m.cells, i, j);
      assert GetValue(m, i, j) == m.cells[i][j];
    }
  }
}
