/** Two-dimensional integer arrays, their row-major flattening and the dot
    product the matrix products accumulate. */
module Grids {

  /** A C# rectangular array `T[,]`: `height` and `width` are its
      `GetLength(0)` and `GetLength(1)`.  The width is kept separately
      because an array with no rows still has one. */
  datatype Grid = Grid(height: nat, width: nat, cells: seq<seq<int>>)

  /** Every `T[,]` is rectangular; a `Grid` stands for one only when it is. */
  predicate Rectangular(g: Grid)
  {
    && |g.cells| == g.height
    && forall i | 0 <= i < g.height :: |g.cells[i]| == g.width
  }

  predicate IsSquare(g: Grid)
  {
    g.height == g.width
  }

  /** `new T[h, w]`: every cell holds `default(int)`, which is 0. */
  function Zeros(h: nat, w: nat): (g: Grid)
    ensures Rectangular(g) && g.height == h && g.width == w
    ensures forall i, j | 0 <= i < h && 0 <= j < w :: g.cells[i][j] == 0
  {
    Grid(h, w, seq(h, _ => seq(w, _ => 0)))
  }

  /** u[0]*v[0] + ... + u[k-1]*v[k-1], accumulated from index 0 upwards
      starting at 0, in the order the product loops add the terms. */
  function Dot(u: seq<int>, v: seq<int>, k: nat): int
    requires k <= |u| && k <= |v|
  {
    if k == 0 then 0 else Dot(u, v, k - 1) + u[k - 1] * v[k - 1]
  }

  /** Column `j` of a grid whose rows all reach past `j`. */
  function Column(rows: seq<seq<int>>, j: nat): (c: seq<int>)
    requires forall t | 0 <= t < |rows| :: j < |rows[t]|
    ensures |c| == |rows|
    ensures forall t | 0 <= t < |rows| :: c[t] == rows[t][j]
  {
    seq(|rows|, t requires 0 <= t < |rows| => rows[t][j])
  }

  /** A dot product against a vector that is `v` at index `j` and 0
      everywhere else picks out `u[j] * v`. */
  lemma {:induction false} DotWithScaledUnit(u: seq<int>, c: seq<int>, k: nat, j: nat, v: int)
    requires k <= |u| && k <= |c|
    requires forall t | 0 <= t < k :: c[t] == (if t == j then v else 0)
    ensures Dot(u, c, k) == (if j < k then u[j] * v else 0)
  {
    if k > 0 {
      DotWithScaledUnit(u, c, k - 1, j, v);
    }
  }

  /** The rows of a jagged array concatenated front to back: the order in
      which nested `foreach` loops visit its cells. */
  function Flatten(rows: seq<seq<int>>): seq<int>
  {
    if |rows| == 0 then [] else rows[0] + Flatten(rows[1..])
  }

  lemma {:induction false} FlattenAppend(a: seq<seq<int>>, b: seq<seq<int>>)
    ensures Flatten(a + b) == Flatten(a) + Flatten(b)
  {
    if |a| == 0 {
      assert a + b == b;
    } else {
      assert (a + b)[1..] == a[1..] + b;
      FlattenAppend(a[1..], b);
    }
  }

  lemma FlattenSingle(row: seq<int>)
    ensures Flatten([row]) == row
  {
    assert [row][1..] == [];
  }

  /** Cell (i, j) sits in the flattening right after the cells of rows 0..i-1. */
  lemma FlattenIndex(rows: seq<seq<int>>, i: nat, j: nat)
    requires i < |rows| && j < |rows[i]|
    ensures |Flatten(rows[..i])| + j < |Flatten(rows)|
    ensures Flatten(rows)[|Flatten(rows[..i])| + j] == rows[i][j]
  {
    assert rows == rows[..i] + ([rows[i]] + rows[i + 1..]);
    FlattenAppend(rows[..i], [rows[i]] + rows[i + 1..]);
    FlattenAppend([rows[i]], rows[i + 1..]);
    FlattenSingle(rows[i]);
  }

  lemma FlattenPrefixStep(rows: seq<seq<int>>, i: nat)
    requires i < |rows|
    ensures |Flatten(rows[..i + 1])| == |Flatten(rows[..i])| + |rows[i]|
  {
    assert rows[..i + 1] == rows[..i] + [rows[i]];
    FlattenAppend(rows[..i], [rows[i]]);
    FlattenSingle(rows[i]);
  }

  /** With every row `w` cells wide, rows 0..i-1 hold i*w cells. */
  lemma {:induction false} FlattenUniformPrefix(rows: seq<seq<int>>, w: nat, i: nat)
    requires i <= |rows|
    requires forall t | 0 <= t < |rows| :: |rows[t]| == w
    ensures |Flatten(rows[..i])| == i * w
  {
    if i > 0 {
      FlattenUniformPrefix(rows, w, i - 1);
      FlattenPrefixStep(rows, i - 1);
    }
  }

  /** 1 + 2 + ... + n: the number of cells in the first n rows of a lower
      triangle. */
  function Triangular(n: nat): nat
  {
    if n == 0 then 0 else Triangular(n - 1) + n
  }

  /** With row t holding t+1 cells, rows 0..i-1 hold 1 + 2 + ... + i cells. */
  lemma {:induction false} FlattenTrianglePrefix(rows: seq<seq<int>>, i: nat)
    requires i <= |rows|
    requires forall t | 0 <= t < |rows| :: |rows[t]| == t + 1
    ensures |Flatten(rows[..i])| == Triangular(i)
  {
    if i > 0 {
      FlattenTrianglePrefix(rows, i - 1);
      FlattenPrefixStep(rows, i - 1);
    }
  }

  /** Row-major flattening of a rectangular grid `w` cells wide. */
  lemma FlattenRectangleCell(rows: seq<seq<int>>, w: nat, i: nat, j: nat)
    requires forall t | 0 <= t < |rows| :: |rows[t]| == w
    requires i < |rows| && j < w
    ensures i * w + j < |Flatten(rows)|
    ensures Flatten(rows)[i * w + j] == rows[i][j]
  {
    FlattenUniformPrefix(rows, w, i);
    FlattenIndex(rows, i, j);
  }

  lemma FlattenRectangleLength(rows: seq<seq<int>>, w: nat)
    requires forall t | 0 <= t < |rows| :: |rows[t]| == w
    ensures |Flatten(rows)| == |rows| * w
  {
    assert rows[..|rows|] == rows;
    FlattenUniformPrefix(rows, w, |rows|);
  }

  /** Row-major flattening of a lower triangle. */
  lemma FlattenTriangleCell(rows: seq<seq<int>>, i: nat, j: nat)
    requires forall t | 0 <= t < |rows| :: |rows[t]| == t + 1
    requires j <= i < |rows|
    ensures Triangular(i) + j < |Flatten(rows)|
    ensures Flatten(rows)[Triangular(i) + j] == rows[i][j]
  {
    FlattenTrianglePrefix(rows, i);
    FlattenIndex(rows, i, j);
  }

  lemma FlattenTriangleLength(rows: seq<seq<int>>)
    requires forall t | 0 <= t < |rows| :: |rows[t]| == t + 1
    ensures |Flatten(rows)| == Triangular(|rows|)
  {
    assert rows[..|rows|] == rows;
    FlattenTrianglePrefix(rows, |rows|);
  }
}
