/** Two-dimensional rasters as sequences of rows, with the few whole-grid
    notions the flood comparison needs: shape, binary masks, and the sum of
    all cells (NumPy's `.sum()` on a 2-D array). */
module Raster {

  /** A raster: a sequence of rows, each a sequence of cell values. */
  type Grid<T> = seq<seq<T>>

  function Rows<T>(g: Grid<T>): nat { |g| }

  /** Number of columns, read off the first row (0 for an empty raster). */
  function Cols<T>(g: Grid<T>): nat { if |g| == 0 then 0 else |g[0]| }

  /** Every row has the same length, as in a NumPy array. */
  predicate Rectangular<T>(g: Grid<T>)
  {
    forall i :: 0 <= i < |g| ==> |g[i]| == Cols(g)
  }

  /** Two rasters have the same rows and the same row lengths. */
  predicate SameShape<A, B>(x: Grid<A>, y: Grid<B>)
  {
    |x| == |y| && forall i :: 0 <= i < |x| ==> |x[i]| == |y[i]|
  }

  /** Every cell is 0 or 1. */
  predicate Binary(g: Grid<int>)
  {
    forall i, j :: 0 <= i < |g| && 0 <= j < |g[i]| ==> g[i][j] == 0 || g[i][j] == 1
  }

  /** `x` is nowhere larger than `y`, cell by cell. */
  predicate CellwiseLe(x: Grid<int>, y: Grid<int>)
    requires SameShape(x, y)
  {
    forall i, j :: 0 <= i < |x| && 0 <= j < |x[i]| ==> x[i][j] <= y[i][j]
  }

  /** The cells of `g` in row-major order. */
  function Flatten<T>(g: Grid<T>): seq<T>
  {
    if |g| == 0 then [] else g[0] + Flatten(g[1..])
  }

  /** How many cells of `g` hold `v`. */
  function Occurrences(g: Grid<int>, v: int): nat
  {
    multiset(Flatten(g))[v]
  }

  /** Number of cells of `g`. */
  function Cells<T>(g: Grid<T>): nat { |Flatten(g)| }

  function RowTotal(row: seq<int>): int
  {
    if |row| == 0 then 0 else row[0] + RowTotal(row[1..])
  }

  /** The sum of all cells: NumPy's `.sum()` on a 2-D integer array. */
  function Total(g: Grid<int>): int
  {
    if |g| == 0 then 0 else RowTotal(g[0]) + Total(g[1..])
  }

  /** Two rectangular rasters with equal row and column counts have the same shape. */
  lemma SameDimsSameShape<A, B>(x: Grid<A>, y: Grid<B>)
    requires Rectangular(x) && Rectangular(y)
    requires Rows(x) == Rows(y) && Cols(x) == Cols(y)
    ensures SameShape(x, y)
  {
  }

  lemma {:induction false} RowTotalOfBinary(row: seq<int>)
    requires forall j :: 0 <= j < |row| ==> row[j] == 0 || row[j] == 1
    ensures RowTotal(row) == multiset(row)[1]
    ensures 0 <= RowTotal(row) <= |row|
  {
    if |row| > 0 {
      RowTotalOfBinary(row[1..]);
      assert row == [row[0]] + row[1..];
      assert multiset(row) == multiset([row[0]]) + multiset(row[1..]);
    }
  }

  /** The sum of a binary mask is the number of its cells that hold 1, so it
      lies between 0 and the number of cells. */
  lemma {:induction false} TotalOfBinary(g: Grid<int>)
    requires Binary(g)
    ensures Total(g) == Occurrences(g, 1)
    ensures 0 <= Total(g) <= Cells(g)
  {
    if |g| > 0 {
      assert forall j :: 0 <= j < |g[0]| ==> g[0][j] == 0 || g[0][j] == 1;
      RowTotalOfBinary(g[0]);
      TotalOfBinary(g[1..]);
      assert multiset(Flatten(g)) == multiset(g[0]) + multiset(Flatten(g[1..]));
    }
  }

  lemma {:induction false} RowTotalOfSum(x: seq<int>, y: seq<int>, z: seq<int>)
    requires |x| == |y| == |z|
    requires forall j :: 0 <= j < |z| ==> z[j] == x[j] + y[j]
    ensures RowTotal(z) == RowTotal(x) + RowTotal(y)
  {
    if |z| > 0 {
      RowTotalOfSum(x[1..], y[1..], z[1..]);
    }
  }

  /** If `z` is the cell-wise sum of `x` and `y`, its total is the sum of theirs. */
  lemma {:induction false} TotalOfSum(x: Grid<int>, y: Grid<int>, z: Grid<int>)
    requires SameShape(x, z) && SameShape(y, z)
    requires forall i, j :: 0 <= i < |z| && 0 <= j < |z[i]| ==> z[i][j] == x[i][j] + y[i][j]
    ensures Total(z) == Total(x) + Total(y)
  {
    if |z| > 0 {
      RowTotalOfSum(x[0], y[0], z[0]);
      TotalOfSum(x[1..], y[1..], z[1..]);
    }
  }

  lemma {:induction false} RowTotalMonotone(x: seq<int>, y: seq<int>)
    requires |x| == |y|
    requires forall j :: 0 <= j < |x| ==> x[j] <= y[j]
    ensures RowTotal(x) <= RowTotal(y)
  {
    if |x| > 0 {
      RowTotalMonotone(x[1..], y[1..]);
    }
  }

  /** A raster that is cell-wise no larger than another has no larger total. */
  lemma {:induction false} TotalMonotone(x: Grid<int>, y: Grid<int>)
    requires SameShape(x, y) && CellwiseLe(x, y)
    ensures Total(x) <= Total(y)
  {
    if |x| > 0 {
      RowTotalMonotone(x[0], y[0]);
      TotalMonotone(x[1..], y[1..]);
    }
  }
}
