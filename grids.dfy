/**
 * Two-dimensional tables: the value view of an `array2` (a sequence of rows),
 * sums over all cells, and the single-cell increment that numpy's
 * `table[r, c] += d` performs.
 */
module Grids {

  type Grid = seq<seq<int>>

  /** `g` has `rows` rows of `cols` cells each. */
  predicate IsShape<T>(g: seq<seq<T>>, rows: nat, cols: nat) {
    |g| == rows && forall i :: 0 <= i < rows ==> |g[i]| == cols
  }

  /** The contents of an array, row by row. */
  function Cells<T>(a: array2<T>): (g: seq<seq<T>>)
    reads a
    ensures IsShape(g, a.Length0, a.Length1)
  {
    RowsFrom(a, 0)
  }

  /** Each cell of the contents is the array's cell. */
  lemma CellsAt<T>(a: array2<T>)
    ensures forall i, j :: 0 <= i < a.Length0 && 0 <= j < a.Length1 ==> Cells(a)[i][j] == a[i, j]
  {
  }

  function RowsFrom<T>(a: array2<T>, k: nat): (g: seq<seq<T>>)
    reads a
    requires k <= a.Length0
    decreases a.Length0 - k
    ensures |g| == a.Length0 - k
    ensures forall i :: 0 <= i < |g| ==> |g[i]| == a.Length1
    ensures forall i, j :: 0 <= i < |g| && 0 <= j < a.Length1 ==> g[i][j] == a[k + i, j]
  {
    if k == a.Length0 then [] else [RowOf(a, k)] + RowsFrom(a, k + 1)
  }

  function RowOf<T>(a: array2<T>, i: nat): (r: seq<T>)
    reads a
    requires i < a.Length0
    ensures |r| == a.Length1 && forall j :: 0 <= j < a.Length1 ==> r[j] == a[i, j]
  {
    seq(a.Length1, j reads a requires 0 <= j < a.Length1 => a[i, j])
  }

  /** An array whose cells are those of `g` has `g` as its contents. */
  lemma CellsEqual<T>(a: array2<T>, g: seq<seq<T>>)
    requires IsShape(g, a.Length0, a.Length1)
    requires forall i, j :: 0 <= i < a.Length0 && 0 <= j < a.Length1 ==> g[i][j] == a[i, j]
    ensures Cells(a) == g
  {
    var h := Cells(a);
    forall i | 0 <= i < |g| ensures h[i] == g[i] {
      assert |h[i]| == |g[i]|;
    }
  }

  function RowSum(r: seq<int>): int {
    if r == [] then 0 else r[0] + RowSum(r[1..])
  }

  /** The sum of every cell of the table. */
  function TableSum(g: Grid): int {
    if g == [] then 0 else RowSum(g[0]) + TableSum(g[1..])
  }

  function RealRowSum(r: seq<real>): real {
    if r == [] then 0.0 else r[0] + RealRowSum(r[1..])
  }

  function RealTableSum(g: seq<seq<real>>): real {
    if g == [] then 0.0 else RealRowSum(g[0]) + RealTableSum(g[1..])
  }

  /** The table after `g[r, c] += d`. */
  function Bump(g: Grid, r: nat, c: nat, d: int): (h: Grid)
    requires r < |g| && c < |g[r]|
  {
    g[r := g[r][c := g[r][c] + d]]
  }

  /** Only the cell at `(r, c)` of a bumped table differs, by exactly `d`. */
  lemma BumpAt(g: Grid, r: nat, c: nat, d: int)
    requires r < |g| && c < |g[r]|
    ensures |Bump(g, r, c, d)| == |g|
    ensures forall i :: 0 <= i < |g| ==> |Bump(g, r, c, d)[i]| == |g[i]|
    ensures forall i, j :: 0 <= i < |g| && 0 <= j < |g[i]| ==>
      Bump(g, r, c, d)[i][j] == if i == r && j == c then g[i][j] + d else g[i][j]
  {
  }

  lemma {:induction false} RowSumBump(row: seq<int>, c: nat, d: int)
    requires c < |row|
    ensures RowSum(row[c := row[c] + d]) == RowSum(row) + d
  {
    if c > 0 {
      RowSumBump(row[1..], c - 1, d);
      assert row[c := row[c] + d][1..] == row[1..][c - 1 := row[c] + d];
    }
  }

  /** Bumping one cell by `d` raises the sum over the whole table by `d`. */
  lemma {:induction false} TableSumBump(g: Grid, r: nat, c: nat, d: int)
    requires r < |g| && c < |g[r]|
    ensures TableSum(Bump(g, r, c, d)) == TableSum(g) + d
  {
    var h := Bump(g, r, c, d);
    if r == 0 {
      RowSumBump(g[0], c, d);
      assert h[1..] == g[1..];
    } else {
      TableSumBump(g[1..], r - 1, c, d);
      assert h[1..] == Bump(g[1..], r - 1, c, d);
    }
  }

  /** Every cell is zero. */
  predicate AllZero(g: Grid) {
    forall i, j :: 0 <= i < |g| && 0 <= j < |g[i]| ==> g[i][j] == 0
  }

  lemma {:induction false} RowSumZero(row: seq<int>)
    requires forall j :: 0 <= j < |row| ==> row[j] == 0
    ensures RowSum(row) == 0
  {
    if row != [] {
      RowSumZero(row[1..]);
    }
  }

  /** A table of zeros sums to zero. */
  lemma {:induction false} TableSumZero(g: Grid)
    requires AllZero(g)
    ensures TableSum(g) == 0
  {
    if g != [] {
      RowSumZero(g[0]);
      assert AllZero(g[1..]) by {
        forall i, j | 0 <= i < |g[1..]| && 0 <= j < |g[1..][i]| ensures g[1..][i][j] == 0 {
          assert g[1..][i] == g[i + 1];
        }
      }
      TableSumZero(g[1..]);
    }
  }
}
