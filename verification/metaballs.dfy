/**
 The metaball pass: every cell whose summed blob influence reaches THRESHOLD
 is filled, every other cell keeps what it held.

 The influence of one blob on a cell is the inverse of their distance; its
 floating-point evaluation is not modelled, so it enters as a `Kernel`, an
 arbitrary function of the displacement from the blob's centre to the cell.
 */
module Metaballs {
  import opened Grid
  import opened Blobs

  /** Influence of one blob on a cell, as a function of (column - blob.x, row - blob.y). */
  type Kernel = (real, real) -> real

  /** The summed influence at which a cell is filled. */
  const THRESHOLD: real := 0.5

  /** The influence of all `blobs` on the cell at column `col`, row `row`: the sum of one kernel term per blob. */
  function Influence(blobs: seq<Blob>, col: nat, row: nat, kernel: Kernel): real
  {
    if |blobs| == 0 then 0.0
    else
      var b := blobs[|blobs| - 1];
      Influence(blobs[..|blobs| - 1], col, row, kernel) + kernel(col as real - b.x, row as real - b.y)
  }

  /** What the cell `c` at (`col`, `row`) becomes. */
  function Cell(c: char, blobs: seq<Blob>, col: nat, row: nat, kernel: Kernel): char
  {
    if Influence(blobs, col, row, kernel) >= THRESHOLD then FILL_CHAR else c
  }

  /**
   `out` is `grid` after the metaball pass: same number of rows, each row as
   long as before, each cell filled where the influence reaches THRESHOLD and
   unchanged elsewhere.
   */
  predicate Metaballised(grid: Grid, blobs: seq<Blob>, kernel: Kernel, out: Grid)
  {
    |out| == |grid| &&
    (forall i :: 0 <= i < |grid| ==> |out[i]| == |grid[i]|) &&
    (forall i, j :: 0 <= i < |grid| && 0 <= j < |grid[i]| ==>
      out[i][j] == Cell(grid[i][j], blobs, j, i, kernel))
  }

  /** Sums the influence of every blob on one cell, blob by blob. */
  method CellInfluence(blobs: seq<Blob>, col: nat, row: nat, kernel: Kernel) returns (value: real)
    ensures value == Influence(blobs, col, row, kernel)
  {
    value := 0.0;
    for n := 0 to |blobs|
      invariant value == Influence(blobs[..n], col, row, kernel)
    {
      var b := blobs[n];
      assert blobs[..n + 1][..n] == blobs[..n];
      value := value + kernel(col as real - b.x, row as real - b.y);
    }
    assert blobs[..|blobs|] == blobs;
  }

  /** The metaball pass over a copy of `grid`, cell by cell, row by row. */
  method Metaballise(grid: Grid, blobs: seq<Blob>, kernel: Kernel) returns (out: Grid)
    ensures Metaballised(grid, blobs, kernel, out)
  {
    out := grid;
    for i := 0 to |grid|
      invariant |out| == |grid|
      invariant forall k :: 0 <= k < |grid| ==> |out[k]| == |grid[k]|
      invariant forall k, j :: 0 <= k < i && 0 <= j < |grid[k]| ==>
        out[k][j] == Cell(grid[k][j], blobs, j, k, kernel)
      invariant forall k :: i <= k < |grid| ==> out[k] == grid[k]
    {
      for j := 0 to |grid[i]|
        invariant |out| == |grid|
        invariant forall k :: 0 <= k < |grid| ==> |out[k]| == |grid[k]|
        invariant forall k, j' :: 0 <= k < i && 0 <= j' < |grid[k]| ==>
          out[k][j'] == Cell(grid[k][j'], blobs, j', k, kernel)
        invariant forall j' :: 0 <= j' < j ==> out[i][j'] == Cell(grid[i][j'], blobs, j', i, kernel)
        invariant forall j' :: j <= j' < |grid[i]| ==> out[i][j'] == grid[i][j']
        invariant forall k :: i < k < |grid| ==> out[k] == grid[k]
      {
        var value := CellInfluence(blobs, j, i, kernel);
        if value >= THRESHOLD {
          out := out[i := out[i][j := FILL_CHAR]];
        }
      }
    }
  }

  /** The metaball pass has exactly one possible result for a given grid, blob list and kernel. */
  lemma MetaballisedUnique(grid: Grid, blobs: seq<Blob>, kernel: Kernel, out1: Grid, out2: Grid)
    requires Metaballised(grid, blobs, kernel, out1)
    requires Metaballised(grid, blobs, kernel, out2)
    ensures out1 == out2
  {
    forall i | 0 <= i < |grid|
      ensures out1[i] == out2[i]
    {
      assert |out1[i]| == |out2[i]|;
    }
  }

  /** Without blobs every cell has influence zero, below THRESHOLD, so the pass leaves the grid as it was. */
  lemma {:induction false} NoBlobsNoChange(grid: Grid, kernel: Kernel, out: Grid)
    requires Metaballised(grid, [], kernel, out)
    ensures out == grid
  {
    forall i | 0 <= i < |grid|
      ensures out[i] == grid[i]
    {
      assert |out[i]| == |grid[i]|;
      forall j | 0 <= j < |grid[i]|
        ensures out[i][j] == grid[i][j]
      {
        assert Influence([], j, i, kernel) == 0.0;
      }
    }
  }

  /** Running the pass again over its own output changes nothing. */
  lemma MetaballiseIdempotent(grid: Grid, blobs: seq<Blob>, kernel: Kernel, out: Grid)
    requires Metaballised(grid, blobs, kernel, out)
    ensures Metaballised(out, blobs, kernel, out)
  {
  }

  /** The pass writes only blank and filled cells into a grid that holds only blank cells. */
  lemma MetaballisedBlankGrid(width: nat, height: nat, blobs: seq<Blob>, kernel: Kernel, out: Grid)
    requires Metaballised(GenGrid(width, height), blobs, kernel, out)
    ensures IsRect(out, width, height)
    ensures forall i, j :: 0 <= i < height && 0 <= j < width ==>
      out[i][j] == (if Influence(blobs, j, i, kernel) >= THRESHOLD then FILL_CHAR else BASE_CHAR)
    ensures NoNewlines(out)
  {
    forall i | 0 <= i < height
      ensures NEWLINE !in out[i]
    {
      assert forall j :: 0 <= j < |out[i]| ==> out[i][j] != NEWLINE;
    }
  }

  /** With a kernel that never goes negative, the influence of a blob list is never negative. */
  lemma {:induction false} InfluenceNonNegative(blobs: seq<Blob>, col: nat, row: nat, kernel: Kernel)
    requires forall dx, dy :: kernel(dx, dy) >= 0.0
    ensures Influence(blobs, col, row, kernel) >= 0.0
  {
    if |blobs| > 0 {
      InfluenceNonNegative(blobs[..|blobs| - 1], col, row, kernel);
    }
  }

  /** The influence of two blob lists together is the sum of their influences. */
  lemma {:induction false} InfluenceConcat(blobs: seq<Blob>, extra: seq<Blob>, col: nat, row: nat, kernel: Kernel)
    ensures Influence(blobs + extra, col, row, kernel) ==
      Influence(blobs, col, row, kernel) + Influence(extra, col, row, kernel)
  {
    if |extra| == 0 {
      assert blobs + extra == blobs;
    } else {
      var n := |extra| - 1;
      assert (blobs + extra)[..|blobs + extra| - 1] == blobs + extra[..n];
      InfluenceConcat(blobs, extra[..n], col, row, kernel);
    }
  }

  /**
   With a kernel that never goes negative (as an inverse distance does not),
   adding blobs never empties a filled cell: nearby blobs merge, they never cancel.
   */
  lemma MoreBlobsFillMore(grid: Grid, blobs: seq<Blob>, extra: seq<Blob>, kernel: Kernel, out: Grid, out': Grid)
    requires forall dx, dy :: kernel(dx, dy) >= 0.0
    requires Metaballised(grid, blobs, kernel, out)
    requires Metaballised(grid, blobs + extra, kernel, out')
    ensures forall i, j :: 0 <= i < |grid| && 0 <= j < |grid[i]| && out[i][j] == FILL_CHAR ==> out'[i][j] == FILL_CHAR
  {
    forall i, j | 0 <= i < |grid| && 0 <= j < |grid[i]| && out[i][j] == FILL_CHAR
      ensures out'[i][j] == FILL_CHAR
    {
      InfluenceConcat(blobs, extra, j, i, kernel);
      InfluenceNonNegative(extra, j, i, kernel);
    }
  }
}
