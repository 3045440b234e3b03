/**
 * `HeatmapGenerator` (heatmap.py): a `height` x `width` grid of counters,
 * and `add_point`, which adds one unit of heat at the centre of a box,
 * clamped into the grid, in place.
 */
module Heatmap {
  import opened Wrappers
  import opened Boxes

  /** The grid cell, as (row, column), that `add_point` heats for box `b`. */
  function TargetCell(b: Box, width: int, height: int): (cell: (int, int))
    requires width >= 1 && height >= 1
    ensures 0 <= cell.0 < height && 0 <= cell.1 < width
  {
    var cx := b.x + b.w / 2;
    var cy := b.y + b.h / 2;
    (Min(Max(cy, 0), height - 1), Min(Max(cx, 0), width - 1))
  }

  /**
   * The cell is the box centre (with floor division) when that lies in the
   * grid; otherwise each coordinate is pushed to the nearest edge.
   */
  lemma {:induction false} TargetCellIsClampedCentre(b: Box, width: int, height: int)
    requires width >= 1 && height >= 1
    ensures var cell := TargetCell(b, width, height);
      var cx := b.x + b.w / 2;
      var cy := b.y + b.h / 2;
      && 2 * (cx - b.x) <= b.w < 2 * (cx - b.x) + 2
      && 2 * (cy - b.y) <= b.h < 2 * (cy - b.y) + 2
      && (0 <= cx < width ==> cell.1 == cx)
      && (cx < 0 ==> cell.1 == 0)
      && (cx >= width ==> cell.1 == width - 1)
      && (0 <= cy < height ==> cell.0 == cy)
      && (cy < 0 ==> cell.0 == 0)
      && (cy >= height ==> cell.0 == height - 1)
  {
  }

  /** Sum of a row. */
  function RowTotal(r: seq<int>): int
  {
    if r == [] then 0 else r[0] + RowTotal(r[1..])
  }

  /** Sum of all cells. */
  function GridTotal(g: seq<seq<int>>): int
  {
    if g == [] then 0 else RowTotal(g[0]) + GridTotal(g[1..])
  }

  /** The grid with one more unit of heat in cell (i, j). */
  function Heated(g: seq<seq<int>>, i: int, j: int): (h: seq<seq<int>>)
    requires 0 <= i < |g| && 0 <= j < |g[i]|
    ensures |h| == |g| && forall k :: 0 <= k < |g| ==> |h[k]| == |g[k]|
    ensures h[i][j] == g[i][j] + 1
    ensures forall k, l :: 0 <= k < |g| && 0 <= l < |g[k]| && (k != i || l != j) ==> h[k][l] == g[k][l]
  {
    g[i := g[i][j := g[i][j] + 1]]
  }

  /** Changing one entry of a row changes its sum by the difference. */
  lemma {:induction false} RowTotalUpdate(r: seq<int>, j: int, v: int)
    requires 0 <= j < |r|
    ensures RowTotal(r[j := v]) == RowTotal(r) - r[j] + v
  {
    if j == 0 {
      assert r[j := v][1..] == r[1..];
    } else {
      RowTotalUpdate(r[1..], j - 1, v);
      assert r[j := v][1..] == r[1..][j - 1 := v];
    }
  }

  /** Replacing one row changes the grid sum by the difference of the row sums. */
  lemma {:induction false} GridTotalUpdate(g: seq<seq<int>>, i: int, r: seq<int>)
    requires 0 <= i < |g|
    ensures GridTotal(g[i := r]) == GridTotal(g) - RowTotal(g[i]) + RowTotal(r)
  {
    if i == 0 {
      assert g[i := r][1..] == g[1..];
    } else {
      GridTotalUpdate(g[1..], i - 1, r);
      assert g[i := r][1..] == g[1..][i - 1 := r];
    }
  }

  /** Heating one cell raises the grid total by exactly one. */
  lemma {:induction false} HeatedTotal(g: seq<seq<int>>, i: int, j: int)
    requires 0 <= i < |g| && 0 <= j < |g[i]|
    ensures GridTotal(Heated(g, i, j)) == GridTotal(g) + 1
  {
    RowTotalUpdate(g[i], j, g[i][j] + 1);
    GridTotalUpdate(g, i, g[i][j := g[i][j] + 1]);
  }

  /** A grid of zeros sums to zero. */
  lemma {:induction false} ZeroTotal(g: seq<seq<int>>)
    requires forall i, j :: 0 <= i < |g| && 0 <= j < |g[i]| ==> g[i][j] == 0
    ensures GridTotal(g) == 0
  {
    if g != [] {
      ZeroRow(g[0]);
      ZeroTotal(g[1..]);
    }
  }

  lemma {:induction false} ZeroRow(r: seq<int>)
    requires forall j :: 0 <= j < |r| ==> r[j] == 0
    ensures RowTotal(r) == 0
  {
    if r != [] {
      ZeroRow(r[1..]);
    }
  }

  class HeatmapGenerator {
    const width: int
    const height: int
    const grid: array2<int>

    /** The grid has `height` rows of `width` cells. */
    ghost predicate Valid()
      reads this
    {
      grid.Length0 == height && grid.Length1 == width
    }

    /** The grid's contents, row by row. */
    ghost function Cells(): (g: seq<seq<int>>)
      reads this, grid
      ensures |g| == grid.Length0 && forall i :: 0 <= i < |g| ==> |g[i]| == grid.Length1
      ensures forall i, j :: 0 <= i < grid.Length0 && 0 <= j < grid.Length1 ==> g[i][j] == grid[i, j]
    {
      seq(grid.Length0, i requires 0 <= i < grid.Length0 reads this, grid => Row(i))
    }

    /** Row `i` of the grid. */
    ghost function Row(i: int): (r: seq<int>)
      requires 0 <= i < grid.Length0
      reads this, grid
      ensures |r| == grid.Length1 && forall j :: 0 <= j < grid.Length1 ==> r[j] == grid[i, j]
    {
      seq(grid.Length1, j requires 0 <= j < grid.Length1 reads grid => grid[i, j])
    }

    /** `__init__`: a zero grid of the given size (sizes cannot be negative). */
    constructor(width: int, height: int)
      requires width >= 0 && height >= 0
      ensures this.width == width && this.height == height
      ensures Valid() && fresh(grid)
      ensures forall i, j :: 0 <= i < height && 0 <= j < width ==> grid[i, j] == 0
      ensures GridTotal(Cells()) == 0
    {
      this.width := width;
      this.height := height;
      grid := new int[height, width]((i, j) => 0);
      new;
      ZeroTotal(Cells());
    }

    /**
     * `add_point`: no box leaves the grid as it is; otherwise the target cell
     * gains one unit of heat, so the total rises by one.
     */
    method AddPoint(box: Option<Box>)
      requires Valid()
      requires box.Some? ==> width >= 1 && height >= 1
      modifies grid
      ensures box.None? ==> Cells() == old(Cells())
      ensures box.Some? ==>
        var cell := TargetCell(box.value, width, height);
        Cells() == Heated(old(Cells()), cell.0, cell.1)
      ensures GridTotal(Cells()) == GridTotal(old(Cells())) + (if box.Some? then 1 else 0)
    {
      if box.None? {
        return;
      }
      var b := box.value;
      var cx, cy := b.x + b.w / 2, b.y + b.h / 2;
      cx := Min(Max(cx, 0), width - 1);
      cy := Min(Max(cy, 0), height - 1);
      ghost var before := Cells();
      grid[cy, cx] := grid[cy, cx] + 1;
      ghost var after := Heated(before, cy, cx);
      forall k | 0 <= k < grid.Length0
        ensures Cells()[k] == after[k]
      {
        assert forall l :: 0 <= l < grid.Length1 ==> Cells()[k][l] == after[k][l];
      }
      assert Cells() == after;
      HeatedTotal(before, cy, cx);
    }
  }
}
