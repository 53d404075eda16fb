/**
 * The tiling rule of a canvas grid, as pure functions: how many columns and
 * rows a scaled image is cut into, how wide and tall each tile is, and where
 * in the scaled image each tile's pixels come from.
 *
 * Every length here is in scaled-pixel units, i.e. after the image's own
 * width and height have been multiplied by the scale ratio.
 */
module Tiling {

  /** Grid metadata: the scaled image dimensions and the grid's shape. */
  datatype GridSize = GridSize(width: nat, height: nat, cols: nat, rows: nat)

  /** One tile: its surface width and height, and the offset of the region of
      the scaled image it shows (the destination is always the whole tile). */
  datatype Tile = Tile(w: nat, h: nat, ox: nat, oy: nat)

  /** A rectangle of the unscaled source image, in (possibly fractional) pixels. */
  datatype Rect = Rect(x: real, y: real, w: real, h: real)

  function Min(a: nat, b: nat): nat { if a < b then a else b }

  /** `Math.ceil(a / b)` for naturals: the least count of `b`-sized cells that covers `a`. */
  function CeilDiv(a: nat, b: nat): (r: nat)
    requires b > 0
    ensures a <= r * b
    ensures r == 0 || (r - 1) * b < a
    ensures r == 0 <==> a == 0
  {
    if a % b == 0 then a / b else a / b + 1
  }

  lemma MulMonotonic(x: int, y: int, c: int)
    requires x <= y && c >= 0
    ensures x * c <= y * c
  {
    assert y * c - x * c == (y - x) * c;
  }

  /** What the column (or row) count of an axis of length `total` says about that length. */
  lemma AxisCount(total: nat, cell: nat)
    requires cell > 0
    ensures var n := CeilDiv(total, cell);
      && (n == 1 ==> 0 < total <= cell)
      && (n >= 2 ==> cell < total)
      && (n >= 1 && total % cell != 0 ==> (n - 1) * cell + total % cell == total)
      && (n >= 1 && total % cell == 0 ==> (n - 1) * cell == total - cell)
  {
    var n, q, m := CeilDiv(total, cell), total / cell, total % cell;
    assert total == q * cell + m;
    if n >= 2 {
      if m == 0 {
        MulMonotonic(2, q, cell);
      } else {
        MulMonotonic(1, q, cell);
      }
    }
  }

  /**
   * The extent of cell `i` along an axis of length `total` cut into `n` cells:
   * the first cell and every cell before the last one is the axis length capped
   * at the cell size; the last cell, unless it is also the first, takes
   * `total % cell`. The same rule gives a tile's width (with its column, the
   * column count and the scaled width) and its height (with its row, the row
   * count and the scaled height).
   */
  function TileSpan(i: nat, n: nat, total: nat, cell: nat): (r: nat)
    requires cell > 0
    ensures r <= cell && r <= total
  {
    if i == 0 || i < n - 1 then Min(total, cell) else total % cell
  }

  /** The three cases of a tile's extent, stated in terms of the grid it belongs to. */
  lemma SpanCases(i: nat, total: nat, cell: nat)
    requires cell > 0
    requires i < CeilDiv(total, cell)
    ensures var n := CeilDiv(total, cell);
      && (i < n - 1 ==> TileSpan(i, n, total, cell) == cell)
      && (n == 1 ==> TileSpan(i, n, total, cell) == total)
      && (n > 1 && i == n - 1 ==> TileSpan(i, n, total, cell) == total % cell)
  {
    AxisCount(total, cell);
  }

  /** The extents of all cells along one axis, in order. */
  function Spans(n: nat, total: nat, cell: nat): (s: seq<nat>)
    requires cell > 0
    ensures |s| == n
  {
    seq(n, i requires 0 <= i < n => TileSpan(i, n, total, cell))
  }

  function Sum(s: seq<nat>): nat
  {
    if s == [] then 0 else Sum(s[..|s| - 1]) + s[|s| - 1]
  }

  /** Every cell before the last one has the same extent, so a prefix sums to a multiple of it. */
  lemma {:induction false} SumSpansPrefix(n: nat, total: nat, cell: nat, k: nat)
    requires cell > 0
    requires k < n
    ensures Sum(Spans(n, total, cell)[..k]) == k * Min(total, cell)
  {
    var s := Spans(n, total, cell)[..k];
    if k > 0 {
      assert s[..k - 1] == Spans(n, total, cell)[..k - 1];
      SumSpansPrefix(n, total, cell, k - 1);
    }
  }

  /**
   * The cells of an axis add up to its length, except when the length is an
   * exact multiple of the cell size and there are two cells or more: then the
   * last cell is empty and one cell size is missing.
   */
  lemma SumSpans(total: nat, cell: nat)
    requires cell > 0
    ensures var n := CeilDiv(total, cell);
      Sum(Spans(n, total, cell)) == if n > 1 && total % cell == 0 then total - cell else total
  {
    var n := CeilDiv(total, cell);
    var s := Spans(n, total, cell);
    AxisCount(total, cell);
    if n > 0 {
      SumSpansPrefix(n, total, cell, n - 1);
      assert s[..n - 1] == s[..|s| - 1];
      if n > 1 {
        assert Min(total, cell) == cell;
      }
    }
  }

  /** The grid metadata of a scaled image cut into `cell`-sized tiles. */
  function GridSizeOf(width: nat, height: nat, cell: nat): (s: GridSize)
    requires cell > 0
    ensures s.width == width && s.height == height
    ensures width <= s.cols * cell && (s.cols == 0 || (s.cols - 1) * cell < width)
    ensures height <= s.rows * cell && (s.rows == 0 || (s.rows - 1) * cell < height)
    ensures s.cols == 0 <==> width == 0
    ensures s.rows == 0 <==> height == 0
  {
    GridSize(width, height, CeilDiv(width, cell), CeilDiv(height, cell))
  }

  /** The tile in column `x` and row `y` of a grid with metadata `s`. */
  function TileAt(s: GridSize, cell: nat, x: nat, y: nat): Tile
    requires cell > 0
  {
    Tile(TileSpan(x, s.cols, s.width, cell), TileSpan(y, s.rows, s.height, cell), x * cell, y * cell)
  }

  /** The whole grid of a scaled image: `rows` lines of `cols` tiles each, in row-major order. */
  function Build(width: nat, height: nat, cell: nat): (g: seq<seq<Tile>>)
    requires cell > 0
    ensures |g| == GridSizeOf(width, height, cell).rows
    ensures forall y :: 0 <= y < |g| ==> |g[y]| == GridSizeOf(width, height, cell).cols
    ensures forall y, x :: 0 <= y < |g| && 0 <= x < |g[y]| ==>
      g[y][x] == TileAt(GridSizeOf(width, height, cell), cell, x, y)
  {
    var s := GridSizeOf(width, height, cell);
    seq(s.rows, y requires 0 <= y < s.rows =>
      seq(s.cols, x requires 0 <= x < s.cols => TileAt(s, cell, x, y)))
  }

  function RowWidths(row: seq<Tile>): (ws: seq<nat>)
    ensures |ws| == |row|
  {
    seq(|row|, i requires 0 <= i < |row| => row[i].w)
  }

  function ColumnHeights(g: seq<seq<Tile>>, x: nat): (hs: seq<nat>)
    requires forall y :: 0 <= y < |g| ==> x < |g[y]|
    ensures |hs| == |g|
  {
    seq(|g|, y requires 0 <= y < |g| => g[y][x].h)
  }

  /** An image with no width or no height gives no tiles at all. */
  lemma EmptyImageHasNoTiles(width: nat, height: nat, cell: nat)
    requires cell > 0
    ensures var g := Build(width, height, cell);
      && (width == 0 ==> forall y :: 0 <= y < |g| ==> g[y] == [])
      && (height == 0 ==> g == [])
  {
  }

  /** The width and height of every tile: a full cell inside the grid, the whole
      length in a one-cell axis, and the remainder in the last of several cells. */
  lemma TileSizes(width: nat, height: nat, cell: nat, x: nat, y: nat)
    requires cell > 0
    requires x < GridSizeOf(width, height, cell).cols && y < GridSizeOf(width, height, cell).rows
    ensures var s, t := GridSizeOf(width, height, cell), Build(width, height, cell)[y][x];
      && (x < s.cols - 1 ==> t.w == cell)
      && (s.cols == 1 ==> t.w == width)
      && (s.cols > 1 && x == s.cols - 1 ==> t.w == width % cell)
      && (y < s.rows - 1 ==> t.h == cell)
      && (s.rows == 1 ==> t.h == height)
      && (s.rows > 1 && y == s.rows - 1 ==> t.h == height % cell)
  {
    SpanCases(x, width, cell);
    SpanCases(y, height, cell);
  }

  /** When the scaled length is an exact multiple of the cell size and there are
      several cells, the last column (row) of tiles is zero wide (tall). */
  lemma ExactMultipleGivesEmptyEdge(width: nat, height: nat, cell: nat, x: nat, y: nat)
    requires cell > 0
    requires x < GridSizeOf(width, height, cell).cols && y < GridSizeOf(width, height, cell).rows
    ensures var s, t := GridSizeOf(width, height, cell), Build(width, height, cell)[y][x];
      && (s.cols > 1 && width % cell == 0 && x == s.cols - 1 ==> t.w == 0 && width == s.cols * cell)
      && (s.rows > 1 && height % cell == 0 && y == s.rows - 1 ==> t.h == 0 && height == s.rows * cell)
  {
    AxisCount(width, cell);
    AxisCount(height, cell);
  }

  /** All tiles of a row share one height, and all tiles of a column share one width. */
  lemma TilesAlign(width: nat, height: nat, cell: nat, x1: nat, y1: nat, x2: nat, y2: nat)
    requires cell > 0
    requires x1 < GridSizeOf(width, height, cell).cols && y1 < GridSizeOf(width, height, cell).rows
    requires x2 < GridSizeOf(width, height, cell).cols && y2 < GridSizeOf(width, height, cell).rows
    ensures var g := Build(width, height, cell);
      && g[y1][x1].h == g[y1][x2].h && g[y1][x1].oy == g[y1][x2].oy
      && g[y1][x1].w == g[y2][x1].w && g[y1][x1].ox == g[y2][x1].ox
  {
  }

  /** The widths across one row add up to the scaled width, unless the last column is empty. */
  lemma RowWidthSum(width: nat, height: nat, cell: nat, y: nat)
    requires cell > 0
    requires y < GridSizeOf(width, height, cell).rows
    ensures var s := GridSizeOf(width, height, cell);
      Sum(RowWidths(Build(width, height, cell)[y])) ==
        if s.cols > 1 && width % cell == 0 then width - cell else width
  {
    assert RowWidths(Build(width, height, cell)[y]) == Spans(CeilDiv(width, cell), width, cell);
    SumSpans(width, cell);
  }

  /** The heights down one column add up to the scaled height, unless the last row is empty. */
  lemma ColumnHeightSum(width: nat, height: nat, cell: nat, x: nat)
    requires cell > 0
    requires x < GridSizeOf(width, height, cell).cols
    ensures var s, g := GridSizeOf(width, height, cell), Build(width, height, cell);
      Sum(ColumnHeights(g, x)) == if s.rows > 1 && height % cell == 0 then height - cell else height
  {
    assert ColumnHeights(Build(width, height, cell), x) == Spans(CeilDiv(height, cell), height, cell);
    SumSpans(height, cell);
  }

  /** Neighbouring tiles of a row show abutting regions: the next begins where this one ends. */
  lemma ColumnsContiguous(width: nat, height: nat, cell: nat, x: nat, y: nat)
    requires cell > 0
    requires x + 1 < GridSizeOf(width, height, cell).cols && y < GridSizeOf(width, height, cell).rows
    ensures var g := Build(width, height, cell);
      g[y][x + 1].ox == g[y][x].ox + g[y][x].w && g[y][x + 1].oy == g[y][x].oy
  {
    SpanCases(x, width, cell);
  }

  /** Neighbouring tiles of a column show abutting regions: the next begins where this one ends. */
  lemma RowsContiguous(width: nat, height: nat, cell: nat, x: nat, y: nat)
    requires cell > 0
    requires x < GridSizeOf(width, height, cell).cols && y + 1 < GridSizeOf(width, height, cell).rows
    ensures var g := Build(width, height, cell);
      g[y + 1][x].oy == g[y][x].oy + g[y][x].h && g[y + 1][x].ox == g[y][x].ox
  {
    SpanCases(y, height, cell);
  }

  /** Every tile's region lies inside the scaled image; the first tile starts at its corner. */
  lemma TileInsideImage(width: nat, height: nat, cell: nat, x: nat, y: nat)
    requires cell > 0
    requires x < GridSizeOf(width, height, cell).cols && y < GridSizeOf(width, height, cell).rows
    ensures var t := Build(width, height, cell)[y][x];
      && t.ox + t.w <= width && t.oy + t.h <= height
      && (x == 0 ==> t.ox == 0) && (y == 0 ==> t.oy == 0)
  {
    AxisInside(x, width, cell);
    AxisInside(y, height, cell);
  }

  lemma AxisInside(i: nat, total: nat, cell: nat)
    requires cell > 0
    requires i < CeilDiv(total, cell)
    ensures i * cell + TileSpan(i, CeilDiv(total, cell), total, cell) <= total
  {
    var n := CeilDiv(total, cell);
    SpanCases(i, total, cell);
    AxisCount(total, cell);
    if i < n - 1 {
      MulMonotonic(i + 1, n - 1, cell);
    } else if n > 1 {
      assert i * cell == (n - 1) * cell;
    }
  }

  /**
   * The region of the unscaled source image that a tile copies: its scaled
   * offset and size divided by the scale ratio.
   */
  function SourceRect(t: Tile, ratio: real): (r: Rect)
    requires ratio != 0.0
    ensures r.x * ratio == t.ox as real && r.y * ratio == t.oy as real
    ensures r.w * ratio == t.w as real && r.h * ratio == t.h as real
  {
    Rect(t.ox as real / ratio, t.oy as real / ratio, t.w as real / ratio, t.h as real / ratio)
  }

  lemma DivideSum(a: real, b: real, ratio: real)
    requires ratio != 0.0
    ensures (a + b) / ratio == a / ratio + b / ratio
  {
  }

  /** The source regions of neighbouring tiles abut in the unscaled image too. */
  lemma SourceRegionsContiguous(width: nat, height: nat, cell: nat, ratio: real, x: nat, y: nat)
    requires cell > 0 && ratio != 0.0
    requires x < GridSizeOf(width, height, cell).cols && y < GridSizeOf(width, height, cell).rows
    ensures var g := Build(width, height, cell);
      var r := SourceRect(g[y][x], ratio);
      && (x + 1 < |g[y]| ==> SourceRect(g[y][x + 1], ratio).x == r.x + r.w)
      && (y + 1 < |g| ==> SourceRect(g[y + 1][x], ratio).y == r.y + r.h)
  {
    var g: seq<seq<Tile>> := Build(width, height, cell);
    var t: Tile := g[y][x];
    if x + 1 < |g[y]| {
      ColumnsContiguous(width, height, cell, x, y);
      DivideSum(t.ox as real, t.w as real, ratio);
    }
    if y + 1 < |g| {
      RowsContiguous(width, height, cell, x, y);
      DivideSum(t.oy as real, t.h as real, ratio);
    }
  }

  /** A 2000 x 1500 image in 1024-pixel cells: two columns and two rows with remainder edges. */
  lemma Scenario2000By1500()
    ensures GridSizeOf(2000, 1500, 1024) == GridSize(2000, 1500, 2, 2)
    ensures Build(2000, 1500, 1024) ==
      [[Tile(1024, 1024, 0, 0), Tile(976, 1024, 1024, 0)],
       [Tile(1024, 476, 0, 1024), Tile(976, 476, 1024, 1024)]]
  {
    var g := Build(2000, 1500, 1024);
    assert g[0] == [Tile(1024, 1024, 0, 0), Tile(976, 1024, 1024, 0)];
    assert g[1] == [Tile(1024, 476, 0, 1024), Tile(976, 476, 1024, 1024)];
  }

  /** A 500 x 500 image, smaller than one cell: a single 500 x 500 tile. */
  lemma Scenario500By500()
    ensures GridSizeOf(500, 500, 1024) == GridSize(500, 500, 1, 1)
    ensures Build(500, 500, 1024) == [[Tile(500, 500, 0, 0)]]
  {
    assert Build(500, 500, 1024)[0] == [Tile(500, 500, 0, 0)];
  }

  /** A 1024 x 1024 image, exactly one cell: a single full tile, through the first-cell case. */
  lemma Scenario1024By1024()
    ensures GridSizeOf(1024, 1024, 1024) == GridSize(1024, 1024, 1, 1)
    ensures Build(1024, 1024, 1024) == [[Tile(1024, 1024, 0, 0)]]
  {
    assert Build(1024, 1024, 1024)[0] == [Tile(1024, 1024, 0, 0)];
  }

  /** A 2048 x 1024 image: two columns, and the second one is zero wide. */
  lemma Scenario2048By1024()
    ensures GridSizeOf(2048, 1024, 1024) == GridSize(2048, 1024, 2, 1)
    ensures Build(2048, 1024, 1024) == [[Tile(1024, 1024, 0, 0), Tile(0, 1024, 1024, 0)]]
  {
    assert Build(2048, 1024, 1024)[0] == [Tile(1024, 1024, 0, 0), Tile(0, 1024, 1024, 0)];
  }
}
