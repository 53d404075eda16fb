/**
 * The `CanvasGrid` object: its settings, the grid it builds from a loaded
 * image, and the filter settings it keeps for its tiles.
 */
module Canvas {
  import opened Optional
  import opened Tiling
  import opened Filters

  /**
   * The settings object given to the constructor. Each field is a key the
   * object may carry; `None` is a key it does not have. `size` and `canvas`
   * can be given too, but the constructor resets them afterwards.
   */
  datatype Settings = Settings(
    cellSize: Option<nat>,
    scaleRatio: Option<real>,
    filters: Option<FilterMap>,
    size: Option<GridSize>,
    canvas: Option<seq<seq<Tile>>>)

  /** `settings || {}`: no settings object reads as one with no keys. */
  function Given(settings: Option<Settings>): (s: Settings)
    ensures settings.Some? ==> s == settings.value
    ensures settings.None? ==> s.cellSize.None? && s.scaleRatio.None? && s.filters.None?
  {
    settings.GetOr(Settings(None, None, None, None, None))
  }

  const DefaultCellSize: nat := 1024
  const DefaultScaleRatio: real := 1.0
  const EmptySize: GridSize := GridSize(0, 0, 0, 0)

  class CanvasGrid {
    var cellSize: nat
    var scaleRatio: real
    var filters: FilterMap
    var size: GridSize
    /** Row-major: `canvas[y][x]` is the tile in column `x` of row `y`. */
    var canvas: seq<seq<Tile>>

    /** Defaults, overridden by whatever the settings carry; the grid starts empty regardless. */
    constructor (settings: Option<Settings>)
      ensures cellSize == Given(settings).cellSize.GetOr(DefaultCellSize)
      ensures scaleRatio == Given(settings).scaleRatio.GetOr(DefaultScaleRatio)
      ensures filters == Given(settings).filters.GetOr(map[])
      ensures size == EmptySize && canvas == []
    {
      cellSize := DefaultCellSize;
      scaleRatio := DefaultScaleRatio;
      filters := map[];
      var given := Given(settings);
      if given.cellSize.Some? { cellSize := given.cellSize.value; }
      if given.scaleRatio.Some? { scaleRatio := given.scaleRatio.value; }
      if given.filters.Some? { filters := given.filters.value; }
      if given.size.Some? { size := given.size.value; }
      if given.canvas.Some? { canvas := given.canvas.value; }
      size := EmptySize;
      canvas := [];
    }

    /**
     * Rebuilds the grid for an image whose scaled dimensions are `width` by
     * `height`: the grid metadata, then `rows` lines of `cols` tiles each.
     * The previous grid plays no part in the new one.
     */
    method ProcessImage(width: nat, height: nat)
      requires cellSize > 0
      modifies this
      ensures cellSize == old(cellSize) && scaleRatio == old(scaleRatio) && filters == old(filters)
      ensures size == GridSizeOf(width, height, cellSize)
      ensures canvas == Build(width, height, cellSize)
    {
      canvas := [];
      var cols := CeilDiv(width, cellSize);
      var rows := CeilDiv(height, cellSize);
      size := GridSize(width, height, cols, rows);
      ghost var grid := Build(width, height, cellSize);

      var y := 0;
      while y < size.rows
        invariant cellSize == old(cellSize) && scaleRatio == old(scaleRatio) && filters == old(filters)
        invariant size == GridSizeOf(width, height, cellSize)
        invariant 0 <= y <= size.rows
        invariant canvas == grid[..y]
      {
        var line: seq<Tile> := [];
        var x := 0;
        while x < size.cols
          invariant cellSize == old(cellSize) && scaleRatio == old(scaleRatio) && filters == old(filters)
          invariant size == GridSizeOf(width, height, cellSize)
          invariant canvas == grid[..y]
          invariant 0 <= x <= size.cols
          invariant line == grid[y][..x]
        {
          var w: nat;
          if x == 0 || x < size.cols - 1 {
            w := if size.width < cellSize then size.width else cellSize;
          } else {
            w := size.width % cellSize;
          }
          var h: nat;
          if y == 0 || y < size.rows - 1 {
            h := if size.height < cellSize then size.height else cellSize;
          } else {
            h := size.height % cellSize;
          }
          assert Tile(w, h, x * cellSize, y * cellSize) == grid[y][x];
          assert grid[y][..x] + [grid[y][x]] == grid[y][..x + 1];
          line := line + [Tile(w, h, x * cellSize, y * cellSize)];
          x := x + 1;
        }
        assert line == grid[y];
        assert grid[..y] + [grid[y]] == grid[..y + 1];
        canvas := canvas + [line];
        y := y + 1;
      }
      assert grid[..size.rows] == grid;
    }

    /** Merges `update` into the filter settings; the grid itself is left as it is. */
    method ApplyFilters(update: Option<FilterMap>)
      modifies this
      ensures filters == MergeFilters(old(filters), update)
      ensures cellSize == old(cellSize) && scaleRatio == old(scaleRatio)
      ensures size == old(size) && canvas == old(canvas)
    {
      var given := update.GetOr(map[]);
      filters := filters + given;
    }
  }
}
