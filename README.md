# CanvasGrid tiling, modelled in Dafny

`CanvasGrid` cuts a large image into a grid of tiles. Each tile is its own
drawing surface of at most `cellSize` by `cellSize` scaled pixels. An instance
holds a cell size (default 1024), a scale ratio (default 1) and a map of filter
settings. It builds `canvas`, a row-major array of rows of tiles, together with
the grid metadata `size = {width, height, cols, rows}`. It also merges new
filter settings into the ones it already holds.

The model has three modules:

- `Tiling` (tiling.dfy) holds the tiling rule as pure functions, and the lemmas about it:
  - `CeilDiv` is `Math.ceil` on naturals.
  - `TileSpan` is the width/height rule. It is one rule, used for both axes.
  - `GridSizeOf` gives the grid metadata.
  - `Build` gives the whole grid, whose tiles are `Tile(w, h, ox, oy)` values.
  - `SourceRect` gives the region of the unscaled image that a tile copies.
- `Filters` (filters.dfy) holds the filter map and `MergeFilters`, the shallow
  merge done by `Object.assign`. `Optional` in the same file stands for
  `null`/`undefined` arguments.
- `Canvas` (canvas_grid.dfy) holds the class `CanvasGrid` with its fields
  `cellSize`, `scaleRatio`, `filters`, `size` and `canvas`. It has three members:
  - the constructor;
  - `ProcessImage`, whose two nested `while` loops push one tile at a time into
    a line and one line at a time into `canvas`, as the source does;
  - `ApplyFilters`.

`ProcessImage` is proved against `Build`: afterwards `canvas == Build(width,
height, cellSize)`. The properties of the grid are lemmas about `Build`:

- the shape;
- the size of each tile;
- the row and column sums;
- contiguity;
- containment in the image;
- four concrete scenarios.

Lengths in `Tiling` are scaled pixels: the image's width and height are
multiplied by `scaleRatio` before tiling. A tile's region of the scaled image
starts at `(x * cellSize, y * cellSize)`. The source rectangle handed to
`drawImage` (src/canvas-grid.js:178-181) is that offset and the tile's size,
each divided by the ratio.

Three points about what the code does and does not do:

- **Exact multiples.** The last column gets `width % cellSize`, with no special
  case for a zero remainder (src/canvas-grid.js:156-159; the comment at line 157
  only excepts a last column that is also the first). So when the scaled width
  is an exact multiple of `cellSize` and there are two columns or more, the last
  column is zero pixels wide and the row widths add up to `width - cellSize`. The
  same holds for rows (lines 165-168). `ExactMultipleGivesEmptyEdge`,
  `RowWidthSum`, `ColumnHeightSum` and `Scenario2048By1024` state this behaviour
  as the code has it; the model does not substitute a full cell.
- **Rebuilding.** `_processImage` clears `canvas` first (line 118), writes the
  new `size` (line 127) and then pushes finished lines into `canvas` (line 196);
  there is no staging of a new grid.
- **Errors.** `_processImage` has no error handling of its own. The model
  assumes the foreign calls inside it succeed; see "## Left out" for what happens
  when they throw.

## Model

| member | source | states |
|---|---|---|
| `Canvas.CanvasGrid.constructor` | src/canvas-grid.js:6-21 | cellSize is 1024, scaleRatio 1 and filters empty unless the settings carry that key; size is all zeros and canvas empty whatever the settings say |
| `Canvas.Given` | src/canvas-grid.js:12 | missing settings act as a settings object without keys; present settings are used as they are |
| `Canvas.CanvasGrid.ProcessImage` | src/canvas-grid.js:116-198 | the nested loops leave size equal to the grid metadata of the scaled image and canvas equal to the full row-major grid; the previous grid is discarded, and cellSize, scaleRatio and filters are unchanged |
| `Canvas.CanvasGrid.ApplyFilters` | src/canvas-grid.js:200-204 | filters becomes the old map overridden by the update (unchanged for a missing update); grid shape, tiles and the other settings are unchanged |
| `Tiling.CeilDiv` | src/canvas-grid.js:124-125 | the result is the least count of cells that covers the length: enough cells, one fewer is not enough, and zero exactly for length zero |
| `Tiling.GridSizeOf` | src/canvas-grid.js:122-127 | width and height are the scaled dimensions; cols and rows are their ceilings over the cell size; cols (rows) is 0 exactly when width (height) is 0 |
| `Tiling.AxisCount` | src/canvas-grid.js:124-125 | one cell means the length is positive and at most a cell; two or more mean it exceeds a cell; what the cells before the last one leave is the remainder, or one full cell when the length is an exact multiple |
| `Tiling.TileSpan` | src/canvas-grid.js:152-168 | no tile is wider or taller than the cell size, nor than the scaled image |
| `Tiling.SpanCases` | src/canvas-grid.js:152-168 | along one axis, a tile before the last one is a full cell, the tile of a one-cell axis spans the whole length, and the last of several cells is the remainder |
| `Tiling.SumSpansPrefix` | src/canvas-grid.js:152-155 | the cells before the last one all have the capped length, so the first k of them sum to k times it |
| `Tiling.SumSpans` | src/canvas-grid.js:152-168 | the extents along an axis add up to its length, or to length minus one cell when it is an exact multiple with two cells or more |
| `Tiling.Build` | src/canvas-grid.js:142-197 | the grid has rows lines of cols tiles each, in row-major order; tile (x, y) is `TileAt(size, cellSize, x, y)`, which gives it the width and height of the rule of lines 152-168 and the offset (x * cellSize, y * cellSize) of lines 180-181 |
| `Tiling.EmptyImageHasNoTiles` | src/canvas-grid.js:122-147 | an image of width 0 gives rows without tiles, and one of height 0 gives no rows |
| `Tiling.TileSizes` | src/canvas-grid.js:152-168 | inner columns (rows) are exactly cellSize wide (tall); a single column (row) is the whole scaled width (height); the last of several is the remainder |
| `Tiling.ExactMultipleGivesEmptyEdge` | src/canvas-grid.js:156-168 | with two or more columns and a width that is an exact multiple of the cell size, the last column is zero wide; the same for rows and heights |
| `Tiling.TilesAlign` | src/canvas-grid.js:152-181 | all tiles of a row share one height and one vertical offset; all tiles of a column share one width and one horizontal offset |
| `Tiling.RowWidthSum` | src/canvas-grid.js:152-159 | the widths across any row add up to the scaled width, except the exact-multiple case with two or more columns, where they add up to width minus one cell |
| `Tiling.ColumnHeightSum` | src/canvas-grid.js:161-168 | the heights down any column add up to the scaled height, except the exact-multiple case with two or more rows, where they add up to height minus one cell |
| `Tiling.ColumnsContiguous` | src/canvas-grid.js:152-181 | the next tile in a row starts where this one ends (ox[x+1] == ox[x] + w[x]), at the same vertical offset |
| `Tiling.RowsContiguous` | src/canvas-grid.js:161-181 | the next tile in a column starts where this one ends (oy[y+1] == oy[y] + h[y]), at the same horizontal offset |
| `Tiling.TileInsideImage` | src/canvas-grid.js:152-181 | every tile's region lies inside the scaled image, and the first column and row start at offset 0 |
| `Tiling.AxisInside` | src/canvas-grid.js:152-180 | along one axis, a cell's offset plus its extent never passes the axis length |
| `Tiling.SourceRect` | src/canvas-grid.js:178-186 | the source rectangle times the scale ratio gives back the tile's scaled offset and size |
| `Tiling.SourceRegionsContiguous` | src/canvas-grid.js:178-181 | the source rectangles of neighbouring tiles also abut in the unscaled image, along rows and along columns |
| `Tiling.Scenario2000By1500` | src/canvas-grid.js:116-198 | 2000 x 1500 with cell 1024: a 2 x 2 grid whose tiles are 1024 or 976 wide and 1024 or 476 tall, at offsets 0 and 1024 |
| `Tiling.Scenario500By500` | src/canvas-grid.js:116-198 | 500 x 500 with cell 1024: one 500 x 500 tile |
| `Tiling.Scenario1024By1024` | src/canvas-grid.js:116-198 | 1024 x 1024 with cell 1024: one full 1024 x 1024 tile, through the first-column branch |
| `Tiling.Scenario2048By1024` | src/canvas-grid.js:116-198 | 2048 x 1024 with cell 1024: two columns, the second one zero wide |
| `Filters.MergeFilters` | src/canvas-grid.js:202 | keys of the update take the update's values, other keys keep theirs, no other keys appear, and a missing update changes nothing |
| `Filters.MergeEmpty` | src/canvas-grid.js:202 | merging an empty filter map is the identity |
| `Filters.MergeIdempotent` | src/canvas-grid.js:202 | merging the same update twice is the same as merging it once |
| `Filters.MergeTwice` | src/canvas-grid.js:202 | two merges in a row equal one merge of the second update laid over the first |

## Left out

- Loading (`load`, `_loadImage`, `loadFromFile`, `loadFromURL`, `loadFromImage`, src/canvas-grid.js:24-114): these are runtime type tests, promises, image load and error events and object URLs. That is asynchronous I/O, outside the model. The `file`, `url`, `src` and `image` fields serve only this code and are not modelled.
- Canvas API and pixel content: `document.createElement`, `getContext`, the white `fillRect` and `drawImage` are calls into the browser. A tile records only its size and its source offset; the destination rectangle is always the whole tile.
- `canvasFilters` (src/canvas-grid.js:189, 203) is a call into an external library and is not modelled. Its effect on pixels is not captured, so `ApplyFilters` leaves the tiles as they are. It also does not capture that line 203 hands each row array, rather than each tile, to the library.
- `this.pixels` is reset but never read, so it is not modelled.
- Canvas.CanvasGrid.ProcessImage: takes the scaled width and height (the image size already multiplied by `scaleRatio`) as naturals. It does not model fractional scaled sizes or the truncation browsers apply when a fractional size is assigned to `canvas.width`.
- Canvas.CanvasGrid.ProcessImage: requires `cellSize > 0`. With a cell size of 0 the source's `Math.ceil` gives `Infinity` (positive length) or `NaN` (zero length). When the scaled height is positive the outer loop then never finishes. When the scaled height is 0, `rows` is `NaN`, the loop does not run, and the method returns with an empty `canvas` and a `size` holding `Infinity`/`NaN`; the model has no such case.
- Canvas.CanvasGrid.ProcessImage: assumes every foreign call succeeds. In the source, `this.image.width` throws when no image is loaded (line 122), and `getContext` returning null (lines 171-175) or `canvasFilters` (line 189) can throw inside the loop. `size` then already holds the new metadata and `canvas` holds only the lines finished so far, and the load promise is rejected (line 55). That partial grid is not modelled.
- Tiling.SourceRect / Tiling.SourceRegionsContiguous: the model divides exactly, in `real`. The source divides in IEEE double precision (lines 178-181), so there the source rectangle times the ratio gives back the tile's offset and size, and neighbouring source rectangles abut, only up to rounding (for instance `4*1024/3 + 1024/3` and `5*1024/3` differ in the last bit).
- Canvas.CanvasGrid.constructor: settings are limited to the keys `cellSize`, `scaleRatio`, `filters`, `size` and `canvas`, with a natural cell size. Other keys, a key present with the value `undefined`, and the aliasing between a caller's `filters` object and the grid's (a later `applyFilters` mutates the caller's object) are not modelled.
- Canvas.CanvasGrid.ApplyFilters: an update that is falsy but not `null`/`undefined` (`0`, `''`) behaves like a missing update in the source. The model has only the missing case.
