/**
 * Tile-grid geometry of the tile buffer (lok_tilebuffer.h and the pure
 * helpers of lok_tilebuffer.cc): constants, the row-major index of a tile,
 * the row windows used for scrolling, the enclosing tile rectangle of a
 * pixel or twip rectangle, and the runs of missing tiles the two scanning
 * loops collect.  Floats are reals; the arithmetic of `unsigned int` is
 * unbounded except the `- 1` on a value that may be 0, which wraps.
 */
module TileGrid {
  import opened Units
  import opened TileRanges

  /** `kTileSizePx`: tiles are 256 pixels square. */
  const TileSizePx: nat := 256
  /** `kTileSizeTwips`. */
  const TileSizeTwips: real := TileSizePx as real * TwipPerPx
  /** `kBytesPerPx`: both colour types are 32-bit. */
  const BytesPerPx: nat := 4
  /** `kBufferStride`: the bytes of one tile. */
  const BufferStride: nat := TileSizePx * TileSizePx * BytesPerPx
  /** `kPoolAllocatedSize`: 256 MiB. */
  const PoolAllocatedSize: nat := 256 * 1024 * 1024
  /** `kPoolSize`: the number of tile slots in the ring pool. */
  const PoolSize: nat := PoolAllocatedSize / BufferStride - 1
  /** `kInvalidTileIndex`: the marker of a free pool slot. */
  const InvalidTileIndex: nat := U32Max

  /** The constants have the values the header's comments promise. */
  lemma Constants()
    ensures TileSizeTwips == 3840.0
    ensures BufferStride == 262144
    ensures PoolSize == 1023
  {
  }

  /** `CoordToIndex`: tiles are numbered row by row. */
  function CoordToIndex(columns: nat, x: nat, y: nat): nat
  {
    y * columns + x
  }

  /** `IndexToCoord`: the `(column, row)` of a tile. */
  function IndexToCoord(columns: nat, index: nat): (nat, nat)
    requires columns > 0
  {
    (index % columns, index / columns)
  }

  /** A column inside the grid and any row survive the round trip. */
  lemma CoordRoundTrip(columns: nat, x: nat, y: nat)
    requires x < columns
    ensures IndexToCoord(columns, CoordToIndex(columns, x, y)) == (x, y)
  {
    DivModUnique(y * columns + x, columns, y, x);
  }

  /** Every index is the index of its own coordinates. */
  lemma IndexRoundTrip(columns: nat, index: nat)
    requires columns > 0
    ensures var (x, y) := IndexToCoord(columns, index);
      x < columns && CoordToIndex(columns, x, y) == index
  {
    assert (index / columns) * columns == columns * (index / columns);
  }

  // ---------------------------------------------------------------------
  // Row windows

  /** `RowLimit`: first and last row of a window, both inclusive. */
  datatype RowLimit = RowLimit(start: nat, end: nat)

  /**
   * `LimitRange(y_pos, view_height)`: the rows from the one holding
   * `y_pos` (row 0 above the document) to that row plus the number of
   * tiles the view height spans.
   */
  function LimitRange(yPos: int, viewHeight: nat): (r: RowLimit)
    ensures r.start <= r.end
  {
    var startRow := if yPos < 0 then 0 else Floor(yPos as real / TileSizePx as real);
    var endRow := startRow + Ceil(viewHeight as real / TileSizePx as real);
    RowLimit(startRow, Max(startRow, endRow))
  }

  /**
   * The window starts at the row holding `y_pos` and spans exactly as many
   * rows as it takes to cover `view_height` pixels, and no more.
   */
  lemma LimitRangeSpan(yPos: int, viewHeight: nat)
    ensures var r := LimitRange(yPos, viewHeight);
      (yPos < 0 ==> r.start == 0) &&
      (yPos >= 0 ==> r.start * TileSizePx <= yPos < (r.start + 1) * TileSizePx) &&
      (r.end - r.start) * TileSizePx >= viewHeight &&
      (viewHeight > 0 ==> (r.end - r.start - 1) * TileSizePx < viewHeight)
  {
    var r := LimitRange(yPos, viewHeight);
    var span := Ceil(viewHeight as real / 256.0);
    assert span >= 0;
    assert r.end - r.start == span;
    assert (span * 256) as real == span as real * 256.0;
    if yPos >= 0 {
      assert (r.start * 256) as real == r.start as real * 256.0;
      assert ((r.start + 1) * 256) as real == (r.start as real + 1.0) * 256.0;
    }
    if viewHeight > 0 {
      assert ((span - 1) * 256) as real == (span as real - 1.0) * 256.0;
    }
  }

  /**
   * `LimitIndex(y_pos, view_height)`: every tile of the rows of
   * `LimitRange`, from column 0 of the first row to the last column of the
   * last row; the window is not clamped to the rows the grid has.
   */
  function LimitIndex(columns: nat, yPos: int, viewHeight: nat): (r: TileRange)
    ensures r.Valid()
  {
    var rowLimit := LimitRange(yPos, viewHeight);
    MulMonotone(rowLimit.start, rowLimit.end, columns);
    TileRange(CoordToIndex(columns, 0, rowLimit.start),
              CoordToIndex(columns, UnsignedPred(columns), rowLimit.end))
  }

  /** On a grid with columns, a tile is in the window iff its row is. */
  lemma LimitIndexRows(columns: nat, yPos: int, viewHeight: nat, index: nat)
    requires columns > 0
    ensures var rowLimit := LimitRange(yPos, viewHeight);
      index in RangeSet(LimitIndex(columns, yPos, viewHeight)) <==>
      rowLimit.start <= index / columns <= rowLimit.end
  {
    var rowLimit := LimitRange(yPos, viewHeight);
    assert LimitIndex(columns, yPos, viewHeight) ==
           TileRange(rowLimit.start * columns, rowLimit.end * columns + columns - 1);
    RowSpanMember(columns, rowLimit.start, rowLimit.end, index);
  }

  /** A tile is in the span of whole rows `first..last` iff its row is. */
  lemma RowSpanMember(columns: nat, first: nat, last: nat, index: nat)
    requires columns > 0 && first <= last
    ensures index in RangeSet(TileRange(first * columns, last * columns + columns - 1)) <==>
            first <= index / columns <= last
  {
    var row := index / columns;
    IndexRoundTrip(columns, index);
    assert index == row * columns + index % columns;
    var window := TileRange(first * columns, last * columns + columns - 1);
    assert index in RangeSet(window) <==> InRange(window, index);
    assert (row + 1) * columns == row * columns + columns;
    assert (last + 1) * columns == last * columns + columns;
    if first <= row <= last {
      MulMonotone(first, row, columns);
      MulMonotone(row, last, columns);
    } else if row < first {
      MulMonotone(row + 1, first, columns);
    } else {
      MulMonotone(last + 1, row, columns);
    }
  }

  /**
   * `NextScrollTileRange(next_y_pos, view_height)`: the tiles of three view
   * heights starting one view height above `next_y_pos` (floored at 0),
   * clamped to the last row and to the last tile of the grid.
   */
  function NextScrollTileRange(columns: nat, rows: nat, nextYPos: int, viewHeight: nat): (r: TileRange)
    ensures r.Valid()
  {
    var rowLimit := LimitRange(Max(0, nextYPos - viewHeight), viewHeight * 3);
    ScrollRows(columns, rows, if rowLimit.start > 0 then rowLimit.start else 0, rowLimit.end)
  }

  /**
   * The tiles of rows `startRow..endRow`, each clamped to the last row (0
   * less one, unsigned, on an empty grid), and both ends clamped to the
   * last tile.
   */
  function ScrollRows(columns: nat, rows: nat, startRow: nat, endRow: nat): (r: TileRange)
    requires startRow <= endRow
    ensures r.Valid()
  {
    var lastRow := UnsignedPred(rows);
    var first := MinNat(startRow, lastRow);
    var last := MinNat(endRow, lastRow);
    MulMonotone(first, last, columns);
    var indexStart := first * columns;
    var indexEnd := UnsignedPred(last * columns + columns);
    var limit := UnsignedPred(Area(columns, rows));
    ClampOrdered(indexStart, last * columns, columns, limit);
    TileRange(MinNat(indexStart, limit), MinNat(indexEnd, limit))
  }

  /** The number of tiles of a grid. */
  function Area(columns: nat, rows: nat): nat
  {
    MulMonotone(0, columns, rows);
    columns * rows
  }

  lemma ClampOrdered(a: nat, b: nat, columns: nat, limit: nat)
    requires a <= b && (columns == 0 ==> a == 0)
    ensures MinNat(a, limit) <= MinNat(UnsignedPred(b + columns), limit)
  {
  }

  /**
   * On a non-empty grid the scroll window lies inside the grid and holds
   * every tile of the rows from the one one view height above `next_y_pos`
   * through three view heights further down, as far as the grid reaches.
   */
  lemma NextScrollTileRangeBounds(columns: nat, rows: nat, nextYPos: int, viewHeight: nat, column: nat, row: nat)
    requires columns > 0 && rows > 0
    ensures NextScrollTileRange(columns, rows, nextYPos, viewHeight).indexEnd < columns * rows
    ensures var rowLimit := LimitRange(Max(0, nextYPos - viewHeight), viewHeight * 3);
      column < columns && row < rows && rowLimit.start <= row <= rowLimit.end ==>
      CoordToIndex(columns, column, row) in RangeSet(NextScrollTileRange(columns, rows, nextYPos, viewHeight))
  {
    var rowLimit := LimitRange(Max(0, nextYPos - viewHeight), viewHeight * 3);
    ClampedRowSpan(columns, rows, rowLimit.start, rowLimit.end, column, row);
  }

  /** The row span `startRow..endRow` clamped to the grid, as `NextScrollTileRange` builds it. */
  lemma ClampedRowSpan(columns: nat, rows: nat, startRow: nat, endRow: nat, column: nat, row: nat)
    requires columns > 0 && rows > 0 && startRow <= endRow
    ensures var r := ScrollRows(columns, rows, startRow, endRow);
      r.indexEnd < columns * rows &&
      (column < columns && row < rows && startRow <= row <= endRow ==> CoordToIndex(columns, column, row) in RangeSet(r))
  {
    var lastRow := rows - 1;
    var first := MinNat(startRow, lastRow);
    var last := MinNat(endRow, lastRow);
    var area := columns * rows;
    assert Area(columns, rows) == area;
    assert lastRow * columns + columns == area;
    MulMonotone(last, lastRow, columns);
    assert last * columns + columns > 0;
    var r := TileRange(MinNat(first * columns, area - 1), last * columns + columns - 1);
    assert ScrollRows(columns, rows, startRow, endRow) == r by {
      assert UnsignedPred(rows) == lastRow;
      assert UnsignedPred(area) == area - 1;
      assert UnsignedPred(last * columns + columns) == last * columns + columns - 1;
    }
    if column < columns && row < rows && startRow <= row <= endRow {
      MulMonotone(first, row, columns);
      MulMonotone(row, last, columns);
      assert InRange(r, CoordToIndex(columns, column, row));
    }
  }

  // ---------------------------------------------------------------------
  // Tile rectangles

  /** `gfx::RectF`: origin and size in floating point. */
  datatype RectF = RectF(x: real, y: real, width: real, height: real)
  {
    predicate IsEmpty() { width <= 0.0 || height <= 0.0 }
  }

  /** `gfx::Rect`: origin and size in integers. */
  datatype Rect = Rect(x: int, y: int, width: int, height: int)
  {
    function Right(): int { x + width }
    function Bottom(): int { y + height }
  }

  /** `gfx::IntersectRects(target, gfx::RectF(w, h))`; empty becomes `RectF()`. */
  function IntersectWithSize(target: RectF, w: real, h: real): RectF
  {
    if target.IsEmpty() || w <= 0.0 || h <= 0.0 then RectF(0.0, 0.0, 0.0, 0.0)
    else
      var left := if target.x > 0.0 then target.x else 0.0;
      var top := if target.y > 0.0 then target.y else 0.0;
      var right := if target.x + target.width < w then target.x + target.width else w;
      var bottom := if target.y + target.height < h then target.y + target.height else h;
      if left >= right || top >= bottom then RectF(0.0, 0.0, 0.0, 0.0)
      else RectF(left, top, right - left, bottom - top)
  }

  /** `gfx::ToEnclosingRect`: floor the origin, ceil the far edges. */
  function EnclosingRect(r: RectF): Rect
  {
    var left := Floor(r.x);
    var top := Floor(r.y);
    var right := if r.width != 0.0 then Ceil(r.x + r.width) else left;
    var bottom := if r.height != 0.0 then Ceil(r.y + r.height) else top;
    Rect(left, top, right - left, bottom - top)
  }

  /**
   * `TileRect`: the tiles, in units of `tile_size`, that the part of
   * `target` inside the container `[0, w) x [0, h)` touches.
   */
  function TileRect(target: RectF, w: real, h: real, tileSize: real): Rect
    requires tileSize > 0.0
  {
    var i := IntersectWithSize(target, w, h);
    EnclosingRect(RectF(i.x / tileSize, i.y / tileSize, i.width / tileSize, i.height / tileSize))
  }

  lemma DivMonotone(a: real, b: real, t: real)
    requires a <= b && t > 0.0
    ensures a / t <= b / t
  {
    assert b / t - a / t == (b - a) / t;
  }

  /**
   * What the `DCHECK`s after every `TileRect` demand: a non-negative origin,
   * the far edges inside a `columns x rows` grid, and either the empty
   * rectangle at the origin or one at least a tile wide and high.
   */
  predicate TileRectShape(r: Rect, columns: int, rows: int)
  {
    0 <= r.x && 0 <= r.y && r.Right() <= columns && r.Bottom() <= rows &&
    ((r.x == 0 && r.y == 0 && r.width == 0 && r.height == 0) || (r.width > 0 && r.height > 0))
  }

  /** The intersection is the empty rectangle at the origin or lies inside the container with area. */
  lemma IntersectShape(target: RectF, w: real, h: real)
    ensures var i := IntersectWithSize(target, w, h);
      i == RectF(0.0, 0.0, 0.0, 0.0) ||
      (i.width > 0.0 && i.height > 0.0 && 0.0 <= i.x && i.x + i.width <= w && 0.0 <= i.y && i.y + i.height <= h)
  {
  }

  /** Scaling a rectangle with area inside `[0, w] x [0, h]` and enclosing it. */
  lemma EnclosingScaledShape(i: RectF, w: real, h: real, t: real)
    requires t > 0.0
    requires i.width > 0.0 && i.height > 0.0 && 0.0 <= i.x && i.x + i.width <= w && 0.0 <= i.y && i.y + i.height <= h
    ensures TileRectShape(EnclosingRect(RectF(i.x / t, i.y / t, i.width / t, i.height / t)), Ceil(w / t), Ceil(h / t))
  {
    var scaled := RectF(i.x / t, i.y / t, i.width / t, i.height / t);
    DivMonotone(0.0, i.x, t);
    DivMonotone(0.0, i.y, t);
    DivMonotone(i.x + i.width, w, t);
    DivMonotone(i.y + i.height, h, t);
    DivPositive(i.width, t);
    DivPositive(i.height, t);
    DivAdd(i.x, i.width, t);
    DivAdd(i.y, i.height, t);
    EnclosingRectEdges(scaled);
    CeilMonotone((i.x + i.width) / t, w / t);
    CeilMonotone((i.y + i.height) / t, h / t);
  }

  /** The tile rectangle has that shape in the grid `Ceil(w / t) x Ceil(h / t)`. */
  lemma TileRectWithin(target: RectF, w: real, h: real, t: real)
    requires w >= 0.0 && h >= 0.0 && t > 0.0
    ensures TileRectShape(TileRect(target, w, h, t), Ceil(w / t), Ceil(h / t))
  {
    var i := IntersectWithSize(target, w, h);
    IntersectShape(target, w, h);
    DivMonotone(0.0, w, t);
    DivMonotone(0.0, h, t);
    if i == RectF(0.0, 0.0, 0.0, 0.0) {
      assert RectF(i.x / t, i.y / t, i.width / t, i.height / t) == RectF(0.0, 0.0, 0.0, 0.0);
    } else {
      EnclosingScaledShape(i, w, h, t);
    }
  }

  /**
   * The span `InvalidateTilesInRect` and `InvalidateTilesInTwipRect` reset:
   * from the rectangle's top-left tile to the tile at its right and bottom
   * edges, each clamped to the last column and row.
   */
  function TileRectSpan(columns: nat, rows: nat, r: Rect): (span: TileRange)
    requires TileRectShape(r, columns, rows)
    ensures span.Valid()
  {
    var lastColumn := MinNat(r.Right(), UnsignedPred(columns));
    var lastRow := MinNat(r.Bottom(), UnsignedPred(rows));
    assert r.x <= lastColumn && r.y <= lastRow;
    MulMonotone(r.y, lastRow, columns);
    TileRange(CoordToIndex(columns, r.x, r.y), CoordToIndex(columns, lastColumn, lastRow))
  }

  /**
   * The span stays below `columns * rows` for a non-empty rectangle and is
   * the single tile 0 for the empty one, so it always fits a bitset of
   * `columns * rows + 1` bits.
   */
  lemma TileRectSpanWithin(columns: nat, rows: nat, r: Rect)
    requires TileRectShape(r, columns, rows)
    ensures r.width == 0 ==> TileRectSpan(columns, rows, r) == TileRange(0, 0)
    ensures r.width > 0 ==> TileRectSpan(columns, rows, r).indexEnd < columns * rows
  {
    if r.width > 0 {
      var lastRow := MinNat(r.Bottom(), rows - 1);
      MulMonotone(lastRow, rows - 1, columns);
      assert (rows - 1) * columns + columns == columns * rows;
    }
  }

  /** On a grid without tiles the only tile rectangle is the empty one, whose span is tile 0. */
  lemma TileRectSpanEmptyGrid(columns: nat, rows: nat, r: Rect)
    requires TileRectShape(r, columns, rows) && columns * rows == 0
    ensures TileRectSpan(columns, rows, r) == TileRange(0, 0)
  {
    MulZero(columns, rows);
    assert r.width == 0;
    TileRectSpanWithin(columns, rows, r);
  }

  /** Every tile of the rectangle lies in the span. */
  lemma TileRectSpanCovers(columns: nat, rows: nat, r: Rect, column: nat, row: nat)
    requires TileRectShape(r, columns, rows)
    requires r.x <= column < r.Right() && r.y <= row < r.Bottom()
    ensures CoordToIndex(columns, column, row) in RangeSet(TileRectSpan(columns, rows, r))
  {
    var span := TileRectSpan(columns, rows, r);
    var lastColumn := MinNat(r.Right(), columns - 1);
    var lastRow := MinNat(r.Bottom(), rows - 1);
    MulMonotone(r.y, row, columns);
    MulMonotone(row, lastRow, columns);
    assert InRange(span, CoordToIndex(columns, column, row));
  }

  /** A point of the target inside the container lies in the intersection. */
  lemma IntersectContains(target: RectF, w: real, h: real, px: real, py: real)
    requires target.x <= px < target.x + target.width && 0.0 <= px < w
    requires target.y <= py < target.y + target.height && 0.0 <= py < h
    ensures var i := IntersectWithSize(target, w, h);
      i.x <= px < i.x + i.width && i.y <= py < i.y + i.height
  {
  }

  /** A value between `lo` and `hi` falls in a tile between `Floor(lo)` and `Ceil(hi)`. */
  lemma TileOfPoint(lo: real, v: real, hi: real, t: real)
    requires lo <= v < hi && t > 0.0
    ensures Floor(lo / t) <= Floor(v / t) < Ceil(hi / t)
  {
    DivMonotone(lo, v, t);
    FloorMonotone(lo / t, v / t);
    assert hi / t - v / t == (hi - v) / t;
  }

  /**
   * Every point of `target` inside the container lies in a tile of the
   * tile rectangle: the rectangle encloses everything the target touches.
   */
  lemma TileRectCovers(target: RectF, w: real, h: real, t: real, px: real, py: real)
    requires t > 0.0
    requires target.x <= px < target.x + target.width && 0.0 <= px < w
    requires target.y <= py < target.y + target.height && 0.0 <= py < h
    ensures var r := TileRect(target, w, h, t);
      r.x <= Floor(px / t) < r.Right() && r.y <= Floor(py / t) < r.Bottom()
  {
    var i := IntersectWithSize(target, w, h);
    IntersectContains(target, w, h, px, py);
    var scaled := RectF(i.x / t, i.y / t, i.width / t, i.height / t);
    assert TileRect(target, w, h, t) == EnclosingRect(scaled);
    TileOfPoint(i.x, px, i.x + i.width, t);
    TileOfPoint(i.y, py, i.y + i.height, t);
    DivPositive(i.width, t);
    DivPositive(i.height, t);
    DivAdd(i.x, i.width, t);
    DivAdd(i.y, i.height, t);
    EnclosingRectEdges(scaled);
  }

  lemma DivAdd(a: real, b: real, t: real)
    requires t > 0.0
    ensures a / t + b / t == (a + b) / t
  {
  }

  /** The edges of the enclosing rectangle of a rectangle with area. */
  lemma EnclosingRectEdges(r: RectF)
    requires r.width != 0.0 && r.height != 0.0
    ensures var e := EnclosingRect(r);
      e.x == Floor(r.x) && e.Right() == Ceil(r.x + r.width) &&
      e.y == Floor(r.y) && e.Bottom() == Ceil(r.y + r.height)
  {
  }

  lemma DivPositive(a: real, t: real)
    requires a > 0.0 && t > 0.0
    ensures a / t > 0.0
  {
  }

  // ---------------------------------------------------------------------
  // Runs of missing tiles

  /**
   * Adding tile `i` to a list of runs: it extends the last run when it
   * directly follows it, and starts a new run otherwise.  Both scanning
   * loops of lok_tilebuffer.cc build their lists this way.
   */
  function AddMissing(acc: seq<TileRange>, i: nat): (out: seq<TileRange>)
    ensures |out| > 0 && out[|out| - 1].indexEnd == i
  {
    if acc != [] && acc[|acc| - 1].indexEnd + 1 == i then
      acc[|acc| - 1 := TileRange(acc[|acc| - 1].indexStart, i)]
    else
      acc + [TileRange(i, i)]
  }

  /** Every run ends before the next one starts, with at least one tile between. */
  predicate Gapped(rs: seq<TileRange>)
  {
    forall j, k :: 0 <= j < k < |rs| ==> rs[j].indexEnd + 1 < rs[k].indexStart
  }

  predicate EndsBelow(rs: seq<TileRange>, bound: int)
  {
    forall k :: 0 <= k < |rs| ==> rs[k].indexEnd < bound
  }

  /** Adding a tile covers exactly one more index. */
  lemma AddMissingIndices(acc: seq<TileRange>, i: nat)
    requires AllValid(acc)
    ensures AllValid(AddMissing(acc, i))
    ensures Indices(AddMissing(acc, i)) == Indices(acc) + {i as int}
  {
    var out := AddMissing(acc, i);
    if acc != [] && acc[|acc| - 1].indexEnd + 1 == i {
      var n := |acc| - 1;
      var last := acc[n];
      var grown := TileRange(last.indexStart, i);
      assert out[..|out| - 1] == acc[..n];
      assert RangeSet(grown) == RangeSet(last) + {i as int};
      SetUnionAssoc(Indices(acc[..n]), RangeSet(last), {i as int});
    } else {
      assert out[..|out| - 1] == acc;
      assert RangeSet(TileRange(i, i)) == {i as int};
    }
  }

  /**
   * Adding tiles in increasing order keeps the runs maximal: valid, and
   * separated by at least one tile that is not in any run.
   */
  lemma AddMissingGapped(acc: seq<TileRange>, i: nat)
    requires AllValid(acc) && Gapped(acc) && EndsBelow(acc, i)
    ensures Gapped(AddMissing(acc, i)) && EndsBelow(AddMissing(acc, i), i + 1)
  {
    var out := AddMissing(acc, i);
    if acc != [] && acc[|acc| - 1].indexEnd + 1 == i {
      var n := |acc| - 1;
      forall j, k | 0 <= j < k < |out| ensures out[j].indexEnd + 1 < out[k].indexStart {
        assert out[j] == acc[j];
        if k < n {
          assert out[k] == acc[k];
        } else {
          assert out[k].indexStart == acc[n].indexStart;
        }
      }
    } else {
      forall j, k | 0 <= j < k < |out| ensures out[j].indexEnd + 1 < out[k].indexStart {
        assert out[j] == acc[j];
        if k < |acc| {
          assert out[k] == acc[k];
        } else if j < |acc| - 1 {
          assert acc[j].indexEnd + 1 < acc[|acc| - 1].indexStart;
        }
      }
    }
  }

  // The scan of `InvalidRangesRemaining`.

  /** A tile below the bitset size that is invalid or not resident. */
  predicate MissingAt(bits: seq<bool>, pool: seq<nat>, i: int)
  {
    0 <= i < |bits| && |pool| == PoolSize && (!bits[i] || pool[i % PoolSize] != i)
  }

  /** The indices `lo..hi` below the bitset size that are missing. */
  function MissingIn(bits: seq<bool>, pool: seq<nat>, lo: int, hi: int): set<int>
  {
    set i: int | lo <= i <= hi && MissingAt(bits, pool, i)
  }

  /** The inner loop: tiles `i..end`, stopping at the bitset size. */
  function RunsInRange(acc: seq<TileRange>, i: nat, end: nat, bits: seq<bool>, pool: seq<nat>): seq<TileRange>
    decreases |bits| - i
  {
    if i > end || i >= |bits| then acc
    else if MissingAt(bits, pool, i) then RunsInRange(AddMissing(acc, i), i + 1, end, bits, pool)
    else RunsInRange(acc, i + 1, end, bits, pool)
  }

  /** The outer loop: each given range in turn, in the given order. */
  function RemainingRuns(acc: seq<TileRange>, ranges: seq<TileRange>, bits: seq<bool>, pool: seq<nat>): seq<TileRange>
    decreases |ranges|
  {
    if ranges == [] then acc
    else RemainingRuns(RunsInRange(acc, ranges[0].indexStart, ranges[0].indexEnd, bits, pool), ranges[1..], bits, pool)
  }

  /** The inner loop adds exactly the missing tiles of its span. */
  lemma {:induction false} RunsInRangeIndices(acc: seq<TileRange>, i: nat, end: nat, bits: seq<bool>, pool: seq<nat>)
    requires AllValid(acc)
    ensures AllValid(RunsInRange(acc, i, end, bits, pool))
    ensures Indices(RunsInRange(acc, i, end, bits, pool)) == Indices(acc) + MissingIn(bits, pool, i, end)
    decreases |bits| - i
  {
    if i > end || i >= |bits| {
      assert MissingIn(bits, pool, i, end) == {};
    } else {
      var next := if MissingAt(bits, pool, i) then AddMissing(acc, i) else acc;
      if MissingAt(bits, pool, i) {
        AddMissingIndices(acc, i);
      }
      RunsInRangeIndices(next, i + 1, end, bits, pool);
      MissingInFirst(bits, pool, i, end);
      if MissingAt(bits, pool, i) {
        SetUnionAssoc(Indices(acc), {i as int}, MissingIn(bits, pool, i + 1, end));
      }
    }
  }

  /** Splitting the first index off a span of missing tiles. */
  lemma MissingInFirst(bits: seq<bool>, pool: seq<nat>, i: int, end: int)
    requires i <= end
    ensures MissingIn(bits, pool, i, end) ==
            (if MissingAt(bits, pool, i) then {i} else {}) + MissingIn(bits, pool, i + 1, end)
  {
  }

  /** The tiles inside the given ranges that are missing. */
  function MissingIndices(ranges: seq<TileRange>, bits: seq<bool>, pool: seq<nat>): set<int>
  {
    set i | i in Indices(ranges) && MissingAt(bits, pool, i)
  }

  /** The outer loop adds exactly the missing tiles of all the given ranges. */
  lemma {:induction false} RemainingRunsIndices(acc: seq<TileRange>, ranges: seq<TileRange>, bits: seq<bool>, pool: seq<nat>)
    requires AllValid(acc)
    ensures AllValid(RemainingRuns(acc, ranges, bits, pool))
    ensures Indices(RemainingRuns(acc, ranges, bits, pool)) == Indices(acc) + MissingIndices(ranges, bits, pool)
    decreases |ranges|
  {
    if ranges == [] {
      assert MissingIndices(ranges, bits, pool) == {};
    } else {
      var r := ranges[0];
      var rest := ranges[1..];
      var next := RunsInRange(acc, r.indexStart, r.indexEnd, bits, pool);
      RunsInRangeIndices(acc, r.indexStart, r.indexEnd, bits, pool);
      RemainingRunsIndices(next, rest, bits, pool);
      assert ranges == [r] + rest;
      IndicesCons(r, rest);
      MissingIndicesCons(r, rest, bits, pool);
      SetUnionAssoc(Indices(acc), MissingIn(bits, pool, r.indexStart, r.indexEnd), MissingIndices(rest, bits, pool));
    }
  }

  lemma MissingIndicesCons(r: TileRange, rest: seq<TileRange>, bits: seq<bool>, pool: seq<nat>)
    requires Indices([r] + rest) == RangeSet(r) + Indices(rest)
    ensures MissingIndices([r] + rest, bits, pool) ==
            MissingIn(bits, pool, r.indexStart, r.indexEnd) + MissingIndices(rest, bits, pool)
  {
    forall i ensures i in MissingIndices([r] + rest, bits, pool) <==>
                     i in MissingIn(bits, pool, r.indexStart, r.indexEnd) + MissingIndices(rest, bits, pool)
    {
      assert i in RangeSet(r) <==> InRange(r, i);
    }
  }

  // The scan of `PaintToCanvas`.

  /** Whether the pool holds tile `t` in its slot. */
  predicate Resident(pool: seq<nat>, t: int)
    requires |pool| == PoolSize
  {
    0 <= t && pool[t % PoolSize] == t
  }

  /** The inner loop: columns `column..columnEnd - 1` of one row. */
  function ScanColumns(acc: seq<TileRange>, columns: nat, row: nat, column: nat, columnEnd: nat, pool: seq<nat>): seq<TileRange>
    requires |pool| == PoolSize
    decreases columnEnd - column
  {
    if column >= columnEnd then acc
    else
      var t := CoordToIndex(columns, column, row);
      ScanColumns(if Resident(pool, t) then acc else AddMissing(acc, t), columns, row, column + 1, columnEnd, pool)
  }

  /** The outer loop: rows `row..rowEnd - 1`. */
  function ScanRows(acc: seq<TileRange>, columns: nat, row: nat, rowEnd: nat, columnStart: nat, columnEnd: nat, pool: seq<nat>): seq<TileRange>
    requires |pool| == PoolSize
    decreases rowEnd - row
  {
    if row >= rowEnd then acc
    else ScanRows(ScanColumns(acc, columns, row, columnStart, columnEnd, pool), columns, row + 1, rowEnd, columnStart, columnEnd, pool)
  }

  /** The non-resident tiles of rows `rowStart..rowEnd - 1`, columns `columnStart..columnEnd - 1`. */
  function NotResidentIn(columns: nat, rowStart: nat, rowEnd: nat, columnStart: nat, columnEnd: nat, pool: seq<nat>): set<int>
    requires |pool| == PoolSize
  {
    set row: nat, column: nat | rowStart <= row < rowEnd && columnStart <= column < columnEnd &&
                                !Resident(pool, CoordToIndex(columns, column, row))
      :: CoordToIndex(columns, column, row) as int
  }

  /** One row of the scan adds exactly that row's non-resident tiles, as maximal runs. */
  lemma ScanColumnsCorrect(acc: seq<TileRange>, columns: nat, row: nat, column: nat, columnEnd: nat, pool: seq<nat>)
    requires |pool| == PoolSize
    requires AllValid(acc) && Gapped(acc) && EndsBelow(acc, CoordToIndex(columns, column, row))
    ensures var out := ScanColumns(acc, columns, row, column, columnEnd, pool);
      AllValid(out) && Gapped(out) && EndsBelow(out, CoordToIndex(columns, MaxNat(column, columnEnd), row)) &&
      Indices(out) == Indices(acc) + NotResidentIn(columns, row, row + 1, column, columnEnd, pool)
  {
    ScanColumnsGapped(acc, columns, row, column, columnEnd, pool);
    ScanColumnsIndices(acc, columns, row, column, columnEnd, pool);
  }

  lemma {:induction false} ScanColumnsGapped(acc: seq<TileRange>, columns: nat, row: nat, column: nat, columnEnd: nat, pool: seq<nat>)
    requires |pool| == PoolSize
    requires AllValid(acc) && Gapped(acc) && EndsBelow(acc, CoordToIndex(columns, column, row))
    ensures var out := ScanColumns(acc, columns, row, column, columnEnd, pool);
      AllValid(out) && Gapped(out) && EndsBelow(out, CoordToIndex(columns, MaxNat(column, columnEnd), row))
    decreases columnEnd - column
  {
    if column < columnEnd {
      var t := CoordToIndex(columns, column, row);
      var next := if Resident(pool, t) then acc else AddMissing(acc, t);
      if !Resident(pool, t) {
        AddMissingIndices(acc, t);
        AddMissingGapped(acc, t);
      }
      assert EndsBelow(next, CoordToIndex(columns, column + 1, row));
      ScanColumnsGapped(next, columns, row, column + 1, columnEnd, pool);
    }
  }

  lemma {:induction false} ScanColumnsIndices(acc: seq<TileRange>, columns: nat, row: nat, column: nat, columnEnd: nat, pool: seq<nat>)
    requires |pool| == PoolSize && AllValid(acc)
    ensures var out := ScanColumns(acc, columns, row, column, columnEnd, pool);
      Indices(out) == Indices(acc) + NotResidentIn(columns, row, row + 1, column, columnEnd, pool)
    decreases columnEnd - column
  {
    if column >= columnEnd {
      assert NotResidentIn(columns, row, row + 1, column, columnEnd, pool) == {};
    } else {
      var t := CoordToIndex(columns, column, row);
      var next := if Resident(pool, t) then acc else AddMissing(acc, t);
      if !Resident(pool, t) {
        AddMissingIndices(acc, t);
      }
      ScanColumnsIndices(next, columns, row, column + 1, columnEnd, pool);
      var rest := NotResidentIn(columns, row, row + 1, column + 1, columnEnd, pool);
      NotResidentFirstColumn(columns, row, column, columnEnd, pool);
      if !Resident(pool, t) {
        SetUnionAssoc(Indices(acc), {t as int}, rest);
      }
    }
  }

  /** The first column of a one-row rectangle contributes its tile if that is missing. */
  lemma NotResidentFirstColumn(columns: nat, row: nat, column: nat, columnEnd: nat, pool: seq<nat>)
    requires |pool| == PoolSize && column < columnEnd
    ensures var t := CoordToIndex(columns, column, row);
      NotResidentIn(columns, row, row + 1, column, columnEnd, pool) ==
      (if Resident(pool, t) then {} else {t as int}) + NotResidentIn(columns, row, row + 1, column + 1, columnEnd, pool)
  {
  }

  /**
   * The whole scan yields maximal runs — valid, in increasing order, any
   * two separated by a tile outside every run — covering exactly the
   * non-resident tiles of the tile rectangle, as long as the rectangle
   * ends at or before the last column.
   */
  lemma ScanRowsCorrect(acc: seq<TileRange>, columns: nat, row: nat, rowEnd: nat, columnStart: nat, columnEnd: nat, pool: seq<nat>)
    requires |pool| == PoolSize && columnEnd <= columns
    requires AllValid(acc) && Gapped(acc) && EndsBelow(acc, CoordToIndex(columns, columnStart, row))
    ensures var out := ScanRows(acc, columns, row, rowEnd, columnStart, columnEnd, pool);
      AllValid(out) && Gapped(out) &&
      Indices(out) == Indices(acc) + NotResidentIn(columns, row, rowEnd, columnStart, columnEnd, pool)
  {
    ScanRowsGapped(acc, columns, row, rowEnd, columnStart, columnEnd, pool);
    ScanRowsIndices(acc, columns, row, rowEnd, columnStart, columnEnd, pool);
  }

  lemma {:induction false} ScanRowsGapped(acc: seq<TileRange>, columns: nat, row: nat, rowEnd: nat, columnStart: nat, columnEnd: nat, pool: seq<nat>)
    requires |pool| == PoolSize && columnEnd <= columns
    requires AllValid(acc) && Gapped(acc) && EndsBelow(acc, CoordToIndex(columns, columnStart, row))
    ensures var out := ScanRows(acc, columns, row, rowEnd, columnStart, columnEnd, pool);
      AllValid(out) && Gapped(out)
    decreases rowEnd - row
  {
    if row < rowEnd {
      var next := ScanColumns(acc, columns, row, columnStart, columnEnd, pool);
      ScanColumnsGapped(acc, columns, row, columnStart, columnEnd, pool);
      RowEndBelowNextRow(columns, row, columnStart, columnEnd);
      ScanRowsGapped(next, columns, row + 1, rowEnd, columnStart, columnEnd, pool);
    }
  }

  lemma {:induction false} ScanRowsIndices(acc: seq<TileRange>, columns: nat, row: nat, rowEnd: nat, columnStart: nat, columnEnd: nat, pool: seq<nat>)
    requires |pool| == PoolSize && AllValid(acc)
    ensures var out := ScanRows(acc, columns, row, rowEnd, columnStart, columnEnd, pool);
      AllValid(out) && Indices(out) == Indices(acc) + NotResidentIn(columns, row, rowEnd, columnStart, columnEnd, pool)
    decreases rowEnd - row
  {
    if row >= rowEnd {
      assert NotResidentIn(columns, row, rowEnd, columnStart, columnEnd, pool) == {};
    } else {
      var next := ScanColumns(acc, columns, row, columnStart, columnEnd, pool);
      ScanColumnsIndices(acc, columns, row, columnStart, columnEnd, pool);
      ScanColumnsValid(acc, columns, row, columnStart, columnEnd, pool);
      ScanRowsIndices(next, columns, row + 1, rowEnd, columnStart, columnEnd, pool);
      var first := NotResidentIn(columns, row, row + 1, columnStart, columnEnd, pool);
      var rest := NotResidentIn(columns, row + 1, rowEnd, columnStart, columnEnd, pool);
      NotResidentFirstRow(columns, row, rowEnd, columnStart, columnEnd, pool);
      SetUnionAssoc(Indices(acc), first, rest);
    }
  }

  lemma {:induction false} ScanColumnsValid(acc: seq<TileRange>, columns: nat, row: nat, column: nat, columnEnd: nat, pool: seq<nat>)
    requires |pool| == PoolSize && AllValid(acc)
    ensures AllValid(ScanColumns(acc, columns, row, column, columnEnd, pool))
    decreases columnEnd - column
  {
    if column < columnEnd {
      var t := CoordToIndex(columns, column, row);
      if !Resident(pool, t) {
        AddMissingIndices(acc, t);
        ScanColumnsValid(AddMissing(acc, t), columns, row, column + 1, columnEnd, pool);
      } else {
        ScanColumnsValid(acc, columns, row, column + 1, columnEnd, pool);
      }
    }
  }

  /** Everything before the end of a row's scanned columns lies before the next row's first one. */
  lemma RowEndBelowNextRow(columns: nat, row: nat, columnStart: nat, columnEnd: nat)
    requires columnEnd <= columns
    ensures forall rs: seq<TileRange> {:trigger EndsBelow(rs, CoordToIndex(columns, columnStart, row + 1))} ::
      EndsBelow(rs, CoordToIndex(columns, MaxNat(columnStart, columnEnd), row)) ==>
      EndsBelow(rs, CoordToIndex(columns, columnStart, row + 1))
  {
    assert (row + 1) * columns == row * columns + columns;
    assert CoordToIndex(columns, MaxNat(columnStart, columnEnd), row) <= CoordToIndex(columns, columnStart, row + 1);
  }

  /** Splitting the first row off a rectangle of non-resident tiles. */
  lemma NotResidentFirstRow(columns: nat, row: nat, rowEnd: nat, columnStart: nat, columnEnd: nat, pool: seq<nat>)
    requires |pool| == PoolSize && row < rowEnd
    ensures NotResidentIn(columns, row, rowEnd, columnStart, columnEnd, pool) ==
            NotResidentIn(columns, row, row + 1, columnStart, columnEnd, pool) +
            NotResidentIn(columns, row + 1, rowEnd, columnStart, columnEnd, pool)
  {
  }
}
