/**
 * The tile buffer (lok_tilebuffer.h / lok_tilebuffer.cc): a document laid
 * out as a `columns x rows` grid of 256-pixel tiles, a validity bit per
 * tile, and a ring pool of 1023 slots in which tile `t` can only live in
 * slot `t % 1023`.  Pixels are not modelled: a slot either holds a tile or
 * is free, and the raster call is an oracle whose only visible effect is
 * that the active context hash may have changed while it ran.
 */
module TileBuffers {
  import opened Units
  import opened TileRanges
  import opened TileGrid
  import opened Bitset
  import CancelFlag

  /** The tiles needed along an extent of `px` pixels. */
  function TilesFor(px: real): (n: nat)
    requires px >= 0.0
    ensures (n as real - 1.0) * TileSizePx as real < px <= n as real * TileSizePx as real
  {
    var c := Ceil(px / TileSizePx as real);
    assert c as real - 1.0 < px / 256.0 <= c as real;
    c
  }

  /**
   * What `Resize` derives from a document of `widthTwips x heightTwips` at
   * `scale`: its size in pixels and its tile grid.
   */
  predicate GridOfDocument(columns: nat, rows: nat, scale: real, widthTwips: int, heightTwips: int, widthPx: real, heightPx: real)
  {
    scale > 0.0 && widthTwips >= 0 && heightTwips >= 0 &&
    widthPx == TwipToPixel(widthTwips as real, scale) &&
    heightPx == TwipToPixel(heightTwips as real, scale) &&
    columns == TilesForTwips(widthTwips, scale) && rows == TilesForTwips(heightTwips, scale)
  }

  /** A tile rectangle of a `widthPx x heightPx` document lies in its tile grid. */
  lemma PixelGridShape(rect: RectF, widthPx: real, heightPx: real)
    requires widthPx >= 0.0 && heightPx >= 0.0
    ensures TileRectShape(TileRect(rect, widthPx, heightPx, TileSizePx as real), TilesFor(widthPx), TilesFor(heightPx))
  {
    TileRectWithin(rect, widthPx, heightPx, TileSizePx as real);
  }

  /** The columns (or rows) `Resize` computes for a twip extent at `scale`. */
  function TilesForTwips(twips: int, scale: real): nat
    requires twips >= 0 && scale > 0.0
  {
    TwipToPixelMonotone(0.0, twips as real, scale);
    TilesFor(TwipToPixel(twips as real, scale))
  }

  /** The tile count of the grid `Resize(width, height, scale)` builds. */
  function GridTiles(widthTwips: int, heightTwips: int, scale: real): nat
    requires widthTwips >= 0 && heightTwips >= 0 && scale > 0.0
  {
    TilesForTwips(widthTwips, scale) * TilesForTwips(heightTwips, scale)
  }

  /**
   * A twip rectangle measured in tiles of `PixelToTwip(256, scale)` twips
   * needs as many columns as the pixel rectangle in 256-pixel tiles: the
   * grid of `InvalidateTilesInTwipRect` is the grid of `Resize`.
   */
  lemma TwipTilesArePixelTiles(twips: real, scale: real)
    requires scale > 0.0
    ensures twips / PixelToTwip(TileSizePx as real, scale) == TwipToPixel(twips, scale) / TileSizePx as real
  {
    calc {
      twips / PixelToTwip(256.0, scale);
      twips / (256.0 / scale * 15.0);
      { assert 256.0 / scale * 15.0 == 3840.0 / scale; }
      twips / (3840.0 / scale);
      { assert twips / (3840.0 / scale) * (3840.0 / scale) == twips; }
      twips * scale / 3840.0;
      twips / 15.0 * scale / 256.0;
    }
  }

  /** The guard `PaintTile` means: a tile index outside the grid. */
  predicate RejectsTile(columns: nat, rows: nat, tileIndex: nat)
  {
    tileIndex >= columns * rows
  }

  /** The guard as written: `tile_index > columns_ * rows_ - 1` in `unsigned int`. */
  predicate RejectsTileAsWritten(columns: nat, rows: nat, tileIndex: nat)
  {
    tileIndex > UnsignedPred(columns * rows)
  }

  /** On a grid with at least one tile the written guard is the intended one. */
  lemma RejectsTileAgrees(columns: nat, rows: nat, tileIndex: nat)
    requires columns * rows >= 1
    ensures RejectsTileAsWritten(columns, rows, tileIndex) <==> RejectsTile(columns, rows, tileIndex)
  {
  }

  /**
   * On an empty grid `columns_ * rows_ - 1` wraps to 4294967295, so the
   * written guard lets every `unsigned int` tile index through, although the
   * bitset then holds at most one bit; tile 5 is claimed into pool slot 5.
   */
  lemma EmptyGridAdmitsEveryTile(columns: nat, rows: nat, tileIndex: nat)
    requires columns * rows == 0 && tileIndex <= U32Max
    ensures !RejectsTileAsWritten(columns, rows, tileIndex)
    ensures RejectsTile(columns, rows, tileIndex)
    ensures tileIndex >= 1 ==> tileIndex >= columns * rows + 1
  {
  }

  /** Every bit unset. */
  predicate AllUnset(bits: seq<bool>)
  {
    forall t :: 0 <= t < |bits| ==> !bits[t]
  }

  /** `bits` with the tiles of `span` marked invalid and every other bit as it was. */
  function WithRangeReset(bits: seq<bool>, span: TileRange): (out: seq<bool>)
    ensures |out| == |bits|
    ensures forall t :: 0 <= t < |out| ==> out[t] == (if InRange(span, t) then false else bits[t])
    ensures AllUnset(bits) ==> AllUnset(out)
  {
    seq(|bits|, t requires 0 <= t < |bits| => if InRange(span, t) then false else bits[t])
  }

  /** The bits after claiming the slot of `tile`: a different occupant loses its bit. */
  function Evicted(bits: seq<bool>, pool: seq<nat>, tile: nat): (out: seq<bool>)
    requires |pool| == PoolSize
    ensures |out| == |bits|
  {
    var occupant := pool[tile % PoolSize];
    if occupant == tile || occupant == InvalidTileIndex || occupant >= |bits| then bits
    else bits[occupant := false]
  }

  /** Every pool slot is free or holds a tile below `size` that belongs in it. */
  predicate SlotsHold(pool: seq<nat>, size: nat)
  {
    |pool| == PoolSize &&
    forall s :: 0 <= s < |pool| ==> pool[s] == InvalidTileIndex || (pool[s] < size && pool[s] % PoolSize == s)
  }

  /** Every valid tile is resident in its pool slot. */
  predicate BitsResident(bits: seq<bool>, pool: seq<nat>)
  {
    |pool| == PoolSize &&
    forall t :: 0 <= t < |bits| && bits[t] ==> pool[t % PoolSize] == t
  }

  /** Unsetting bits keeps every remaining valid tile resident. */
  lemma FewerBitsResident(before: seq<bool>, after: seq<bool>, pool: seq<nat>)
    requires BitsResident(before, pool) && |after| == |before|
    requires forall t :: 0 <= t < |after| && after[t] ==> before[t]
    ensures BitsResident(after, pool)
  {
  }

  /** With no valid tile, every valid tile is trivially resident. */
  lemma UnsetBitsResident(bits: seq<bool>, pool: seq<nat>)
    requires |pool| == PoolSize && AllUnset(bits)
    ensures BitsResident(bits, pool)
  {
  }

  /**
   * Claiming the slot of `tile` for it, evicting the occupant's bit, keeps
   * the pool well formed and every valid tile resident.
   */
  lemma ClaimSlotKeepsResident(bits: seq<bool>, pool: seq<nat>, tile: nat)
    requires SlotsHold(pool, |bits|) && BitsResident(bits, pool)
    requires tile < |bits| <= U32Max
    ensures SlotsHold(pool[tile % PoolSize := tile], |bits|)
    ensures BitsResident(Evicted(bits, pool, tile), pool[tile % PoolSize := tile])
  {
    var claimed := pool[tile % PoolSize := tile];
    var evicted := Evicted(bits, pool, tile);
    forall t | 0 <= t < |evicted| && evicted[t] ensures claimed[t % PoolSize] == t {
      assert bits[t];
    }
  }

  /** Marking a resident tile valid keeps every valid tile resident. */
  lemma MarkValidKeepsResident(bits: seq<bool>, pool: seq<nat>, tile: nat)
    requires BitsResident(bits, pool) && tile < |bits| && pool[tile % PoolSize] == tile
    ensures BitsResident(bits[tile := true], pool)
  {
  }

  /** The span of a tile rectangle fits a bitset sized for the grid. */
  lemma SpanFitsBitset(columns: nat, rows: nat, r: Rect, size: nat)
    requires TileRectShape(r, columns, rows)
    requires if size == 0 then columns * rows == 0 else size == columns * rows + 1
    ensures size == 0 ==> TileRectSpan(columns, rows, r) == TileRange(0, 0)
    ensures size > 0 ==> TileRectSpan(columns, rows, r).indexEnd < size
  {
    TileRectSpanWithin(columns, rows, r);
    if size == 0 {
      TileRectSpanEmptyGrid(columns, rows, r);
    }
  }

  class TileBuffer {
    var columns: nat
    var rows: nat
    var scale: real
    var docWidthTwips: int
    var docHeightTwips: int
    var docWidthPx: real
    var docHeightPx: real
    /** `valid_tile_`. */
    const valid: AtomicBitset
    /** `pool_index_to_tile_index_`: the tile each pool slot holds. */
    const pool: array<nat>
    /** `active_context_hash_`. */
    var activeContext: nat
    /** `y_pos_`: the scroll position in pixels. */
    var yPos: int

    /** The grid is the one `Resize` computes from the document size and scale. */
    ghost predicate GridMatchesDocument()
      reads this
    {
      GridOfDocument(columns, rows, scale, docWidthTwips, docHeightTwips, docWidthPx, docHeightPx)
    }

    /** The bitset holds one bit per tile and one more, or none on an empty grid. */
    ghost predicate SizedForGrid()
      reads this, valid
    {
      (if valid.Size() == 0 then columns * rows == 0 else valid.Size() == columns * rows + 1) &&
      valid.Size() <= U32Max
    }

    ghost predicate Valid()
      reads this, valid, valid.data, pool
    {
      pool.Length == PoolSize &&
      GridMatchesDocument() &&
      SizedForGrid() &&
      SlotsHold(pool[..], valid.Size()) &&
      BitsResident(valid.data[..], pool[..])
    }

    /** Fields other than the bits, the pool and the context are as before. */
    twostate predicate GeometryUnchanged()
      reads this
    {
      columns == old(columns) && rows == old(rows) && scale == old(scale) &&
      docWidthTwips == old(docWidthTwips) && docHeightTwips == old(docHeightTwips) &&
      docWidthPx == old(docWidthPx) && docHeightPx == old(docHeightPx) && yPos == old(yPos)
    }

    /** `TileBuffer()`: an empty grid, an empty bitset, every pool slot free. */
    constructor ()
      ensures Valid() && fresh(valid) && fresh(valid.data) && fresh(pool)
      ensures columns == 0 && rows == 0 && scale == 1.0 && activeContext == 0 && yPos == 0
      ensures valid.Size() == 0
      ensures forall s :: 0 <= s < PoolSize ==> pool[s] == InvalidTileIndex
    {
      columns := 0;
      rows := 0;
      scale := 1.0;
      docWidthTwips := 0;
      docHeightTwips := 0;
      docWidthPx := 0.0;
      docHeightPx := 0.0;
      valid := new AtomicBitset(0);
      pool := new nat[PoolSize](_ => InvalidTileIndex);
      activeContext := 0;
      yPos := 0;
    }

    /** `IsEmpty()`. */
    function IsEmpty(): (empty: bool)
      reads this
      ensures empty <==> columns * rows == 0
    {
      rows == 0 || columns == 0
    }

    /** Whether tile `t` occupies its pool slot. */
    ghost predicate IsResident(t: nat)
      reads this, pool
      requires pool.Length == PoolSize
    {
      Resident(pool[..], t)
    }

    /** `TileToPoolIndex`: the slot of tile `t`, and whether `t` is in it. */
    method TileToPoolIndex(tileIndex: nat) returns (resident: bool, poolIndex: nat)
      requires pool.Length == PoolSize
      ensures poolIndex == tileIndex % PoolSize && poolIndex < PoolSize
      ensures resident <==> pool[poolIndex] == tileIndex
      ensures resident <==> IsResident(tileIndex)
    {
      poolIndex := tileIndex % PoolSize;
      resident := poolIndex < PoolSize && pool[poolIndex] == tileIndex;
    }

    /**
     * `Resize(width_twips, height_twips, scale)`: recomputes the grid, gives
     * it a fresh bitset of `columns * rows + 1` unset bits and frees every
     * pool slot.
     */
    method Resize(widthTwips: int, heightTwips: int, newScale: real)
      requires Valid()
      requires widthTwips >= 0 && heightTwips >= 0 && newScale > 0.0
      requires GridTiles(widthTwips, heightTwips, newScale) < U32Max
      modifies this, valid, pool
      ensures Valid()
      ensures docWidthTwips == widthTwips && docHeightTwips == heightTwips && scale == newScale
      ensures columns == TilesForTwips(widthTwips, newScale) && rows == TilesForTwips(heightTwips, newScale)
      ensures valid.Size() == columns * rows + 1 && AllUnset(valid.data[..]) && fresh(valid.data)
      ensures forall s :: 0 <= s < PoolSize ==> pool[s] == InvalidTileIndex
      ensures activeContext == old(activeContext) && yPos == old(yPos)
    {
      docWidthTwips := widthTwips;
      docHeightTwips := heightTwips;
      scale := newScale;
      docWidthPx := TwipToPixel(docWidthTwips as real, scale);
      docHeightPx := TwipToPixel(docHeightTwips as real, scale);
      columns := TilesForTwips(docWidthTwips, scale);
      rows := TilesForTwips(docHeightTwips, scale);
      assert GridMatchesDocument();
      var bits := new AtomicBitset(columns * rows + 1);
      valid.MoveAssign(bits);
      forall s | 0 <= s < pool.Length {
        pool[s] := InvalidTileIndex;
      }
      UnsetBitsResident(valid.data[..], pool[..]);
    }

    /** `Resize(width_twips, height_twips)`: rebuilds only when the twip size changed. */
    method ResizeTo(widthTwips: int, heightTwips: int)
      requires Valid()
      requires widthTwips >= 0 && heightTwips >= 0
      requires GridTiles(widthTwips, heightTwips, scale) < U32Max
      modifies this, valid, pool
      ensures Valid() && scale == old(scale) && yPos == old(yPos)
      ensures valid.data == old(valid.data) || fresh(valid.data)
      ensures old(docWidthTwips) == widthTwips && old(docHeightTwips) == heightTwips ==>
        GeometryUnchanged() && valid.data == old(valid.data) && valid.data[..] == old(valid.data[..]) &&
        pool[..] == old(pool[..]) && activeContext == old(activeContext)
      ensures old(docWidthTwips) != widthTwips || old(docHeightTwips) != heightTwips ==>
        docWidthTwips == widthTwips && docHeightTwips == heightTwips &&
        valid.Size() == columns * rows + 1 && AllUnset(valid.data[..]) &&
        (forall s :: 0 <= s < PoolSize ==> pool[s] == InvalidTileIndex)
    {
      if docWidthTwips != widthTwips || docHeightTwips != heightTwips {
        Resize(widthTwips, heightTwips, scale);
      }
    }

    /** `SetActiveContext`. */
    method SetActiveContext(activeContextHash: nat)
      modifies this
      ensures activeContext == activeContextHash && GeometryUnchanged()
      ensures old(Valid()) ==> Valid()
    {
      activeContext := activeContextHash;
    }

    /**
     * `ResetScale(scale)`: a change of more than 0.001 rebuilds the grid at
     * the new scale and resets the active context to 0; anything smaller
     * changes nothing.
     */
    method ResetScale(newScale: real)
      requires Valid() && newScale > 0.0
      requires GridTiles(docWidthTwips, docHeightTwips, newScale) < U32Max
      modifies this, valid, pool
      ensures Valid() && yPos == old(yPos)
      ensures valid.data == old(valid.data) || fresh(valid.data)
      ensures Abs(newScale - old(scale)) <= 0.001 ==>
        GeometryUnchanged() && valid.data == old(valid.data) && valid.data[..] == old(valid.data[..]) &&
        pool[..] == old(pool[..]) && activeContext == old(activeContext)
      ensures Abs(newScale - old(scale)) > 0.001 ==>
        scale == newScale && activeContext == 0 &&
        docWidthTwips == old(docWidthTwips) && docHeightTwips == old(docHeightTwips) &&
        valid.Size() == columns * rows + 1 && AllUnset(valid.data[..]) &&
        (forall s :: 0 <= s < PoolSize ==> pool[s] == InvalidTileIndex)
    {
      if Abs(newScale - scale) > 0.001 {
        Resize(docWidthTwips, docHeightTwips, newScale);
        SetActiveContext(0);
      }
    }

    /**
     * `InvalidatePoolTile(pool_index)`: a free slot is left alone; an
     * occupied one loses its tile, whose bit is reset.
     */
    method InvalidatePoolTile(poolIndex: nat)
      requires Valid() && poolIndex < PoolSize
      modifies valid.data, pool
      ensures Valid()
      ensures old(pool[poolIndex]) == InvalidTileIndex ==>
        pool[..] == old(pool[..]) && valid.data[..] == old(valid.data[..])
      ensures old(pool[poolIndex]) != InvalidTileIndex ==>
        pool[..] == old(pool[..])[poolIndex := InvalidTileIndex] &&
        valid.data[..] == old(valid.data[..])[old(pool[poolIndex]) := false]
    {
      var tileIndex := pool[poolIndex];
      if tileIndex == InvalidTileIndex {
        return;
      }
      valid.Reset(tileIndex);
      pool[poolIndex] := InvalidTileIndex;
    }

    /** `InvalidateTile(index)`: resets one bit. */
    method InvalidateTile(index: nat)
      requires Valid() && index < valid.Size()
      modifies valid.data
      ensures Valid()
      ensures valid.data[..] == old(valid.data[..])[index := false]
    {
      valid.Reset(index);
    }

    /** `InvalidateTile(column, row)`. */
    method InvalidateTileAt(column: nat, row: nat)
      requires Valid() && CoordToIndex(columns, column, row) < valid.Size()
      modifies valid.data
      ensures Valid()
      ensures valid.data[..] == old(valid.data[..])[CoordToIndex(columns, column, row) := false]
    {
      InvalidateTile(CoordToIndex(columns, column, row));
    }

    /** `InvalidateAllTiles()`: context 0 and every bit reset. */
    method InvalidateAllTiles()
      requires Valid()
      modifies this, valid.data
      ensures Valid() && GeometryUnchanged()
      ensures activeContext == 0 && AllUnset(valid.data[..]) && valid.Size() == old(valid.Size())
    {
      SetActiveContext(0);
      valid.Clear();
    }

    /** `SetYPosition(y)`: the float is truncated into the integer field. */
    method SetYPosition(y: real)
      modifies this
      ensures yPos == Trunc(y)
      ensures columns == old(columns) && rows == old(rows) && scale == old(scale) && activeContext == old(activeContext)
      ensures docWidthTwips == old(docWidthTwips) && docHeightTwips == old(docHeightTwips)
      ensures docWidthPx == old(docWidthPx) && docHeightPx == old(docHeightPx)
      ensures old(Valid()) ==> Valid()
    {
      yPos := Trunc(y);
    }

    /**
     * The first step of `PaintTile` for a tile inside the grid: unless the
     * tile already holds its pool slot, the slot's occupant is invalidated
     * and the slot given to the tile.
     */
    method ClaimSlot(tileIndex: nat)
      requires Valid() && tileIndex < valid.Size()
      modifies valid.data, pool
      ensures Valid()
      ensures pool[..] == old(pool[..])[tileIndex % PoolSize := tileIndex]
      ensures valid.data[..] == Evicted(old(valid.data[..]), old(pool[..]), tileIndex)
    {
      ghost var bits0, pool0 := valid.data[..], pool[..];
      ClaimSlotKeepsResident(bits0, pool0, tileIndex);
      var resident, poolIndex := TileToPoolIndex(tileIndex);
      if !resident {
        InvalidatePoolTile(poolIndex);
        pool[poolIndex] := tileIndex;
      }
      assert pool[..] == pool0[tileIndex % PoolSize := tileIndex];
    }

    /**
     * `PaintTile(cancel_flag, document, tile_index, context_hash)`:
     *  - a stale context hash, or a tile outside the grid, resets every bit
     *    and fails;
     *  - otherwise the tile claims its pool slot, evicting a different
     *    occupant;
     *  - an invalid tile is then rendered unless cancelled: the call
     *    succeeds and marks it valid if the active hash, read again after
     *    rendering (`contextAfterRaster`), still matches, and otherwise
     *    resets every bit and fails;
     *  - a valid or cancelled tile reports its validity.
     */
    method PaintTile(cancelFlag: CancelFlag.Flag?, tileIndex: nat, contextHash: nat, contextAfterRaster: nat)
      returns (painted: bool)
      requires Valid()
      modifies this, valid.data, pool
      ensures Valid() && GeometryUnchanged() && valid.Size() == old(valid.Size())
      ensures old(activeContext) != contextHash || RejectsTile(columns, rows, tileIndex) ==>
        !painted && AllUnset(valid.data[..]) && pool[..] == old(pool[..]) && activeContext == old(activeContext)
      ensures old(activeContext) == contextHash && !RejectsTile(columns, rows, tileIndex) ==>
        pool[..] == old(pool[..])[tileIndex % PoolSize := tileIndex]
      ensures old(activeContext) == contextHash && !RejectsTile(columns, rows, tileIndex) &&
              !CancelFlag.IsCancelled(cancelFlag) && !old(valid.data[tileIndex]) ==>
        activeContext == contextAfterRaster && (painted <==> contextAfterRaster == contextHash) &&
        (painted ==> valid.data[..] == Evicted(old(valid.data[..]), old(pool[..]), tileIndex)[tileIndex := true]) &&
        (!painted ==> AllUnset(valid.data[..]))
      ensures old(activeContext) == contextHash && !RejectsTile(columns, rows, tileIndex) &&
              (CancelFlag.IsCancelled(cancelFlag) || old(valid.data[tileIndex])) ==>
        activeContext == old(activeContext) && painted == old(valid.data[tileIndex]) &&
        valid.data[..] == Evicted(old(valid.data[..]), old(pool[..]), tileIndex)
    {
      if activeContext != contextHash {
        valid.Clear();
        UnsetBitsResident(valid.data[..], pool[..]);
        return false;
      }
      if RejectsTile(columns, rows, tileIndex) {
        valid.Clear();
        UnsetBitsResident(valid.data[..], pool[..]);
        return false;
      }
      ClaimSlot(tileIndex);
      if !CancelFlag.IsCancelled(cancelFlag) && tileIndex < valid.Size() && !valid.data[tileIndex] {
        // the raster call runs here; the active hash may change meanwhile
        activeContext := contextAfterRaster;
        if activeContext != contextHash {
          valid.Clear();
          UnsetBitsResident(valid.data[..], pool[..]);
          return false;
        }
        MarkValidKeepsResident(valid.data[..], pool[..], tileIndex);
        valid.Set(tileIndex);
        return true;
      }
      return tileIndex < valid.Size() && valid.data[tileIndex];
    }

    /** The tile rectangle of a pixel rectangle of the document. */
    function PixelTileRect(rect: RectF): Rect
      reads this
    {
      TileRect(rect, docWidthPx, docHeightPx, TileSizePx as real)
    }

    /** The `DCHECK`s after `TileRect` hold for the pixel grid. */
    lemma PixelTileRectShape(rect: RectF)
      requires GridMatchesDocument()
      ensures TileRectShape(PixelTileRect(rect), columns, rows)
    {
      TwipToPixelMonotone(0.0, docWidthTwips as real, scale);
      TwipToPixelMonotone(0.0, docHeightTwips as real, scale);
      assert columns == TilesFor(docWidthPx) && rows == TilesFor(docHeightPx);
      PixelGridShape(rect, docWidthPx, docHeightPx);
    }

    /**
     * The span of a pixel rectangle: from its top-left tile to its far
     * corner clamped to the last column and row, inside the bitset.
     */
    function PixelRectSpan(rect: RectF): (span: TileRange)
      reads this, valid, valid.data, pool
      requires Valid()
      ensures span.Valid()
      ensures valid.Size() == 0 ==> span == TileRange(0, 0)
      ensures valid.Size() > 0 ==> span.indexEnd < valid.Size()
    {
      PixelRectSpanFits(rect);
      TileRectSpan(columns, rows, PixelTileRect(rect))
    }

    lemma PixelRectSpanFits(rect: RectF)
      requires Valid()
      ensures TileRectShape(PixelTileRect(rect), columns, rows)
      ensures var span := TileRectSpan(columns, rows, PixelTileRect(rect));
        (valid.Size() == 0 ==> span == TileRange(0, 0)) &&
        (valid.Size() > 0 ==> span.indexEnd < valid.Size())
    {
      PixelTileRectShape(rect);
      SpanFitsBitset(columns, rows, PixelTileRect(rect), valid.Size());
    }

    /**
     * `InvalidateTilesInRect(rect, dry_run)`: the span of the rectangle,
     * every bit of which is reset unless `dry_run`.
     */
    method InvalidateTilesInRect(rect: RectF, dryRun: bool) returns (span: TileRange)
      requires Valid()
      requires !dryRun ==> valid.Size() > 0
      modifies valid.data
      ensures Valid()
      ensures span == old(PixelRectSpan(rect))
      ensures dryRun ==> valid.data[..] == old(valid.data[..])
      ensures !dryRun ==> forall t :: 0 <= t < valid.data.Length ==>
        valid.data[t] == (if InRange(span, t) then false else old(valid.data[t]))
    {
      span := PixelRectSpan(rect);
      if !dryRun {
        valid.ResetRange(span.indexStart, span.indexEnd);
        FewerBitsResident(old(valid.data[..]), valid.data[..], pool[..]);
      }
    }

    /** The tile rectangle of a twip rectangle of the document. */
    function TwipTileRect(rectTwips: Rect): Rect
      reads this
      requires scale > 0.0
    {
      TileRect(RectF(rectTwips.x as real, rectTwips.y as real, rectTwips.width as real, rectTwips.height as real),
               docWidthTwips as real, docHeightTwips as real, PixelToTwip(TileSizePx as real, scale))
    }

    /** The `DCHECK`s after `TileRect` hold for the twip grid too. */
    lemma TwipTileRectShape(rectTwips: Rect)
      requires GridMatchesDocument()
      ensures TileRectShape(TwipTileRect(rectTwips), columns, rows)
    {
      var tileTwips := PixelToTwip(256.0, scale);
      assert tileTwips > 0.0 by {
        assert 256.0 / scale > 0.0;
      }
      TileRectWithin(RectF(rectTwips.x as real, rectTwips.y as real, rectTwips.width as real, rectTwips.height as real),
                     docWidthTwips as real, docHeightTwips as real, tileTwips);
      TwipTilesArePixelTiles(docWidthTwips as real, scale);
      TwipTilesArePixelTiles(docHeightTwips as real, scale);
    }

    /** The span of a twip rectangle, inside a non-empty bitset. */
    function TwipRectSpan(rectTwips: Rect): (span: TileRange)
      reads this, valid, valid.data, pool
      requires Valid() && valid.Size() > 0
      ensures span.Valid() && span.indexEnd < valid.Size()
    {
      TwipTileRectShape(rectTwips);
      TileRectSpanWithin(columns, rows, TwipTileRect(rectTwips));
      TileRectSpan(columns, rows, TwipTileRect(rectTwips))
    }

    /** `InvalidateTilesInTwipRect(rect_twips)`: as above, for a rectangle in twips. */
    method InvalidateTilesInTwipRect(rectTwips: Rect) returns (span: TileRange)
      requires Valid() && valid.Size() > 0
      modifies valid.data
      ensures Valid()
      ensures span == old(TwipRectSpan(rectTwips))
      ensures forall t :: 0 <= t < valid.data.Length ==>
        valid.data[t] == (if InRange(span, t) then false else old(valid.data[t]))
    {
      span := TwipRectSpan(rectTwips);
      valid.ResetRange(span.indexStart, span.indexEnd);
      FewerBitsResident(old(valid.data[..]), valid.data[..], pool[..]);
    }

    /** `LimitIndex(y_pos, view_height)` on this grid. */
    function LimitIndexOf(yPosition: int, viewHeight: nat): TileRange
      reads this
    {
      LimitIndex(columns, yPosition, viewHeight)
    }

    /** `NextScrollTileRange(next_y_pos, view_height)` on this grid. */
    function NextScrollTileRangeOf(nextYPos: int, viewHeight: nat): TileRange
      reads this
    {
      NextScrollTileRange(columns, rows, nextYPos, viewHeight)
    }

    /**
     * `InvalidRangesRemaining(tile_ranges)`: the tiles of the given ranges,
     * below the bitset size, that are invalid or not resident, collected
     * into runs and simplified.
     */
    method InvalidRangesRemaining(tileRanges: seq<TileRange>) returns (remaining: seq<TileRange>)
      requires pool.Length == PoolSize && valid.Size() <= U32Max
      ensures remaining == SimplifiedRanges(RemainingRuns([], tileRanges, valid.data[..], pool[..]))
    {
      ghost var bits := valid.data[..];
      ghost var slots := pool[..];
      var result: seq<TileRange> := [];
      var k := 0;
      while k < |tileRanges|
        invariant 0 <= k <= |tileRanges|
        invariant RemainingRuns(result, tileRanges[k..], bits, slots) == RemainingRuns([], tileRanges, bits, slots)
        invariant EndsBelow(result, |bits|)
      {
        var it := tileRanges[k];
        ghost var before := result;
        assert RemainingRuns(result, tileRanges[k..], bits, slots) ==
               RemainingRuns(RunsInRange(result, it.indexStart, it.indexEnd, bits, slots), tileRanges[k + 1..], bits, slots);
        var i := it.indexStart;
        while i <= it.indexEnd && i < valid.Size()
          invariant RunsInRange(result, i, it.indexEnd, bits, slots) == RunsInRange(before, it.indexStart, it.indexEnd, bits, slots)
          invariant EndsBelow(result, |bits|)
          decreases valid.Size() - i
        {
          var resident, poolIndex := TileToPoolIndex(i);
          assert RunsInRange(result, i, it.indexEnd, bits, slots) ==
                 RunsInRange(if MissingAt(bits, slots, i) then AddMissing(result, i) else result, i + 1, it.indexEnd, bits, slots);
          if !valid.data[i] || !resident {
            assert MissingAt(bits, slots, i);
            ghost var added := AddMissing(result, i);
            if result != [] && result[|result| - 1].indexEnd == UnsignedPred(i) {
              result := result[|result| - 1 := TileRange(result[|result| - 1].indexStart, i)];
            } else {
              result := result + [TileRange(i, i)];
            }
            assert result == added;
          } else {
            assert !MissingAt(bits, slots, i);
          }
          i := i + 1;
        }
        assert tileRanges[k..] == [it] + tileRanges[k + 1..];
        k := k + 1;
      }
      remaining := SimplifyRanges(result);
    }

    /**
     * The tiles `PaintToCanvas` visits: the tile rectangle of the visible
     * rectangle moved down by the scroll position, inside the grid.
     */
    function VisibleTileRect(rect: Rect): (tileRect: Rect)
      reads this
      requires GridMatchesDocument()
      ensures TileRectShape(tileRect, columns, rows)
    {
      var offsetRect := RectF(rect.x as real, (rect.y + yPos) as real, rect.width as real, rect.height as real);
      PixelTileRectShape(offsetRect);
      PixelTileRect(offsetRect)
    }

    /** The runs of non-resident tiles among those `PaintToCanvas` visits for `rect`, in scan order. */
    ghost function MissingRanges(rect: Rect): seq<TileRange>
      reads this, pool
      requires GridMatchesDocument() && pool.Length == PoolSize
    {
      var tileRect := VisibleTileRect(rect);
      ScanRows([], columns, tileRect.y, tileRect.Bottom(), tileRect.x, tileRect.Right(), pool[..])
    }

    /**
     * The runs `PaintToCanvas` returns are maximal runs of non-resident
     * tiles, in increasing order, covering exactly the non-resident tiles
     * it visits.
     */
    lemma MissingRangesCorrect(rect: Rect)
      requires GridMatchesDocument() && pool.Length == PoolSize
      ensures var tileRect := VisibleTileRect(rect);
        var missing := MissingRanges(rect);
        AllValid(missing) && Gapped(missing) &&
        Indices(missing) == NotResidentIn(columns, tileRect.y, tileRect.Bottom(), tileRect.x, tileRect.Right(), pool[..])
    {
      PaintToCanvasScanCorrect(columns, rows, VisibleTileRect(rect), pool[..]);
    }

    /**
     * `PaintToCanvas(...)`: the tiles it must draw and the runs of
     * consecutive non-resident tile indices among them, which every return
     * path of the source hands back to the caller.  Drawing is not
     * modelled, and nothing is modified.
     */
    method PaintToCanvas(rect: Rect) returns (missingRanges: seq<TileRange>)
      requires Valid()
      ensures missingRanges == MissingRanges(rect)
    {
      var tileRect := VisibleTileRect(rect);
      missingRanges := ScanMissingTiles(tileRect.y, tileRect.Bottom(), tileRect.x, tileRect.Right());
    }

    /**
     * The dry run of `PaintToCanvas`: row by row, column by column, each
     * tile not resident in its pool slot extends the last run when it
     * directly follows it and starts a new run otherwise.
     */
    method ScanMissingTiles(rowStart: nat, rowEnd: nat, columnStart: nat, columnEnd: nat) returns (missingRanges: seq<TileRange>)
      requires pool.Length == PoolSize
      ensures missingRanges == ScanRows([], columns, rowStart, rowEnd, columnStart, columnEnd, pool[..])
    {
      ghost var slots := pool[..];
      missingRanges := [];
      var row := rowStart;
      while row < rowEnd
        invariant ScanRows(missingRanges, columns, row, rowEnd, columnStart, columnEnd, slots) ==
                  ScanRows([], columns, rowStart, rowEnd, columnStart, columnEnd, slots)
      {
        ghost var before := missingRanges;
        assert ScanRows(before, columns, row, rowEnd, columnStart, columnEnd, slots) ==
               ScanRows(ScanColumns(before, columns, row, columnStart, columnEnd, slots), columns, row + 1, rowEnd, columnStart, columnEnd, slots);
        var column := columnStart;
        while column < columnEnd
          invariant ScanColumns(missingRanges, columns, row, column, columnEnd, slots) ==
                    ScanColumns(before, columns, row, columnStart, columnEnd, slots)
        {
          var tileIndex := CoordToIndex(columns, column, row);
          var resident, poolIndex := TileToPoolIndex(tileIndex);
          assert ScanColumns(missingRanges, columns, row, column, columnEnd, slots) ==
                 ScanColumns(if resident then missingRanges else AddMissing(missingRanges, tileIndex), columns, row, column + 1, columnEnd, slots);
          if !resident {
            ghost var added := AddMissing(missingRanges, tileIndex);
            if missingRanges == [] || missingRanges[|missingRanges| - 1].indexEnd + 1 != tileIndex {
              missingRanges := missingRanges + [TileRange(tileIndex, tileIndex)];
            } else {
              missingRanges := missingRanges[|missingRanges| - 1 := TileRange(missingRanges[|missingRanges| - 1].indexStart, tileIndex)];
            }
            assert missingRanges == added;
          }
          column := column + 1;
        }
        row := row + 1;
      }
    }
  }

  /**
   * What `InvalidRangesRemaining` returns: valid, strictly separated ranges
   * covering exactly the missing tiles inside the given ranges.
   */
  lemma InvalidRangesRemainingCorrect(tileRanges: seq<TileRange>, bits: seq<bool>, pool: seq<nat>)
    ensures var out := SimplifiedRanges(RemainingRuns([], tileRanges, bits, pool));
      AllValid(out) && Separated(out) && Indices(out) == MissingIndices(tileRanges, bits, pool)
  {
    var runs := RemainingRuns([], tileRanges, bits, pool);
    RemainingRunsIndices([], tileRanges, bits, pool);
    SimplifiedRangesCorrect(runs);
  }

  /**
   * What the scan of `PaintToCanvas` returns on a tile rectangle inside the
   * grid: maximal runs of non-resident tiles, in increasing order, covering
   * exactly the non-resident tiles of the rectangle.
   */
  lemma PaintToCanvasScanCorrect(columns: nat, rows: nat, tileRect: Rect, pool: seq<nat>)
    requires |pool| == PoolSize && TileRectShape(tileRect, columns, rows)
    ensures var out := ScanRows([], columns, tileRect.y, tileRect.Bottom(), tileRect.x, tileRect.Right(), pool);
      AllValid(out) && Gapped(out) &&
      Indices(out) == NotResidentIn(columns, tileRect.y, tileRect.Bottom(), tileRect.x, tileRect.Right(), pool)
  {
    ScanRowsCorrect([], columns, tileRect.y, tileRect.Bottom(), tileRect.x, tileRect.Right(), pool);
  }
}
