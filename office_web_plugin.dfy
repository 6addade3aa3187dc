/**
 * The geometry glue of the office web plugin
 * (src/electron/office/office_web_plugin.cc): how zoom, device scale and
 * browser viewport zoom combine into the scale tiles are painted at, how a
 * scroll, a zoom, a viewport change or a tile invalidation from
 * LibreOffice turns into tile invalidations and paint requests, and how a
 * mouse event is translated into a LibreOffice mouse event.
 *
 * The plugin owns a `TileBuffer`, which it changes in place.  What it asks
 * of `paint_manager_` (`SchedulePaint` and `ScheduleNextPaint`) is recorded,
 * oldest first, as the calls it makes; what the paint manager does with
 * them is the subject of the PaintManagers module.  Posting to the task
 * runner, the Blink container, the canvas and the V8 wrapper are not
 * modelled; a container invalidation is counted, and a mouse event that
 * would be posted is returned instead.
 */
module OfficeWebPlugins {
  import opened Units
  import opened TileRanges
  import opened TileGrid
  import opened TileBuffers
  import opened PaintManagers
  import CancelFlag
  import opened DocumentHolders
  import DocumentClients
  import LokCallback
  import opened OfficeKeys

  // ---------------------------------------------------------------------
  // Scales and sizes

  /** `TotalScale()`: the zoom, the device scale and the viewport zoom multiplied. */
  function TotalScaleOf(zoom: real, deviceScale: real, viewportZoom: real): (s: real)
    ensures zoom > 0.0 && deviceScale > 0.0 && viewportZoom > 0.0 ==> s > 0.0
    ensures viewportZoom == 1.0 && deviceScale == 1.0 ==> s == zoom
  {
    PositiveProduct(zoom, deviceScale);
    PositiveProduct(zoom * deviceScale, viewportZoom);
    zoom * deviceScale * viewportZoom
  }

  lemma PositiveProduct(a: real, b: real)
    ensures a > 0.0 && b > 0.0 ==> a * b > 0.0
    ensures a >= 0.0 && b >= 0.0 ==> a * b >= 0.0
  {
  }

  /** A non-negative `float` stored into an `int` or an `unsigned int`: truncated toward zero. */
  function Truncated(x: real): (n: nat)
    requires x >= 0.0
    ensures n as real <= x < n as real + 1.0
  {
    Trunc(x)
  }

  /** The twip extents of a grid `Resize` can build at `scale` within the 32-bit tile counters. */
  predicate SizeFits(widthTwips: int, heightTwips: int, scale: real)
  {
    widthTwips >= 0 && heightTwips >= 0 && scale > 0.0 && GridTiles(widthTwips, heightTwips, scale) < U32Max
  }

  /**
   * `GetDocumentPixelSize()`: the document's twip extent at `scale`,
   * rounded up; `gfx::Size` turns a negative extent into 0.
   */
  function DocumentPixelExtent(twips: int, scale: real): (px: nat)
    ensures TwipToPixel(twips as real, scale) <= px as real
    ensures px > 0 ==> px as real < TwipToPixel(twips as real, scale) + 1.0
  {
    var c := Ceil(TwipToPixel(twips as real, scale));
    if c < 0 then 0 else c
  }

  /**
   * The `available_area_` of `OnGeometryChanged`: the plugin's size at the
   * origin, narrowed to the document's pixel width and shortened to its
   * pixel height.  Each side is the smaller of the two.
   */
  function AvailableArea(pluginWidth: nat, pluginHeight: nat, docWidth: nat, docHeight: nat): (area: Rect)
    ensures area.x == 0 && area.y == 0
    ensures 0 <= area.width <= pluginWidth && area.width <= docWidth
    ensures area.width == pluginWidth || area.width == docWidth
    ensures 0 <= area.height <= pluginHeight && area.height <= docHeight
    ensures area.height == pluginHeight || area.height == docHeight
  {
    var width := if docWidth < pluginWidth then docWidth else pluginWidth;
    var height := if docHeight < pluginHeight then docHeight else pluginHeight;
    Rect(0, 0, width, height)
  }

  /** `gfx::ScaleToEnclosingRect(available_area_, kTwipPerPx)`: exact for an integer rectangle. */
  function TwipArea(area: Rect): (twips: Rect)
    ensures twips.width == area.width * 15 && twips.height == area.height * 15
    ensures twips.x == area.x * 15 && twips.y == area.y * 15
  {
    Rect(area.x * 15, area.y * 15, area.width * 15, area.height * 15)
  }

  // ---------------------------------------------------------------------
  // Scrolling and zooming

  /** The largest scroll position of `UpdateScroll`: the document below one view height, never negative. */
  function MaxScroll(docHeightPx: real, viewHeight: real): (maxY: real)
    ensures maxY >= 0.0 && maxY >= docHeightPx - viewHeight
    ensures maxY == 0.0 || maxY == docHeightPx - viewHeight
  {
    if docHeightPx - viewHeight > 0.0 then docHeightPx - viewHeight else 0.0
  }

  /**
   * The position `UpdateScroll` scrolls to, in device pixels: the requested
   * position clamped to `[0, maxY]`, times the device scale.
   */
  function ScrollTarget(y: int, maxY: real, deviceScale: real): (scaled: real)
    requires maxY >= 0.0 && deviceScale > 0.0
    ensures 0.0 <= scaled <= maxY * deviceScale
    ensures y <= 0 ==> scaled == 0.0
    ensures 0 <= y && y as real <= maxY ==> scaled == y as real * deviceScale
    ensures y as real >= maxY ==> scaled == maxY * deviceScale
  {
    var clamped := if (y as real) < 0.0 then 0.0 else if maxY < y as real then maxY else y as real;
    assert 0.0 <= clamped <= maxY;
    MonotoneScale(clamped, maxY, deviceScale);
    PositiveProduct(clamped, deviceScale);
    clamped * deviceScale
  }

  lemma MonotoneScale(a: real, b: real, s: real)
    requires a <= b && s > 0.0
    ensures a * s <= b * s
  {
  }

  /** `SetZoom` ignores a change of less than 0.0001. */
  predicate ZoomChanged(oldZoom: real, newZoom: real)
  {
    Abs(oldZoom - newZoom) >= 0.0001
  }

  /**
   * The scroll position `SetZoom` keeps: the old one scaled by the ratio of
   * the zooms, truncated into the integer field; within one pixel of the
   * exact value, never negative for a non-negative position, and the same
   * position when the zoom stays.
   */
  function ZoomedScroll(scrollY: int, oldZoom: real, newZoom: real): (y: int)
    requires oldZoom > 0.0 && newZoom > 0.0
    ensures Abs(y as real - newZoom / oldZoom * scrollY as real) < 1.0
    ensures scrollY >= 0 ==> y >= 0
    ensures newZoom == oldZoom ==> y == scrollY
  {
    var ratio := newZoom / oldZoom;
    assert ratio > 0.0;
    assert newZoom == oldZoom ==> ratio * scrollY as real == scrollY as real;
    PositiveProduct(ratio, scrollY as real);
    Trunc(ratio * scrollY as real)
  }

  // ---------------------------------------------------------------------
  // Clipping paint requests to the visible window

  /**
   * The clip `HandleInvalidateTiles` and `ScheduleAvailableAreaPaint`
   * apply to an invalidated span before scheduling it: nothing when the
   * span misses the window `LimitIndex` gives, otherwise one valid range
   * holding exactly the span's tiles inside the window.
   */
  lemma ClipToWindow(span: TileRange, limit: TileRange)
    requires span.Valid() && limit.Valid()
    ensures ClipOne(span, limit) == [] <==> RangeSet(span) * RangeSet(limit) == {}
    ensures AllValid(ClipOne(span, limit)) && |ClipOne(span, limit)| <= 1
    ensures Indices(ClipOne(span, limit)) == RangeSet(span) * RangeSet(limit)
  {
    ClipOneIndices(span, limit);
    var clipped := ClipOne(span, limit);
    if clipped != [] {
      var first := clipped[0].indexStart;
      assert InRange(clipped[0], first);
      assert first in RangeSet(clipped[0]);
      assert first in RangeSet(span) * RangeSet(limit);
    }
  }

  /** A call the plugin makes on `paint_manager_`. */
  datatype PaintCall =
    | SchedulePaintCall(task: TaskShape)
    | ScheduleNextPaintCall(tileRanges: seq<TileRange>)

  /** The request a clipped span makes: none when it misses the window, else one with the clipped range. */
  function ClippedRequest(document: DocumentRef, yPos: int, viewHeight: int, scale: real, fullPaint: bool,
                          span: TileRange, limit: TileRange): (request: seq<PaintCall>)
  {
    var clipped := ClipOne(span, limit);
    if clipped == [] then [] else [SchedulePaintCall(TaskShape(document, yPos, viewHeight, scale, fullPaint, clipped))]
  }

  /** A clipped request paints only tiles of the span inside the window, and every one of them. */
  lemma ClippedRequestTiles(document: DocumentRef, yPos: int, viewHeight: int, scale: real, fullPaint: bool,
                            span: TileRange, limit: TileRange)
    requires span.Valid() && limit.Valid()
    ensures var request := ClippedRequest(document, yPos, viewHeight, scale, fullPaint, span, limit);
      |request| <= 1 &&
      (request == [] <==> RangeSet(span) * RangeSet(limit) == {}) &&
      (request != [] ==>
        request[0].SchedulePaintCall? && request[0].task.document == document &&
        request[0].task.fullPaint == fullPaint && request[0].task.yPos == yPos &&
        AllValid(request[0].task.tileRanges) &&
        Indices(request[0].task.tileRanges) == RangeSet(span) * RangeSet(limit))
  {
    ClipToWindow(span, limit);
  }

  /** The view height a plugin or area height of `height` CSS-scaled pixels gives in device pixels, truncated. */
  function DeviceHeight(height: int, deviceScale: real): (h: nat)
    requires height >= 0 && deviceScale > 0.0
    ensures h as real <= height as real * deviceScale < h as real + 1.0
  {
    PositiveProduct(height as real, deviceScale);
    Truncated(height as real * deviceScale)
  }

  /** `available_area_` moved down by the scroll position and scaled into device pixels. */
  function OffsetAreaOf(area: Rect, scrollY: int, deviceScale: real): (offset: RectF)
    ensures offset.y == (area.y + scrollY) as real * deviceScale
    ensures offset.height == area.height as real * deviceScale
  {
    RectF(area.x as real * deviceScale, (area.y + scrollY) as real * deviceScale,
          area.width as real * deviceScale, area.height as real * deviceScale)
  }

  // ---------------------------------------------------------------------
  // Mouse events

  /** The Blink mouse event types `HandleMouseEvent` tells apart. */
  datatype MouseEventType = MouseDown | MouseUp | MouseMove | OtherMouseEvent

  /** `LibreOfficeKitMouseEventType`. */
  datatype LokMouseEvent = ButtonDown | ButtonUp | Move

  /** The LibreOffice event of a Blink mouse event; any other event is not handled. */
  function LokMouseEventOf(t: MouseEventType): (e: LokCallback.Option<LokMouseEvent>)
    ensures e.None? <==> t == OtherMouseEvent
    ensures e.Some? ==> (e.value == ButtonDown <==> t == MouseDown)
  {
    match t
    case MouseDown => LokCallback.Some(ButtonDown)
    case MouseUp => LokCallback.Some(ButtonUp)
    case MouseMove => LokCallback.Some(Move)
    case OtherMouseEvent => LokCallback.None
  }

  /** The button mask `HandleMouseEvent` sends: left 1, middle 2, right 4. */
  function MouseButtons(modifiers: Word): (buttons: nat)
    ensures buttons < 8
    ensures buttons % 2 == 1 <==> modifiers & LeftButtonDown != 0
    ensures buttons / 2 % 2 == 1 <==> modifiers & MiddleButtonDown != 0
    ensures buttons / 4 == 1 <==> modifiers & RightButtonDown != 0
    ensures buttons > 0 <==> modifiers & (LeftButtonDown | MiddleButtonDown | RightButtonDown) != 0
  {
    (if modifiers & LeftButtonDown != 0 then 1 else 0) +
    (if modifiers & MiddleButtonDown != 0 then 2 else 0) +
    (if modifiers & RightButtonDown != 0 then 4 else 0)
  }

  /** `gfx::Rect::Contains(point)`: the far edges are outside. */
  predicate Contains(r: Rect, x: int, y: int)
  {
    r.x <= x < r.Right() && r.y <= y < r.Bottom()
  }

  /**
   * The document position of a pointer: moved down by the scroll position,
   * scaled by `kTwipPerPx / TotalScale()` and rounded; within half a twip
   * of the exact pixel-to-twip conversion.
   */
  function PointerTwips(x: real, y: real, scrollY: int, scale: real): (p: (int, int))
    requires scale > 0.0
    ensures Abs(p.0 as real - PixelToTwip(x, scale)) <= 0.5
    ensures Abs(p.1 as real - PixelToTwip(y + scrollY as real, scale)) <= 0.5
  {
    var factor := TwipPerPx / scale;
    assert x * factor == PixelToTwip(x, scale);
    assert (y + scrollY as real) * factor == PixelToTwip(y + scrollY as real, scale);
    (Round(x * factor), Round((y + scrollY as real) * factor))
  }

  /** The `postMouseEvent` call `HandleMouseEvent` posts. */
  datatype MousePost = MousePost(event: LokMouseEvent, x: int, y: int, clickCount: int, buttons: nat, modifiers: Word)

  /** The view height in CSS pixels `UpdateScroll` works with. */
  function CssHeight(height: int, deviceScale: real, viewportZoom: real): real
    requires deviceScale > 0.0 && viewportZoom > 0.0
  {
    height as real / deviceScale / viewportZoom
  }

  /** The view height in device pixels `UpdateScroll` hands on: the CSS height times the device scale, truncated. */
  function ScrollHeight(height: int, deviceScale: real, viewportZoom: real): (h: nat)
    requires height >= 0 && deviceScale > 0.0 && viewportZoom > 0.0
    ensures h as real <= height as real / viewportZoom < h as real + 1.0
  {
    var css := CssHeight(height, deviceScale, viewportZoom);
    assert css * deviceScale == height as real / viewportZoom;
    PositiveProduct(height as real, 1.0 / viewportZoom);
    Truncated(css * deviceScale)
  }

  /**
   * The geometry `OnGeometryChanged` leaves with a client, at total scale
   * `scale`: the available area is the plugin's size clamped to the
   * document's pixel size, and the buffer is regridded at `scale` when the
   * viewport zoom or the device scale changed (`rescaled`) and `ResetScale`
   * finds the change from `oldScale` large enough.
   */
  predicate GeometryOf(pluginRect: Rect, scale: real, widthTwips: int, heightTwips: int, area: Rect,
                       areaTwips: Rect, bufferScale: real, rescaled: bool, oldScale: real)
  {
    pluginRect.width >= 0 && pluginRect.height >= 0 &&
    area == AvailableArea(pluginRect.width, pluginRect.height,
                          DocumentPixelExtent(widthTwips, scale), DocumentPixelExtent(heightTwips, scale)) &&
    areaTwips == TwipArea(area) &&
    bufferScale == (if rescaled && Abs(scale - oldScale) > 0.001 then scale else oldScale)
  }

  // ---------------------------------------------------------------------
  // The plugin

  class OfficeWebPlugin {
    /** `css_plugin_rect_`. */
    var cssPluginRect: Rect
    /** `plugin_rect_`, in device pixels. */
    var pluginRect: Rect
    /** `available_area_`, in pixels. */
    var availableArea: Rect
    /** `available_area_twips_`. */
    var availableAreaTwips: Rect
    /** `viewport_zoom_`. */
    var viewportZoom: real
    /** `device_scale_`. */
    var deviceScale: real
    /** `zoom_`. */
    var zoom: real
    /** `old_zoom_`. */
    var oldZoom: real
    /** `first_paint_`. */
    var firstPaint: bool
    /** `scale_pending_`. */
    var scalePending: bool
    /** `scroll_y_position_`, in device pixels. */
    var scrollY: int
    /** `stop_scrolling_`. */
    var stopScrolling: bool
    /** `document_`, with the view paint requests are made for. */
    var document: DocumentRef
    /** `document_client_`. */
    var client: DocumentClients.DocumentClient?
    /** `view_id_`. */
    var viewId: int
    /** `tile_buffer_`. */
    const tileBuffer: TileBuffer
    /** The calls made on `paint_manager_`, oldest first. */
    var paintCalls: seq<PaintCall>
    /** How many `InvalidatePluginContainer` tasks were posted. */
    var containerInvalidations: nat
    /** `paint_cancel_flag_`. */
    var paintCancelFlag: CancelFlag.Flag?

    /**
     * The buffer keeps its invariant, the scales are positive, rectangles
     * have no negative side, a view implies a mounted client, and a mounted
     * client implies a non-empty bitset.
     */
    ghost predicate Valid()
      reads this, tileBuffer, tileBuffer.valid, tileBuffer.valid.data, tileBuffer.pool
    {
      tileBuffer.Valid() && Settled() && (client != null ==> tileBuffer.valid.Size() > 0)
    }

    /** The plugin's own part of `Valid()`. */
    ghost predicate Settled()
      reads this
    {
      zoom > 0.0 && oldZoom > 0.0 && deviceScale > 0.0 && viewportZoom > 0.0 &&
      pluginRect.width >= 0 && pluginRect.height >= 0 &&
      availableArea.x == 0 && availableArea.y == 0 && availableArea.width >= 0 && availableArea.height >= 0 &&
      (viewId != -1 ==> client != null)
    }

    /** The fields only mounting, viewport and zoom changes set are as before. */
    twostate predicate SettingsUnchanged()
      reads this
    {
      cssPluginRect == old(cssPluginRect) && pluginRect == old(pluginRect) &&
      availableArea == old(availableArea) && availableAreaTwips == old(availableAreaTwips) &&
      viewportZoom == old(viewportZoom) && deviceScale == old(deviceScale) &&
      zoom == old(zoom) && oldZoom == old(oldZoom) && stopScrolling == old(stopScrolling) &&
      document == old(document) && client == old(client) && viewId == old(viewId) &&
      containerInvalidations == old(containerInvalidations)
    }

    /** Every field of the plugin is as before, the calls on the paint manager aside. */
    twostate predicate Unchanged()
      reads this
    {
      SettingsUnchanged() && firstPaint == old(firstPaint) && scalePending == old(scalePending) &&
      scrollY == old(scrollY) && paintCancelFlag == old(paintCancelFlag)
    }

    /** `calls` are the calls made on the paint manager since the old state. */
    twostate predicate Requested(calls: seq<PaintCall>)
      reads this
    {
      paintCalls == old(paintCalls) + calls
    }

    /** The bits of `span` were reset and no other bit changed. */
    twostate predicate BitsReset(span: TileRange)
      reads tileBuffer.valid, tileBuffer.valid.data
    {
      tileBuffer.valid.data == old(tileBuffer.valid.data) &&
      tileBuffer.valid.data[..] == WithRangeReset(old(tileBuffer.valid.data[..]), span)
    }

    /** No bit changed. */
    twostate predicate BitsKept()
      reads tileBuffer.valid, tileBuffer.valid.data
    {
      tileBuffer.valid.data == old(tileBuffer.valid.data) &&
      tileBuffer.valid.data[..] == old(tileBuffer.valid.data[..])
    }

    /** The buffer is as before: its grid, scale, bits, pool slots and active context. */
    twostate predicate BufferKept()
      reads tileBuffer, tileBuffer.valid, tileBuffer.valid.data, tileBuffer.pool
    {
      tileBuffer.GeometryUnchanged() && BitsKept() &&
      tileBuffer.pool[..] == old(tileBuffer.pool[..]) && tileBuffer.activeContext == old(tileBuffer.activeContext)
    }

    /** As `BufferKept`, except that the bits of `span` were reset. */
    twostate predicate BufferKeptBut(span: TileRange)
      reads tileBuffer, tileBuffer.valid, tileBuffer.valid.data, tileBuffer.pool
    {
      tileBuffer.GeometryUnchanged() && BitsReset(span) &&
      tileBuffer.pool[..] == old(tileBuffer.pool[..]) && tileBuffer.activeContext == old(tileBuffer.activeContext)
    }

    /**
     * The buffer was rebuilt at `newScale` for the same document: one bit per
     * tile and one more, every bit unset, every pool slot free, context 0.
     */
    twostate predicate BufferRebuilt(newScale: real)
      reads tileBuffer, tileBuffer.valid, tileBuffer.valid.data, tileBuffer.pool
    {
      tileBuffer.scale == newScale && tileBuffer.activeContext == 0 && tileBuffer.yPos == old(tileBuffer.yPos) &&
      tileBuffer.docWidthTwips == old(tileBuffer.docWidthTwips) &&
      tileBuffer.docHeightTwips == old(tileBuffer.docHeightTwips) &&
      tileBuffer.valid.Size() == tileBuffer.columns * tileBuffer.rows + 1 && AllUnset(tileBuffer.valid.data[..]) &&
      tileBuffer.pool.Length == PoolSize &&
      forall slot :: 0 <= slot < tileBuffer.pool.Length ==> tileBuffer.pool[slot] == InvalidTileIndex
    }

    /**
     * The effect of `ResetScale(newScale)` when `rescaled` says it ran: a
     * change of more than 0.001 rebuilds the buffer, otherwise it is kept.
     */
    twostate predicate ScaleReset(rescaled: bool, newScale: real)
      reads tileBuffer, tileBuffer.valid, tileBuffer.valid.data, tileBuffer.pool
    {
      if rescaled && Abs(newScale - old(tileBuffer.scale)) > 0.001 then BufferRebuilt(newScale) else BufferKept()
    }

    /** `ScaleReset` followed by resetting the bits of `span`, which leaves a rebuilt buffer as it is. */
    twostate predicate ScaleResetThenBitsReset(rescaled: bool, newScale: real, span: TileRange)
      reads tileBuffer, tileBuffer.valid, tileBuffer.valid.data, tileBuffer.pool
    {
      if rescaled && Abs(newScale - old(tileBuffer.scale)) > 0.001 then BufferRebuilt(newScale)
      else BufferKeptBut(span)
    }

    /** `OfficeWebPlugin(params, render_frame)`: the defaults of the header and an empty buffer. */
    constructor ()
      ensures Valid() && fresh(tileBuffer)
      ensures zoom == 1.0 && oldZoom == 1.0 && deviceScale == 1.0 && viewportZoom == 1.0
      ensures firstPaint && !scalePending && scrollY == 0 && !stopScrolling
      ensures viewId == -1 && client == null && document.holder == null && paintCancelFlag == null
      ensures paintCalls == [] && containerInvalidations == 0
      ensures tileBuffer.valid.Size() == 0 && tileBuffer.columns == 0 && tileBuffer.rows == 0
    {
      cssPluginRect := Rect(0, 0, 0, 0);
      pluginRect := Rect(0, 0, 0, 0);
      availableArea := Rect(0, 0, 0, 0);
      availableAreaTwips := Rect(0, 0, 0, 0);
      viewportZoom := 1.0;
      deviceScale := 1.0;
      zoom := 1.0;
      oldZoom := 1.0;
      firstPaint := true;
      scalePending := false;
      scrollY := 0;
      stopScrolling := false;
      document := DocumentRef(null, -1);
      client := null;
      viewId := -1;
      tileBuffer := new TileBuffer();
      paintCalls := [];
      containerInvalidations := 0;
      paintCancelFlag := null;
    }

    /** `TotalScale()`. */
    function TotalScale(): (s: real)
      reads this
    {
      TotalScaleOf(zoom, deviceScale, viewportZoom)
    }

    /** The buffer's document can be regridded at `scale`. */
    ghost predicate ScaleFits(scale: real)
      reads this, tileBuffer
    {
      SizeFits(tileBuffer.docWidthTwips, tileBuffer.docHeightTwips, scale)
    }

    /** `available_area_` moved down by the scroll position and scaled into device pixels. */
    function OffsetArea(): (area: RectF)
      reads this
    {
      OffsetAreaOf(availableArea, scrollY, deviceScale)
    }

    /** The view height `ScheduleAvailableAreaPaint` hands on: the offset area's height, truncated. */
    function AreaViewHeight(): (h: nat)
      reads this
      requires availableArea.height >= 0 && deviceScale > 0.0
    {
      DeviceHeight(availableArea.height, deviceScale)
    }

    /** The tiles of the offset area, from its top-left tile to its far corner clamped to the grid. */
    ghost function AreaSpan(): (span: TileRange)
      reads this, tileBuffer
      requires tileBuffer.GridMatchesDocument()
      ensures span.Valid()
    {
      tileBuffer.PixelTileRectShape(OffsetArea());
      TileRectSpan(tileBuffer.columns, tileBuffer.rows, tileBuffer.PixelTileRect(OffsetArea()))
    }

    /** The request `ScheduleAvailableAreaPaint` makes for the tiles of the offset area. */
    ghost function AreaRequest(): seq<PaintCall>
      reads this, tileBuffer
      requires tileBuffer.GridMatchesDocument() && availableArea.height >= 0 && deviceScale > 0.0
    {
      ClippedRequest(document, scrollY, AreaViewHeight(), TotalScale(), true,
                     AreaSpan(), tileBuffer.LimitIndexOf(scrollY, AreaViewHeight()))
    }

    /**
     * The tail shared by `ScheduleAvailableAreaPaint` and
     * `HandleInvalidateTiles`: a span that misses the view's window is not
     * scheduled, otherwise its part inside the window is.
     */
    method RequestClipped(viewHeight: nat, fullPaint: bool, span: TileRange)
      requires span.Valid()
      modifies this
      ensures Unchanged()
      ensures Requested(ClippedRequest(document, scrollY, viewHeight, TotalScale(), fullPaint, span,
                                       tileBuffer.LimitIndexOf(scrollY, viewHeight)))
    {
      var limit := tileBuffer.LimitIndexOf(scrollY, viewHeight);
      // avoid scheduling out of bounds paints
      if span.indexStart > limit.indexEnd || span.indexEnd < limit.indexStart {
        return;
      }
      var range := TileRange(MaxNat(span.indexStart, limit.indexStart), MinNat(span.indexEnd, limit.indexEnd));
      paintCalls := paintCalls + [SchedulePaintCall(TaskShape(document, scrollY, viewHeight, TotalScale(), fullPaint, [range]))];
    }

    /**
     * `ScheduleAvailableAreaPaint()`: resets every tile of the offset area,
     * also those out of view, and requests a full paint of the part of
     * them inside the view's window.
     */
    method ScheduleAvailableAreaPaint()
      requires Valid() && client != null
      modifies this, tileBuffer.valid.data
      ensures Valid() && Unchanged()
      ensures BitsReset(AreaSpan()) && Requested(AreaRequest())
    {
      var area := OffsetArea();
      var viewHeight := AreaViewHeight();
      var span := tileBuffer.InvalidateTilesInRect(area, false);
      RequestClipped(viewHeight, true, span);
    }

    /** The view height in device pixels `HandleInvalidateTiles` hands on. */
    function DeviceViewHeight(): (h: nat)
      reads this
      requires pluginRect.height >= 0 && deviceScale > 0.0
    {
      DeviceHeight(pluginRect.height, deviceScale)
    }

    /** The tiles of a twip rectangle LibreOffice invalidated. */
    ghost function DirtySpan(rect: Rect): (span: TileRange)
      reads tileBuffer
      requires tileBuffer.GridMatchesDocument()
      ensures span.Valid()
    {
      tileBuffer.TwipTileRectShape(rect);
      TileRectSpan(tileBuffer.columns, tileBuffer.rows, tileBuffer.TwipTileRect(rect))
    }

    /** The request `HandleInvalidateTiles` makes for a non-empty twip rectangle. */
    ghost function DirtyRequest(rect: Rect): seq<PaintCall>
      reads this, tileBuffer
      requires tileBuffer.GridMatchesDocument() && pluginRect.height >= 0 && deviceScale > 0.0
    {
      ClippedRequest(document, scrollY, DeviceViewHeight(), TotalScale(), false,
                     DirtySpan(rect), tileBuffer.LimitIndexOf(scrollY, DeviceViewHeight()))
    }

    /**
     * `HandleInvalidateTiles(payload)`: nothing while unmounted; `"EMPTY"`
     * paints the whole available area; otherwise the payload's twip
     * rectangle, unless empty, has its tiles reset and the part of them
     * inside the view's window requested, not as a full paint.
     */
    method HandleInvalidateTiles(payload: string)
      requires Valid()
      modifies this, tileBuffer.valid.data
      ensures Valid() && Unchanged()
      ensures viewId == -1 ==> BitsKept() && Requested([])
      ensures viewId != -1 && payload == "EMPTY" ==> BitsReset(AreaSpan()) && Requested(AreaRequest())
      ensures viewId != -1 && payload != "EMPTY" ==>
        var rect := LokCallback.RectFrom(payload, 0).0;
        if rect.width <= 0 || rect.height <= 0 then BitsKept() && Requested([])
        else BitsReset(DirtySpan(rect)) && Requested(DirtyRequest(rect))
    {
      // no view: nothing is shown yet
      if viewId == -1 {
        return;
      }
      if payload == "EMPTY" {
        ScheduleAvailableAreaPaint();
        return;
      }
      var dirtyRect, _ := LokCallback.ParseRect(payload, 0);
      // `gfx::Rect` clamps a negative side to 0, so either side being at most 0 is empty
      if dirtyRect.width <= 0 || dirtyRect.height <= 0 {
        return;
      }
      var viewHeight := DeviceViewHeight();
      var span := tileBuffer.InvalidateTilesInTwipRect(dirtyRect);
      RequestClipped(viewHeight, false, span);
    }

    /** The scroll target of `UpdateScroll` for a requested position, with a client mounted. */
    function ScrollTargetFor(y: int): (scaled: real)
      reads this, client
      requires client != null && deviceScale > 0.0 && viewportZoom > 0.0
    {
      ScrollTarget(y, MaxScroll(TwipToPixel(client.heightTwips as real, TotalScale()),
                                CssHeight(pluginRect.height, deviceScale, viewportZoom)), deviceScale)
    }

    /** The view height in device pixels `UpdateScroll` hands on. */
    function ScrollViewHeight(): (h: nat)
      reads this
      requires pluginRect.height >= 0 && deviceScale > 0.0 && viewportZoom > 0.0
    {
      ScrollHeight(pluginRect.height, deviceScale, viewportZoom)
    }

    /**
     * `UpdateScroll(y_position)`: without a client, or while scrolling is
     * stopped, nothing; otherwise the clamped target becomes the scroll
     * position of the plugin and the buffer, the paint cancel flag is
     * cancelled and replaced, and the tiles around the new position are
     * requested.
     */
    method UpdateScroll(y: int)
      requires Valid()
      modifies this, tileBuffer, paintCancelFlag
      ensures Valid() && SettingsUnchanged() && firstPaint == old(firstPaint) && scalePending == old(scalePending)
      ensures tileBuffer.columns == old(tileBuffer.columns) && tileBuffer.rows == old(tileBuffer.rows)
      ensures tileBuffer.scale == old(tileBuffer.scale)
      ensures old(client) == null || old(stopScrolling) ==>
        scrollY == old(scrollY) && paintCancelFlag == old(paintCancelFlag) &&
        tileBuffer.yPos == old(tileBuffer.yPos) && Requested([])
      ensures old(client) != null && !old(stopScrolling) ==>
        var scaled := old(ScrollTargetFor(y));
        scrollY == Trunc(scaled) && tileBuffer.yPos == Trunc(scaled) &&
        (old(paintCancelFlag) != null ==> old(paintCancelFlag).isSet) &&
        paintCancelFlag != null && fresh(paintCancelFlag) && !paintCancelFlag.isSet &&
        Requested([SchedulePaintCall(TaskShape(document, scrollY, ScrollViewHeight(), TotalScale(), false,
                                               [tileBuffer.NextScrollTileRangeOf(scrollY, ScrollViewHeight())]))])
    {
      if client == null || stopScrolling {
        return;
      }
      var scaled := ScrollTargetFor(y);
      scrollY := Trunc(scaled);
      paintCancelFlag := CancelFlag.CancelAndReset(paintCancelFlag);
      var viewHeight := ScrollViewHeight();
      var range := tileBuffer.NextScrollTileRangeOf(scrollY, viewHeight);
      tileBuffer.SetYPosition(scaled);
      paintCalls := paintCalls + [SchedulePaintCall(TaskShape(document, scrollY, viewHeight, TotalScale(), false, [range]))];
    }

    /**
     * `SetZoom(zoom)`: a change below 0.0001 is ignored; otherwise the old
     * zoom is kept, the scroll position follows the zoom, and a mounted
     * view marks the scale pending and invalidates the container.
     */
    method SetZoom(newZoom: real)
      requires Valid() && newZoom > 0.0
      modifies this
      ensures Valid() && paintCalls == old(paintCalls)
      ensures !ZoomChanged(old(zoom), newZoom) ==> Unchanged()
      ensures ZoomChanged(old(zoom), newZoom) ==>
        zoom == newZoom && oldZoom == old(zoom) && scrollY == ZoomedScroll(old(scrollY), old(zoom), newZoom) &&
        (scalePending <==> old(scalePending) || (client != null && viewId != -1)) &&
        containerInvalidations == old(containerInvalidations) + (if client != null && viewId != -1 then 1 else 0)
      ensures cssPluginRect == old(cssPluginRect) && pluginRect == old(pluginRect) && availableArea == old(availableArea)
      ensures availableAreaTwips == old(availableAreaTwips) && viewportZoom == old(viewportZoom)
      ensures deviceScale == old(deviceScale) && stopScrolling == old(stopScrolling) && firstPaint == old(firstPaint)
      ensures document == old(document) && client == old(client) && viewId == old(viewId)
      ensures paintCancelFlag == old(paintCancelFlag)
    {
      if Abs(zoom - newZoom) < 0.0001 {
        return;
      }
      oldZoom := zoom;
      scrollY := ZoomedScroll(scrollY, zoom, newZoom);
      zoom := newZoom;
      if client == null || viewId == -1 {
        return;
      }
      scalePending := true;
      // immediately flush the container to scale without invalidating tiles
      containerInvalidations := containerInvalidations + 1;
    }

    /** `GeometryOf` for the plugin's fields, its client's size and its buffer's scale. */
    ghost predicate GeometryApplied(rescaled: bool, oldScale: real)
      reads this, client, tileBuffer
      requires client != null
    {
      GeometryOf(pluginRect, TotalScale(), client.widthTwips, client.heightTwips, availableArea,
                 availableAreaTwips, tileBuffer.scale, rescaled, oldScale)
    }

    /**
     * `OnGeometryChanged(old_zoom, old_device_scale)`: without a client
     * nothing changes; with one the buffer is rescaled when the viewport zoom
     * or the device scale changed, and the available area recomputed.
     */
    method OnGeometryChanged(oldViewportZoom: real, oldDeviceScale: real)
      requires Valid() && ScaleFits(TotalScale())
      modifies this, tileBuffer, tileBuffer.valid, tileBuffer.pool
      ensures Valid()
      ensures cssPluginRect == old(cssPluginRect) && pluginRect == old(pluginRect)
      ensures viewportZoom == old(viewportZoom) && deviceScale == old(deviceScale)
      ensures zoom == old(zoom) && oldZoom == old(oldZoom) && stopScrolling == old(stopScrolling)
      ensures document == old(document) && client == old(client) && viewId == old(viewId)
      ensures client == null ==>
        availableArea == old(availableArea) && availableAreaTwips == old(availableAreaTwips) &&
        tileBuffer.scale == old(tileBuffer.scale)
      ensures client != null ==>
        GeometryApplied(viewportZoom != oldViewportZoom || deviceScale != oldDeviceScale, old(tileBuffer.scale))
      ensures firstPaint == old(firstPaint) && scalePending == old(scalePending)
      ensures scrollY == old(scrollY) && paintCancelFlag == old(paintCancelFlag)
      ensures paintCalls == old(paintCalls) && containerInvalidations == old(containerInvalidations)
      ensures tileBuffer.yPos == old(tileBuffer.yPos)
      ensures tileBuffer.valid.data == old(tileBuffer.valid.data) || fresh(tileBuffer.valid.data)
      ensures client == null ==> BufferKept()
      ensures client != null ==>
        ScaleReset(viewportZoom != oldViewportZoom || deviceScale != oldDeviceScale, TotalScale())
    {
      if client == null {
        return;
      }
      if viewportZoom != oldViewportZoom || deviceScale != oldDeviceScale {
        ResetBufferScale();
      }
      var docWidth := DocumentPixelExtent(client.widthTwips, TotalScale());
      var docHeight := DocumentPixelExtent(client.heightTwips, TotalScale());
      availableArea := AvailableArea(pluginRect.width, pluginRect.height, docWidth, docHeight);
      availableAreaTwips := TwipArea(availableArea);
    }

    /** `tile_buffer_->ResetScale(TotalScale())`: the buffer follows the total scale; the plugin's own fields stay. */
    method ResetBufferScale()
      requires Valid() && ScaleFits(TotalScale())
      modifies tileBuffer, tileBuffer.valid, tileBuffer.pool
      ensures Valid() && ScaleReset(true, TotalScale())
      ensures tileBuffer.valid.data == old(tileBuffer.valid.data) || fresh(tileBuffer.valid.data)
    {
      tileBuffer.ResetScale(TotalScale());
    }

    /**
     * `OnViewportChanged(rect, device_scale)`: records the CSS rectangle;
     * an unchanged scale and rectangle end there; otherwise the new
     * geometry is applied and, with a client, a changed height repaints the
     * available area.
     */
    method OnViewportChanged(rect: Rect, newDeviceScale: real)
      requires Valid() && newDeviceScale > 0.0 && rect.width >= 0 && rect.height >= 0
      requires ScaleFits(TotalScaleOf(zoom, newDeviceScale, viewportZoom))
      modifies this, tileBuffer, tileBuffer.valid, tileBuffer.valid.data, tileBuffer.pool
      ensures Valid() && cssPluginRect == rect && viewportZoom == old(viewportZoom) && zoom == old(zoom)
      ensures document == old(document) && client == old(client) && viewId == old(viewId) && scrollY == old(scrollY)
      ensures newDeviceScale == old(deviceScale) && rect == old(pluginRect) ==>
        pluginRect == old(pluginRect) && deviceScale == old(deviceScale) &&
        availableArea == old(availableArea) && BufferKept() && Requested([])
      ensures !(newDeviceScale == old(deviceScale) && rect == old(pluginRect)) ==>
        pluginRect == rect && deviceScale == newDeviceScale
      ensures !(newDeviceScale == old(deviceScale) && rect == old(pluginRect)) && client == null ==>
        availableArea == old(availableArea) && BufferKept() && Requested([])
      ensures !(newDeviceScale == old(deviceScale) && rect == old(pluginRect)) && client != null ==>
        GeometryApplied(newDeviceScale != old(deviceScale), old(tileBuffer.scale)) &&
        (rect.height != old(pluginRect.height) ==>
           Requested(AreaRequest()) && ScaleResetThenBitsReset(newDeviceScale != old(deviceScale), TotalScale(), AreaSpan())) &&
        (rect.height == old(pluginRect.height) ==>
           Requested([]) && ScaleReset(newDeviceScale != old(deviceScale), TotalScale()))
    {
      cssPluginRect := rect;
      if newDeviceScale == deviceScale && rect == pluginRect {
        return;
      }
      ApplyViewport(rect, newDeviceScale);
    }

    /**
     * The rest of `OnViewportChanged` once the scale or the rectangle
     * changed: the new device rectangle and scale, `OnGeometryChanged`, and
     * with a client a repaint of the available area when the height changed.
     */
    method ApplyViewport(rect: Rect, newDeviceScale: real)
      requires Valid() && newDeviceScale > 0.0 && rect.width >= 0 && rect.height >= 0
      requires ScaleFits(TotalScaleOf(zoom, newDeviceScale, viewportZoom))
      modifies this, tileBuffer, tileBuffer.valid, tileBuffer.valid.data, tileBuffer.pool
      ensures Valid() && pluginRect == rect && deviceScale == newDeviceScale
      ensures cssPluginRect == old(cssPluginRect) && viewportZoom == old(viewportZoom) && zoom == old(zoom)
      ensures document == old(document) && client == old(client) && viewId == old(viewId) && scrollY == old(scrollY)
      ensures client == null ==> availableArea == old(availableArea) && BufferKept() && Requested([])
      ensures client != null ==>
        GeometryApplied(newDeviceScale != old(deviceScale), old(tileBuffer.scale)) &&
        (rect.height != old(pluginRect.height) ==>
           Requested(AreaRequest()) && ScaleResetThenBitsReset(newDeviceScale != old(deviceScale), TotalScale(), AreaSpan())) &&
        (rect.height == old(pluginRect.height) ==>
           Requested([]) && ScaleReset(newDeviceScale != old(deviceScale), TotalScale()))
    {
      var needFreshPaint := rect.height != pluginRect.height;
      ApplyDeviceGeometry(rect, newDeviceScale);
      if client == null {
        return;
      }
      if needFreshPaint {
        ScheduleAvailableAreaPaint();
      }
    }

    /** The new device rectangle and scale, then `OnGeometryChanged` with the previous device scale. */
    method ApplyDeviceGeometry(rect: Rect, newDeviceScale: real)
      requires Valid() && newDeviceScale > 0.0 && rect.width >= 0 && rect.height >= 0
      requires ScaleFits(TotalScaleOf(zoom, newDeviceScale, viewportZoom))
      modifies this, tileBuffer, tileBuffer.valid, tileBuffer.pool
      ensures Valid() && pluginRect == rect && deviceScale == newDeviceScale
      ensures cssPluginRect == old(cssPluginRect) && viewportZoom == old(viewportZoom) && zoom == old(zoom)
      ensures document == old(document) && client == old(client) && viewId == old(viewId) && scrollY == old(scrollY)
      ensures paintCalls == old(paintCalls)
      ensures tileBuffer.valid.data == old(tileBuffer.valid.data) || fresh(tileBuffer.valid.data)
      ensures client == null ==> availableArea == old(availableArea) && BufferKept()
      ensures client != null ==> GeometryApplied(newDeviceScale != old(deviceScale), old(tileBuffer.scale))
      ensures client != null ==> ScaleReset(newDeviceScale != old(deviceScale), TotalScale())
    {
      var oldDeviceScale := deviceScale;
      deviceScale := newDeviceScale;
      pluginRect := rect;
      OnGeometryChanged(viewportZoom, oldDeviceScale);
    }

    /** The runs of missing tiles `PaintToCanvas` returns for a canvas of `rect`'s size. */
    ghost function MissingTiles(rect: Rect): seq<TileRange>
      reads tileBuffer, tileBuffer.pool
      requires tileBuffer.GridMatchesDocument() && tileBuffer.pool.Length == PoolSize
    {
      tileBuffer.MissingRanges(Rect(0, 0, rect.width, rect.height))
    }

    /**
     * The pending-scale branch of `Paint`: the buffer is regridded at the
     * total scale (when `ResetScale` finds the change large enough), the
     * available area repainted, and the pending scale and the first paint
     * are over.
     */
    method ApplyPendingScale()
      requires Valid() && client != null && ScaleFits(TotalScale())
      modifies this, tileBuffer, tileBuffer.valid, tileBuffer.valid.data, tileBuffer.pool
      ensures Valid() && SettingsUnchanged() && scrollY == old(scrollY) && !firstPaint && !scalePending
      ensures tileBuffer.scale == (if Abs(TotalScale() - old(tileBuffer.scale)) > 0.001 then TotalScale()
                                   else old(tileBuffer.scale))
      ensures Requested(AreaRequest()) && ScaleResetThenBitsReset(true, TotalScale(), AreaSpan())
    {
      scalePending := false;
      RescaleAndRepaint();
      firstPaint := false;
    }

    /** `ResetScale(TotalScale())` followed by `ScheduleAvailableAreaPaint()`. */
    method RescaleAndRepaint()
      requires Valid() && client != null && ScaleFits(TotalScale())
      modifies this, tileBuffer, tileBuffer.valid, tileBuffer.valid.data, tileBuffer.pool
      ensures Valid() && Unchanged()
      ensures Requested(AreaRequest()) && ScaleResetThenBitsReset(true, TotalScale(), AreaSpan())
    {
      ResetBufferScale();
      ScheduleAvailableAreaPaint();
    }

    /**
     * The scheduling part of `Paint(canvas, rect)`: without a client
     * nothing; with a pending scale the buffer is regridded at the total
     * scale and the available area repainted; otherwise the tiles the
     * canvas found missing are handed to `ScheduleNextPaint`.  Either way
     * the first paint is over.
     */
    method Paint(rect: Rect)
      requires Valid()
      requires scalePending && client != null ==> ScaleFits(TotalScale())
      modifies this, tileBuffer, tileBuffer.valid, tileBuffer.valid.data, tileBuffer.pool
      ensures Valid() && SettingsUnchanged() && scrollY == old(scrollY)
      ensures old(client) == null ==>
        firstPaint == old(firstPaint) && scalePending == old(scalePending) && BufferKept() && Requested([])
      ensures old(client) != null ==> !firstPaint && !scalePending
      ensures old(client) != null && old(scalePending) ==>
        tileBuffer.scale == (if Abs(TotalScale() - old(tileBuffer.scale)) > 0.001 then TotalScale()
                             else old(tileBuffer.scale)) &&
        Requested(AreaRequest()) && ScaleResetThenBitsReset(true, TotalScale(), AreaSpan())
      ensures old(client) != null && !old(scalePending) ==>
        BufferKept() && Requested([ScheduleNextPaintCall(old(MissingTiles(rect)))])
    {
      if client == null {
        return;
      }
      var missing := tileBuffer.PaintToCanvas(Rect(0, 0, rect.width, rect.height));
      if scalePending {
        ApplyPendingScale();
      } else {
        paintCalls := paintCalls + [ScheduleNextPaintCall(missing)];
        firstPaint := false;
      }
    }

    /**
     * `HandleDocumentSizeChanged(payload)`: with a document, the buffer
     * takes the size LibreOffice reports, at the same scale.
     */
    method HandleDocumentSizeChanged(width: int, height: int)
      requires Valid() && SizeFits(width, height, tileBuffer.scale)
      modifies tileBuffer, tileBuffer.valid, tileBuffer.pool
      ensures Valid() && tileBuffer.scale == old(tileBuffer.scale)
      ensures document.holder == null ==>
        tileBuffer.GeometryUnchanged() && tileBuffer.valid.data[..] == old(tileBuffer.valid.data[..]) &&
        tileBuffer.pool[..] == old(tileBuffer.pool[..]) && tileBuffer.activeContext == old(tileBuffer.activeContext)
      ensures document.holder != null ==>
        tileBuffer.docWidthTwips == width && tileBuffer.docHeightTwips == height
      ensures document.holder != null && old(tileBuffer.docWidthTwips) == width && old(tileBuffer.docHeightTwips) == height ==>
        tileBuffer.GeometryUnchanged() && tileBuffer.valid.data[..] == old(tileBuffer.valid.data[..]) &&
        tileBuffer.pool[..] == old(tileBuffer.pool[..]) && tileBuffer.activeContext == old(tileBuffer.activeContext)
      ensures document.holder != null && (old(tileBuffer.docWidthTwips) != width || old(tileBuffer.docHeightTwips) != height) ==>
        tileBuffer.columns == TilesForTwips(width, tileBuffer.scale) && tileBuffer.rows == TilesForTwips(height, tileBuffer.scale) &&
        tileBuffer.valid.Size() == tileBuffer.columns * tileBuffer.rows + 1 && AllUnset(tileBuffer.valid.data[..]) &&
        (forall slot :: 0 <= slot < PoolSize ==> tileBuffer.pool[slot] == InvalidTileIndex)
    {
      if document.holder == null {
        return;
      }
      tileBuffer.ResizeTo(width, height);
    }

    /**
     * `TriggerFullRerender()`: marks the first paint and, with a client
     * whose document has a size, resets every tile and repaints the
     * available area.
     */
    method TriggerFullRerender()
      requires Valid()
      modifies this, tileBuffer, tileBuffer.valid.data
      ensures Valid() && SettingsUnchanged() && firstPaint
      ensures scalePending == old(scalePending) && scrollY == old(scrollY)
      ensures client != null && client.widthTwips > 0 && client.heightTwips > 0 ==>
        tileBuffer.activeContext == 0 && AllUnset(tileBuffer.valid.data[..]) && Requested(AreaRequest())
      ensures !(client != null && client.widthTwips > 0 && client.heightTwips > 0) ==>
        BitsKept() && Requested([])
    {
      firstPaint := true;
      // `gfx::Size::IsEmpty()`: a side of at most 0
      if client != null && client.widthTwips > 0 && client.heightTwips > 0 {
        tileBuffer.InvalidateAllTiles();
        ScheduleAvailableAreaPaint();
      }
    }

    /**
     * `RenderDocument(isolate, client)` when no other document is mounted:
     * without an office client nothing; otherwise the client is mounted,
     * its view taken, the scroll position reset to 0 and the buffer
     * rebuilt for the document's size at the total scale.
     */
    method RenderDocument(newClient: DocumentClients.DocumentClient, newDocument: DocumentRef, hasOffice: bool,
                          wrapperAvailable: bool, documentWidth: int, documentHeight: int,
                          pageRectText: string, parts: nat)
      returns (rendered: bool)
      requires Valid()
      requires !(viewId != -1 && document.holder != newDocument.holder && document.holder != null)
      requires SizeFits(newClient.widthTwips, newClient.heightTwips, TotalScale())
      requires SizeFits(documentWidth, documentHeight, TotalScale())
      modifies this, newClient, tileBuffer, tileBuffer.valid, tileBuffer.pool
      ensures Valid()
      ensures !hasOffice ==> !rendered && Unchanged()
      ensures hasOffice ==>
        rendered && client == newClient && document == newDocument && viewId == newClient.ViewId() &&
        scrollY == 0 && tileBuffer.yPos == 0 && tileBuffer.scale == TotalScale() &&
        tileBuffer.docWidthTwips == newClient.widthTwips && tileBuffer.docHeightTwips == newClient.heightTwips &&
        AllUnset(tileBuffer.valid.data[..])
      ensures paintCalls == old(paintCalls) && containerInvalidations == old(containerInvalidations)
    {
      if !hasOffice {
        return false;
      }
      document := newDocument;
      client := newClient;
      viewId := newClient.Mount(wrapperAvailable, documentWidth, documentHeight, pageRectText, parts);
      RebuildBuffer(newClient.widthTwips, newClient.heightTwips);
      rendered := true;
    }

    /**
     * The tail of `RenderDocument`: the scroll position back at the top and
     * the buffer rebuilt, every tile invalid, for a `widthTwips x
     * heightTwips` document at the total scale.
     */
    method RebuildBuffer(widthTwips: int, heightTwips: int)
      requires tileBuffer.Valid() && Settled() && SizeFits(widthTwips, heightTwips, TotalScale())
      modifies this, tileBuffer, tileBuffer.valid, tileBuffer.pool
      ensures Valid() && SettingsUnchanged() && paintCalls == old(paintCalls)
      ensures scrollY == 0 && tileBuffer.yPos == 0 && tileBuffer.scale == TotalScale()
      ensures tileBuffer.docWidthTwips == widthTwips && tileBuffer.docHeightTwips == heightTwips
      ensures AllUnset(tileBuffer.valid.data[..])
    {
      scrollY := 0;
      tileBuffer.SetYPosition(0.0);
      assert tileBuffer.Valid();
      tileBuffer.Resize(widthTwips, heightTwips, TotalScale());
    }

    /**
     * `HandleMouseEvent(type, position, modifiers, click_count, cursor)`:
     * without a document or a view, and for any other event type, not
     * handled; outside the available area only a button press is handled
     * (for focus) and nothing is posted; inside, an event is posted, and
     * handled, exactly when a button is down.
     */
    method HandleMouseEvent(eventType: MouseEventType, x: real, y: real, modifiers: Word, clickCount: int)
      returns (handled: bool, post: LokCallback.Option<MousePost>)
      requires Valid()
      ensures document.holder == null || viewId == -1 || eventType == OtherMouseEvent ==>
        !handled && post.None?
      ensures document.holder != null && viewId != -1 && eventType != OtherMouseEvent &&
              !Contains(availableArea, Ceil(x), Ceil(y)) ==>
        post.None? && (handled <==> eventType == MouseDown)
      ensures document.holder != null && viewId != -1 && eventType != OtherMouseEvent &&
              Contains(availableArea, Ceil(x), Ceil(y)) ==>
        (handled <==> MouseButtons(modifiers) > 0) && (post.Some? <==> handled) &&
        (handled ==>
          var p := PointerTwips(x, y, scrollY, TotalScale());
          post.value == MousePost(LokMouseEventOf(eventType).value, p.0, p.1, clickCount,
                                  MouseButtons(modifiers), EventModifiersToLokModifiers(modifiers)))
    {
      if document.holder == null || viewId == -1 {
        return false, LokCallback.None;
      }
      var event := LokMouseEventOf(eventType);
      if event.None? {
        return false, LokCallback.None;
      }
      // allow focus even if not in area
      if !Contains(availableArea, Ceil(x), Ceil(y)) {
        return event.value == ButtonDown, LokCallback.None;
      }
      var position := PointerTwips(x, y, scrollY, TotalScale());
      var buttons := MouseButtons(modifiers);
      if buttons > 0 {
        return true, LokCallback.Some(MousePost(event.value, position.0, position.1, clickCount, buttons,
                                                EventModifiersToLokModifiers(modifiers)));
      }
      return false, LokCallback.None;
    }
  }
}
