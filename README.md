# electron-libreoffice core, modelled in Dafny

electron-libreoffice embeds LibreOffice in Electron through LibreOfficeKit.
A Blink plugin (`OfficeWebPlugin`) shows one view of a document. LibreOffice
renders it into 256-pixel square tiles, which a `TileBuffer` keeps in a ring
pool. An atomic bitset records which tiles are valid. A `PaintManager` keeps
at most a current and a next paint task, merges them, and posts one work item
per tile range to a thread pool. Cancellation flags stop work that scrolling
has made stale. LibreOffice reports changes through callbacks. Their string
payloads are parsed into numbers, rectangles and JSON. An `OfficeInstance`
registry routes each callback to the observers of its (document, event,
view) triple. `DocumentHolderWithView` handles share one document and choose
its views. A `DocumentClient` buffers a view's editing state until it is
mounted. Key chords and mouse events are translated into LibreOffice's
modifier bits and button masks.

The model has one module per source file:

- `Units`: twip/pixel conversions, and the float rounding and unsigned wrap-around the C++ performs implicitly.
- `CancelFlag` and `Bitset`: the cancellation flag and the atomic bitset, as classes.
- `TileRanges`, `TileGrid` and `TileBuffers`: the tile range algebra, the grid geometry, and the `TileBuffer` class with its bitset and pool.
- `PaintManagers`: tasks as values (`TaskShape`) and as classes, with the scheduling steps proved on the values.
- `LokCallback`: the payload parsers, the event name table and the payload classification.
- `OfficeKeys` and `SimulatedInput`: key codes, modifier mapping and the test input helpers.
- `DocumentHolders`, `DocumentClients` and `OfficeInstances`: document handles, the per-view client and the observer registry.
- `OfficeWebPlugins`: the plugin's geometry, scrolling, zoom, invalidation and painting glue. Its calls into the paint manager are recorded as `PaintCall` values.

Integers are unbounded. The 32-bit `unsigned int` arithmetic of the tile code
is written out where it matters (`UnsignedPred`, `AsUnsigned`, the
`U32Max` bounds), and `ParseLong` wraps modulo 2^64.

## Model

| member | source | states |
|---|---|---|
| Units.PixelTwipRoundTrip | src/electron/office/lok_callback.h:41-47 | converting pixels to twips and back at any non-zero zoom gives the pixel value again |
| Units.TwipPixelRoundTrip | src/electron/office/lok_callback.h:41-47 | converting twips to pixels and back at any non-zero zoom gives the twip value again |
| Units.TwipToPixelMonotone | src/electron/office/lok_callback.h:45-47 | at a non-negative zoom, more twips never give fewer pixels |
| Units.ConversionsLinear | src/electron/office/lok_callback.h:41-47 | both conversions are linear: the conversion of a weighted sum is the weighted sum of the conversions |
| CancelFlag.Flag.constructor | src/electron/office/cancellation_flag.h:22-24 | a new flag is not cancelled |
| CancelFlag.Create | src/electron/office/cancellation_flag.h:22-24 | returns a fresh, uncancelled flag |
| CancelFlag.Set | src/electron/office/cancellation_flag.h:30-32 | a null flag is ignored; afterwards a non-null flag reads as cancelled, so setting twice is setting once |
| CancelFlag.CancelAndReset | src/electron/office/cancellation_flag.h:35-38 | the old flag, which every other holder still sees, is cancelled; the pointer is rebound to a fresh uncancelled flag |
| Bitset.IndexSplit | src/electron/office/atomic_bitset.h:54-65 | every index is recovered from its container index and bit index, and the bit index is below the container width |
| Bitset.IndexSplitInjective | src/electron/office/atomic_bitset.h:54-65 | two indices with the same container and bit position are equal |
| Bitset.AtomicBitset.Empty | src/electron/office/atomic_bitset.h:18 | the default bitset has size 0 |
| Bitset.AtomicBitset.constructor | src/electron/office/atomic_bitset.h:19 | a bitset of `size` bits starts with every bit unset |
| Bitset.AtomicBitset.MoveFrom | src/electron/office/atomic_bitset.h:27 | the new bitset takes every bit of the other one, which is left with size 0 |
| Bitset.AtomicBitset.MoveAssign | src/electron/office/atomic_bitset.h:28 | move assignment takes the other's bits and leaves it empty |
| Bitset.AtomicBitset.Set | src/electron/office/atomic_bitset.h:30 | exactly bit `index` becomes set; every other bit is kept |
| Bitset.AtomicBitset.Reset | src/electron/office/atomic_bitset.h:31 | exactly bit `index` becomes unset; every other bit is kept |
| Bitset.AtomicBitset.ResetRange | src/electron/office/atomic_bitset.h:32-34 | exactly the bits from start to end, both inclusive, become unset; the rest are kept |
| Bitset.AtomicBitset.Clear | src/electron/office/atomic_bitset.h:35 | every bit is unset |
| TileRanges.Insert | src/electron/office/lok_tilebuffer.cc:496-519 | inserting a range adds exactly that range to the multiset of ranges |
| TileRanges.SortByStart | src/electron/office/lok_tilebuffer.cc:496-519 | the sort is a permutation of its input |
| TileRanges.SortByStartSorted | src/electron/office/lok_tilebuffer.cc:496-519 | the sort orders the ranges by first index |
| TileRanges.IndicesOfPermutation | src/electron/office/lok_tilebuffer.cc:496-519 | two lists holding the same ranges in any order cover the same tiles, so the order the sort picks among equal starts does not matter |
| TileRanges.SimplifyRanges | src/electron/office/lok_tilebuffer.cc:496-519 | the loop computes the sort-then-merge specification `SimplifiedRanges` |
| TileRanges.MergeStepCorrect | src/electron/office/lok_tilebuffer.cc:505-516 | one merge step keeps the output valid and separated, with its last range starting no later than the merged one |
| TileRanges.MergeStepIndices | src/electron/office/lok_tilebuffer.cc:505-516 | one merge step adds exactly the tiles of the merged range |
| TileRanges.MergeAllCorrect | src/electron/office/lok_tilebuffer.cc:505-516 | merging sorted valid ranges yields valid ranges, each ending before the next starts |
| TileRanges.MergeAllIndices | src/electron/office/lok_tilebuffer.cc:505-516 | merging sorted ranges covers exactly the tiles of the accumulator and the input |
| TileRanges.SimplifiedRangesCorrect | src/electron/office/lok_tilebuffer.cc:496-519 | fewer than two ranges come back unchanged; otherwise the result is valid ranges, each ending before the next starts, covering exactly the input's tiles |
| TileRanges.AdjacentRangesStaySeparate | src/electron/office/lok_tilebuffer.cc:505-516 | ranges that only touch, such as [2,3] and [4,5], are sorted but not merged |
| TileRanges.OverlappingRangesMerge | src/electron/office/lok_tilebuffer.cc:505-516 | overlapping and nested ranges merge into one range |
| TileRanges.OverlappingRangesSort | src/electron/office/lok_tilebuffer.cc:496-504 | the sort orders an example list by first index |
| TileRanges.RangeSetSize | src/electron/office/lok_tilebuffer.cc:521-527 | a valid range covers end - start + 1 tiles |
| TileRanges.TileCount | src/electron/office/lok_tilebuffer.cc:521-527 | the loop computes the sum of the range lengths |
| TileRanges.TileCountIsTileNumber | src/electron/office/lok_tilebuffer.cc:521-527 | on separated ranges the count is the number of distinct tiles covered, so no tile is counted twice |
| TileRanges.SimplifiedTileCount | src/electron/office/lok_tilebuffer.cc:521-527 | counting the simplified form of any valid ranges counts each covered tile once |
| TileRanges.ClipRanges | src/electron/office/lok_tilebuffer.cc:247-262 | the loop computes the clipping specification `ClippedRanges` |
| TileRanges.ClippedRangesWithin | src/electron/office/lok_tilebuffer.cc:247-262 | clipping yields no more ranges than it was given, all valid and inside the limit |
| TileRanges.ClipOneIndices | src/electron/office/lok_tilebuffer.cc:250-260 | clipping one range keeps exactly its tiles inside the limit |
| TileRanges.ClippedRangesIndices | src/electron/office/lok_tilebuffer.cc:247-262 | clipping covers exactly the input's tiles that lie inside the limit |
| TileRanges.ClippedRangesAppend | src/electron/office/lok_tilebuffer.cc:247-262 | clipping keeps the input order: it distributes over concatenation |
| TileGrid.Constants | src/electron/office/lok_tilebuffer.h:196-205 | a tile is 3840 twips, a pool buffer holds 262144 bytes, and the pool has 1023 slots |
| TileGrid.CoordRoundTrip | src/electron/office/lok_tilebuffer.h:127-141 | a column inside the grid and any row survive the trip to an index and back |
| TileGrid.IndexRoundTrip | src/electron/office/lok_tilebuffer.h:127-141 | every index is the index of its own coordinates, whose column is inside the grid |
| TileGrid.LimitRange | src/electron/office/lok_tilebuffer.cc:230-237 | the row window never ends before it starts |
| TileGrid.LimitRangeSpan | src/electron/office/lok_tilebuffer.cc:230-237 | the window starts at the row holding `y_pos` (row 0 above the document) and spans exactly the rows needed to cover the view height |
| TileGrid.LimitIndex | src/electron/office/lok_tilebuffer.cc:239-245 | the index window is a valid range |
| TileGrid.LimitIndexRows | src/electron/office/lok_tilebuffer.cc:239-245 | on a grid with columns, a tile is in the index window exactly when its row is in the row window |
| TileGrid.NextScrollTileRange | src/electron/office/lok_tilebuffer.cc:264-277 | the range ahead of a scroll is valid |
| TileGrid.ScrollRows | src/electron/office/lok_tilebuffer.cc:271-276 | the clamped row span is valid, also on an empty grid where the unsigned arithmetic wraps |
| TileGrid.NextScrollTileRangeBounds | src/electron/office/lok_tilebuffer.cc:264-277 | the range stays inside the grid and holds every tile of the rows from one view height above the position through three view heights |
| TileGrid.ClampedRowSpan | src/electron/office/lok_tilebuffer.cc:271-276 | a row span clamped to the grid stays inside it and keeps every tile of its rows |
| TileGrid.IntersectShape | src/electron/office/lok_tilebuffer.cc:182-183 | the intersection with the container is the empty rectangle at the origin or a rectangle with area inside the container |
| TileGrid.TileRectWithin | src/electron/office/lok_tilebuffer.cc:178-186 | the tile rectangle satisfies the DCHECKs that follow it: non-negative, inside the tile grid of the container |
| TileGrid.TileRectCovers | src/electron/office/lok_tilebuffer.cc:178-186 | every point of the target inside the container lies in a tile of the tile rectangle |
| TileGrid.TileRectSpan | src/electron/office/lok_tilebuffer.cc:200-203 | the span from the top-left tile to the clamped far corner is a valid range |
| TileGrid.TileRectSpanWithin | src/electron/office/lok_tilebuffer.cc:200-203 | an empty rectangle spans tile 0 only; any other span ends inside the grid |
| TileGrid.TileRectSpanEmptyGrid | src/electron/office/lok_tilebuffer.cc:200-203 | on a grid without tiles the span is tile 0 |
| TileGrid.TileRectSpanCovers | src/electron/office/lok_tilebuffer.cc:200-203 | every tile of the rectangle lies in the span |
| TileGrid.AddMissing | src/electron/office/lok_tilebuffer.cc:218-222 | after adding a tile the last run ends at that tile |
| TileGrid.AddMissingIndices | src/electron/office/lok_tilebuffer.cc:218-222 | adding a tile keeps the runs valid and covers exactly one more index |
| TileGrid.AddMissingGapped | src/electron/office/lok_tilebuffer.cc:345-351 | adding tiles in increasing order keeps the runs maximal, with a gap between each run and the next |
| TileGrid.RunsInRangeIndices | src/electron/office/lok_tilebuffer.cc:215-224 | the inner loop adds exactly the missing tiles of its span that lie inside the bitset |
| TileGrid.RemainingRunsIndices | src/electron/office/lok_tilebuffer.cc:214-225 | the outer loop adds exactly the missing tiles of all the given ranges |
| TileGrid.ScanColumnsCorrect | src/electron/office/lok_tilebuffer.cc:341-357 | one row of the dry-run scan adds exactly that row's non-resident tiles, as maximal runs |
| TileGrid.ScanRowsCorrect | src/electron/office/lok_tilebuffer.cc:340-357 | the dry-run scan over rows yields maximal runs covering exactly the non-resident tiles of the rectangle |
| TileBuffers.TilesFor | src/electron/office/lok_tilebuffer.cc:69-82 | the number of tiles is the least that covers the pixel extent |
| TileBuffers.PixelGridShape | src/electron/office/lok_tilebuffer.cc:189-198 | the tile rectangle of any pixel rectangle lies in the grid `Resize` builds |
| TileBuffers.TwipTilesArePixelTiles | src/electron/office/lok_tilebuffer.cc:279-288 | dividing twips by the twip size of a tile gives the same tiles as dividing pixels by 256, so the twip grid is the pixel grid |
| TileBuffers.RejectsTileAgrees | src/electron/office/lok_tilebuffer.cc:107-113 | on a grid with at least one tile, the guard as written rejects exactly the tiles outside the grid |
| TileBuffers.EmptyGridAdmitsEveryTile | src/electron/office/lok_tilebuffer.cc:107-113 | on an empty grid the guard as written lets every `unsigned int` tile index through, although the intended guard rejects them all |
| TileBuffers.Evicted | src/electron/office/lok_tilebuffer.cc:123-126 | claiming a slot keeps the bitset's size |
| TileBuffers.ClaimSlotKeepsResident | src/electron/office/lok_tilebuffer.cc:123-126 | claiming the slot of a tile, evicting the occupant's bit, keeps the pool well formed and every valid tile resident in its slot |
| TileBuffers.MarkValidKeepsResident | src/electron/office/lok_tilebuffer.cc:160-164 | marking a resident tile valid keeps every valid tile resident |
| TileBuffers.SpanFitsBitset | src/electron/office/lok_tilebuffer.cc:200-205 | the span of a tile rectangle fits the bitset sized for the grid; an empty bitset only meets the span of tile 0 |
| TileBuffers.TileBuffer.constructor | src/electron/office/lok_tilebuffer.cc:32-43 | a new buffer has an empty grid, an empty bitset, scale 1, context 0 and every pool slot free |
| TileBuffers.TileBuffer.IsEmpty | src/electron/office/lok_tilebuffer.cc:529-531 | the buffer is empty exactly when the grid has no tile |
| TileBuffers.TileBuffer.TileToPoolIndex | src/electron/office/lok_tilebuffer.h:164-168 | the slot is the tile index modulo the pool size, and the tile is resident exactly when the slot holds it |
| TileBuffers.TileBuffer.Resize | src/electron/office/lok_tilebuffer.cc:69-82 | the grid becomes the tiles of the document at the new scale, with a fresh bitset of columns * rows + 1 unset bits and every slot freed |
| TileBuffers.TileBuffer.ResizeTo | src/electron/office/lok_tilebuffer.cc:84-87 | the buffer is rebuilt at the same scale only when the twip size changed; otherwise nothing changes |
| TileBuffers.TileBuffer.SetActiveContext | src/electron/office/lok_tilebuffer.cc:89-91 | the active context hash is set and the geometry kept |
| TileBuffers.TileBuffer.ResetScale | src/electron/office/lok_tilebuffer.cc:93-98 | a scale change above 0.001 rebuilds the grid at the new scale and resets the context to 0; a smaller one changes nothing |
| TileBuffers.TileBuffer.InvalidatePoolTile | src/electron/office/lok_tilebuffer.h:148-157 | a free slot is left alone; an occupied slot is freed and its tile's bit reset |
| TileBuffers.TileBuffer.InvalidateTile | src/electron/office/lok_tilebuffer.cc:169-175 | exactly the bit of the tile is reset |
| TileBuffers.TileBuffer.InvalidateTileAt | src/electron/office/lok_tilebuffer.cc:169-175 | exactly the bit of the tile at (column, row) is reset |
| TileBuffers.TileBuffer.InvalidateAllTiles | src/electron/office/lok_tilebuffer.cc:299-302 | the context becomes 0 and every bit is reset |
| TileBuffers.TileBuffer.SetYPosition | src/electron/office/lok_tilebuffer.cc:304-306 | the float position is truncated toward zero into the integer field; nothing else changes |
| TileBuffers.TileBuffer.ClaimSlot | src/electron/office/lok_tilebuffer.cc:123-126 | the tile's slot becomes the tile's, and a different occupant loses its bit |
| TileBuffers.TileBuffer.PaintTile | src/electron/office/lok_tilebuffer.cc:100-167 | a context mismatch or a tile outside the grid fails and resets every bit; otherwise the slot is claimed, a valid or cancelled tile reports its validity, and a rasterised tile becomes valid exactly when the context is unchanged after rastering |
| TileBuffers.TileBuffer.PixelTileRectShape | src/electron/office/lok_tilebuffer.cc:191-198 | the DCHECKs after `TileRect` hold for the pixel grid |
| TileBuffers.TileBuffer.PixelRectSpan | src/electron/office/lok_tilebuffer.cc:200-203 | the span of a pixel rectangle is valid and inside the bitset; with an empty bitset it is tile 0 |
| TileBuffers.TileBuffer.InvalidateTilesInRect | src/electron/office/lok_tilebuffer.cc:189-207 | returns the rectangle's span and, unless a dry run, resets exactly the bits in the span |
| TileBuffers.TileBuffer.TwipTileRectShape | src/electron/office/lok_tilebuffer.cc:280-288 | the DCHECKs after `TileRect` hold for the twip grid |
| TileBuffers.TileBuffer.TwipRectSpan | src/electron/office/lok_tilebuffer.cc:290-293 | the span of a twip rectangle is valid and inside a non-empty bitset |
| TileBuffers.TileBuffer.InvalidateTilesInTwipRect | src/electron/office/lok_tilebuffer.cc:279-297 | returns the twip rectangle's span and resets exactly the bits in it |
| TileBuffers.TileBuffer.InvalidRangesRemaining | src/electron/office/lok_tilebuffer.cc:209-228 | the loops compute the simplified runs of the invalid or non-resident tiles inside the given ranges and the bitset |
| TileBuffers.InvalidRangesRemainingCorrect | src/electron/office/lok_tilebuffer.cc:209-228 | the result is valid, separated ranges covering exactly the missing tiles inside the given ranges |
| TileBuffers.TileBuffer.VisibleTileRect | src/electron/office/lok_tilebuffer.cc:320-330 | the tile rectangle of the visible rectangle, moved down by the scroll position, lies in the grid |
| TileBuffers.TileBuffer.MissingRangesCorrect | src/electron/office/lok_tilebuffer.cc:320-357 | the missing ranges are maximal runs of tiles in increasing order covering exactly the non-resident tiles of the visible tile rectangle |
| TileBuffers.TileBuffer.PaintToCanvas | src/electron/office/lok_tilebuffer.cc:308-357 | returns the missing ranges of the visible rectangle and changes nothing |
| TileBuffers.TileBuffer.ScanMissingTiles | src/electron/office/lok_tilebuffer.cc:333-357 | the nested loops compute the row-by-row scan specification |
| TileBuffers.PaintToCanvasScanCorrect | src/electron/office/lok_tilebuffer.cc:333-357 | for any tile rectangle in the grid the scan yields maximal increasing runs covering exactly its non-resident tiles |
| PaintManagers.AsUnsigned | src/electron/office/paint_manager.cc:107-108 | an `int` view height passed as `unsigned int` is below 2^32 and unchanged when it already fits |
| PaintManagers.WithinLimitByIndices | src/electron/office/paint_manager.cc:117-131 | valid ranges covering only tiles of the limit lie inside it |
| PaintManagers.SimplifiedClipped | src/electron/office/paint_manager.cc:126-130 | simplifying clipped ranges gives separated ranges inside the limit covering exactly the input's tiles inside it |
| PaintManagers.MergedWithRangesCorrect | src/electron/office/paint_manager.cc:117-131 | merging ranges into a task keeps its coordinates and `full_paint_`, and schedules exactly the tiles of both lists inside the task's window |
| PaintManagers.MergedWithTaskCorrect | src/electron/office/paint_manager.cc:104-115 | merging into another task takes that task's coordinates, ORs the full-paint flags, and schedules the receiver's tiles inside the other's window plus all the other's tiles |
| PaintManagers.CanMergeIffSamePosition | src/electron/office/paint_manager.cc:95-102 | two tasks can merge exactly when they show the same document, at scales within 0.001, at the same `y_pos`, both with a positive height; the relation is symmetric |
| PaintManagers.SameTaskIsPrefix | src/electron/office/paint_manager.cc:161-167 | a task is the same as itself and as any task of its document whose list continues its own, and not as one whose list dropped a range |
| PaintManagers.PromotedCorrect | src/electron/office/paint_manager.cc:135-159 | nothing is promoted exactly when there is no next task and no ranges or no current task; otherwise the promoted task has the base task's coordinates and schedules, within its window, the base's tiles, the given ranges, and the current task's missing tiles when the two can merge |
| PaintManagers.StepsAfterRequest | src/electron/office/paint_manager.cc:145-159 | steps (b) and (c) applied to a task scheduling some tiles add the current task's missing tiles when mergeable, all clipped to the window |
| PaintManagers.ClipAgain | src/electron/office/paint_manager.cc:156-159 | step (c) alone keeps the coordinates and the tiles inside the task's own window |
| PaintManagers.MergeRequestedCorrect | src/electron/office/paint_manager.cc:137-143 | step (a) keeps the base task's coordinates and adds the given ranges inside its window |
| PaintManagers.MergeRemainingCorrect | src/electron/office/paint_manager.cc:145-154 | step (b) keeps the coordinates and adds the current task's missing tiles when the two can merge |
| PaintManagers.MergeableNeverCancels | src/electron/office/paint_manager.cc:161-184 | a current task that can merge with the promoted one is at the same `y_pos`, so it is never cancelled |
| PaintManagers.RequestFolds | src/electron/office/paint_manager.cc:77-88 | a request takes the next task's tiles and full-paint flag only when that task shows the same document, and the current task's only when it does too |
| PaintManagers.SchedulePaintCorrect | src/electron/office/paint_manager.cc:63-93 | with a current task, the promoted task sits at the requested coordinates, ORs the folded full-paint flags, schedules the folded tiles and the mergeable current task's missing tiles inside the window, and the current task is cancelled exactly when it differs and the request scrolled away |
| PaintManagers.Task.constructor | src/electron/office/paint_manager.cc:20-33 | a task holds its arguments and two fresh, distinct, uncancelled flags |
| PaintManagers.Task.MergeWithTask | src/electron/office/paint_manager.cc:104-115 | returns a fresh task with fresh flags whose value is `MergedWithTask` |
| PaintManagers.Task.MergeWithRanges | src/electron/office/paint_manager.cc:117-131 | returns a fresh task with fresh flags whose value is `MergedWithRanges` |
| PaintManagers.PaintClient.constructor | src/electron/office/paint_manager.cc:42-48 | a client holds its tile buffer and no container invalidation yet |
| PaintManagers.Barrier.constructor | src/electron/office/paint_manager.cc:214-221 | a barrier expects `count` runs and holds both flags and the client |
| PaintManagers.Barrier.Done | src/electron/office/paint_manager.cc:217-220 | the done closure invalidates the container once exactly when neither flag is cancelled |
| PaintManagers.Barrier.Run | src/electron/office/paint_manager.cc:214-221 | a run counts down, and the last expected run fires the done closure |
| PaintManagers.MakeBarrier | src/electron/office/paint_manager.cc:214-221 | a barrier of count 0 runs the done closure at once |
| PaintManagers.JobsFor | src/electron/office/paint_manager.cc:222-228 | one work item per simplified range, in order, each carrying the task's paint flag, document and context hash |
| PaintManagers.PostRanges | src/electron/office/paint_manager.cc:212-228 | the barrier expects `TileCount` of the simplified ranges, and the loop posts exactly `JobsFor` |
| PaintManagers.TileCountPositive | src/electron/office/paint_manager.cc:212-214 | a non-empty list of valid ranges counts at least one tile, so its barrier waits |
| PaintManagers.PaintTile | src/electron/office/paint_manager.cc:250-260 | the barrier counts one run whatever the outcome; a context mismatch or rejected tile is not painted; a painted tile is valid and resident and the context still matches; on the grid, with a matching context, no cancel and an unchanged context after rasterising, the tile is painted |
| PaintManagers.PaintTileRange | src/electron/office/paint_manager.cc:231-248 | tiles are painted in ascending order, stopping after the first failure, each counting one run; `results[k]` is tile `indexStart + k`: reported painted only when on the grid and valid right after it was painted, and painted whenever it is on the grid, the context matched, nothing cancelled and rasterising kept the context; a context mismatch stops at the first tile |
| PaintManagers.ShapeOf | src/electron/office/paint_manager.cc:135-193 | an empty task slot has no value |
| PaintManagers.IsSameTask | src/electron/office/paint_manager.cc:161-167 | the loop decides exactly the same-task relation: same document and the current list a prefix of the next |
| PaintManagers.MergeRequestedTask | src/electron/office/paint_manager.cc:137-143 | step (a) on task objects has the value `MergeRequested` describes |
| PaintManagers.MergeRemainingTask | src/electron/office/paint_manager.cc:145-154 | step (b) on task objects has the value `MergeRemaining` describes |
| PaintManagers.PromotedTask | src/electron/office/paint_manager.cc:137-159 | steps (a) to (c) on task objects have the value `Promoted` describes, with fresh flags |
| PaintManagers.RetireCurrent | src/electron/office/paint_manager.cc:161-184 | the current task's flags become set exactly when they were or the next task cancels it |
| PaintManagers.RequestTask | src/electron/office/paint_manager.cc:77-91 | the requested task folds in the next and current tasks' tiles and flags as `RequestFolds` states, simplified |
| PaintManagers.PaintManager.constructor | src/electron/office/paint_manager.cc:42-48 | a new manager has no tasks, painting enabled, and a fresh manager flag |
| PaintManagers.PaintManager.Adopt | src/electron/office/paint_manager.cc:50-56 | the new manager takes both of the other's tasks and leaves it with none |
| PaintManagers.PaintManager.PostCurrentTask | src/electron/office/paint_manager.cc:195-229 | posts the current task's jobs when painting is enabled, the manager is not cancelled and the buffer is not empty, with a barrier expecting the task's tile count |
| PaintManagers.PaintManager.Promote | src/electron/office/paint_manager.cc:135-185 | the promoted task becomes current with fresh flags, the waiting slot is emptied, and the replaced task is cancelled exactly when `CancelsCurrent` says so |
| PaintManagers.PaintManager.ScheduleNextPaint | src/electron/office/paint_manager.cc:135-193 | as `Promote`, then the new current task is posted; returns whether there is one |
| PaintManagers.PaintManager.SchedulePaint | src/electron/office/paint_manager.cc:63-93 | without a current task the request starts at once; otherwise it is folded into a request task and promoted |
| PaintManagers.PaintManager.ClearTasks | src/electron/office/paint_manager.cc:267-278 | both tasks are cancelled and both slots emptied |
| PaintManagers.PaintManager.OnDestroy | src/electron/office/paint_manager.cc:263-265 | the manager flag is cancelled, so no posted barrier holding it fires, and a fresh flag replaces it |
| PaintManagers.PaintManager.PausePaint | src/electron/office/paint_manager.cc:280-282 | painting is paused; nothing else changes |
| PaintManagers.PaintManager.ResumePaint | src/electron/office/paint_manager.cc:284-295 | painting is re-enabled; when asked, the current task is posted, or the waiting one becomes current and is posted |
| LokCallback.SpaceRunEnd | src/electron/office/lok_callback.cc:22-26 | the whitespace run ends at the end or at a non-space character |
| LokCallback.DigitRunEnd | src/electron/office/lok_callback.cc:32-39 | the digit run ends at the end or at a non-digit |
| LokCallback.NonDigitRunEnd | src/electron/office/lok_callback.cc:83-88 | the non-digit run ends at the end or at a digit |
| LokCallback.NonDigitRunFacts | src/electron/office/lok_callback.cc:83-88 | the skipped run holds no digit, and it stops before the end exactly when a digit is left |
| LokCallback.Accumulate | src/electron/office/lok_callback.cc:32-39 | the accumulated value stays below 2^64 |
| LokCallback.AccumulateAt | src/electron/office/lok_callback.cc:32-39 | accumulating in place stays below 2^64 |
| LokCallback.LongFrom | src/electron/office/lok_callback.cc:32-39 | a number read from a position ends where its digit run ends |
| LokCallback.SkipWhitespace | src/electron/office/lok_callback.cc:22-26 | the loop moves exactly past the whitespace run |
| LokCallback.ParseLong | src/electron/office/lok_callback.cc:32-39 | the loop consumes exactly the digit run and accumulates its value onto the initial one, modulo 2^64 |
| LokCallback.SkipNonNumeric | src/electron/office/lok_callback.cc:83-88 | the corrected skip moves to the next digit, or to the end when there is none |
| LokCallback.CsvFrom | src/electron/office/lok_callback.cc:45-66 | the list reader never moves backwards or past the end |
| LokCallback.ParseCSV | src/electron/office/lok_callback.cc:45-66 | the loop computes the list specification `CsvFrom` |
| LokCallback.CsvProgress | src/electron/office/lok_callback.cc:45-66 | on a digit, separator or whitespace the reader moves forward |
| LokCallback.CsvStalls | src/electron/office/lok_callback.cc:57-60 | on any other character it reads nothing and stays put |
| LokCallback.MultipleCsvFrom | src/electron/office/lok_callback.cc:72-81 | reading lists to the end yields at most one list per character |
| LokCallback.ParseMultipleCSV | src/electron/office/lok_callback.cc:72-81 | the loop computes the lists specification `MultipleCsvFrom` |
| LokCallback.MultipleCsvUntilStuck | src/electron/office/lok_callback.cc:72-81 | the intended reading yields at most one list per character, and nothing when the first character cannot be read |
| LokCallback.UntilStuckAgrees | src/electron/office/lok_callback.cc:72-81 | on every payload the loop as written finishes, the intended reading gives the same lists |
| LokCallback.ParseMultipleCSVGuarded | src/electron/office/lok_callback.cc:72-81 | the loop with a progress check computes `MultipleCsvUntilStuck` on any payload |
| LokCallback.CsvRoundTrip | src/electron/office/lok_callback.cc:45-66 | a list of 64-bit numbers printed with ", " and ended by the end or `;` is read back exactly |
| LokCallback.CsvParsesPrinted | src/electron/office/lok_callback.cc:45-66 | printing a list and parsing it gives the list and consumes the whole text |
| LokCallback.MultipleCsvRoundTrip | src/electron/office/lok_callback.cc:72-81 | non-empty lists printed with "; " between them are read back exactly |
| LokCallback.MultipleCsvParsesPrinted | src/electron/office/lok_callback.cc:72-81 | printing lists and parsing them back gives the lists |
| LokCallback.DecimalValue | src/electron/office/lok_callback.cc:32-39 | parsing the decimal digits of a 64-bit value gives the value |
| LokCallback.SkipNonNumericAsWritten | src/electron/office/lok_callback.cc:83-88 | the skip as written reads past the end exactly when no digit is left; otherwise it stops at the next digit |
| LokCallback.RectFrom | src/electron/office/lok_callback.cc:94-109 | reading a rectangle never moves backwards or past the end, and moves forward on a non-empty rest; the numbers are narrowed into a `gfx::Rect` |
| LokCallback.ToInt | src/electron/office/lok_callback.cc:104-108 | narrowing a parsed number to `int` gives a 32-bit value, and leaves values up to `INT_MAX` unchanged |
| LokCallback.ToIntWraps | src/electron/office/lok_callback.cc:104-108 | the narrowed value differs from the number by a multiple of 2^32, and numbers from 2^31 to 2^32 - 1 become negative |
| LokCallback.GfxRect | src/electron/office/lok_callback.cc:104-108 | the rectangle's origin is the narrowed numbers, its sides are clamped to 0 .. `INT_MAX`, and numbers up to `INT_MAX` pass unchanged |
| LokCallback.RectRoundTrip | src/electron/office/lok_callback.cc:94-109 | four numbers up to `INT_MAX` printed with ", " and followed by the end or a non-digit are read back as that rectangle, ending after the last number |
| LokCallback.RectParsesPrinted | src/electron/office/lok_callback.cc:94-109 | printing a rectangle's four numbers and parsing them gives the rectangle and consumes the whole text |
| LokCallback.RectAsWrittenAgrees | src/electron/office/lok_callback.cc:94-109 | wherever the parser as written stays in bounds it agrees with the corrected one |
| LokCallback.RectAsWrittenOverruns | src/electron/office/lok_callback.cc:94-109 | with no digit left the parser as written reads past the payload, where the corrected one returns the empty rectangle |
| LokCallback.EmptyPayloadOverruns | src/electron/office/lok_callback.cc:94-109 | the empty payload is such an input |
| LokCallback.ParseRect | src/electron/office/lok_callback.cc:94-109 | the steps compute the corrected rectangle reader `RectFrom`, narrowing included |
| LokCallback.RectsFrom | src/electron/office/lok_callback.cc:115-127 | reading rectangles to the end yields at most one per character |
| LokCallback.RectsStep | src/electron/office/lok_callback.cc:115-127 | each iteration reads one rectangle and carries on where it ended |
| LokCallback.ParseMultipleRects | src/electron/office/lok_callback.cc:115-127 | the loop computes `RectsFrom`; the size hint has no effect on the result |
| LokCallback.MultipleRectsRoundTrip | src/electron/office/lok_callback.cc:111-127 | rectangles of four numbers up to `INT_MAX`, printed as "x, y, w, h" with "; " between them up to the end of the payload, are read back as those rectangles in order |
| LokCallback.MultipleRectsParsesPrinted | src/electron/office/lok_callback.cc:111-127 | printing page rectangles and parsing the text gives them back, in order |
| LokCallback.TrailingSeparatorGivesEmptyRect | src/electron/office/lok_callback.cc:94-98 | a remaining text without a digit, such as a terminating `;`, is read as one empty rectangle and ends the list |
| LokCallback.LastRectThenTerminator | src/electron/office/lok_callback.cc:111-127 | a last rectangle followed by a terminating `;` reads as that rectangle and then one extra empty rectangle |
| LokCallback.FindEvent | src/electron/office/lok_callback.cc:208-212 | the search finds an entry named `s`, or shows that no later entry has that name |
| LokCallback.NamedIsKnown | src/electron/office/lok_callback.cc:129-212 | a type with a name is not the not-found code -1 |
| LokCallback.EventStringToType | src/electron/office/lok_callback.cc:129-213 | the result is -1 exactly when no listed type has the name, and otherwise a type with that name |
| LokCallback.PayloadClasses | src/electron/office/lok_callback.cc:215-288 | only the visible-cursor invalidation is both JSON and CSV; text selection is the one multiple-list type and is in neither other class |
| LokCallback.ParseJSON | src/electron/office/lok_callback.cc:290-313 | an empty string is null and anything else is its JSON value |
| LokCallback.GraphicSelectionValue | src/electron/office/lok_callback.cc:318-345 | a pair of the leading numbers and the JSON after them, null exactly when nothing follows the numbers |
| LokCallback.PayloadToLocalValue | src/electron/office/lok_callback.cc:347-392 | a null payload is null; graphic selection is a pair; CSV types without `{` are number lists; text selection is lists of lists; JSON types and state changes starting with `{` are JSON; every other type is the text itself |
| OfficeKeys.KeyNameOf | src/electron/office/office_keys.h:52-164 | a code names a key exactly when it lies in one of the five groups, which start at the explicit initialisers `NUM0 = 256`, `A = 512`, `F1 = 768`, `DOWN = 1024` and `RETURN = 1280` |
| OfficeKeys.ImplicitKeyValues | src/electron/office/office_keys.h:52-164 | the groups hold 10, 26, 26, 8 and 39 keys, so the implicit values end at `NUM9` = 265, `Z` = 537, `F26` = 793, `PAGEDOWN` = 1031 and `SCROLLLOCK` = 1318 |
| OfficeKeys.KeyCodesDistinct | src/electron/office/office_keys.h:52-164 | every key code fits the `unsigned short` base, no two keys share a code, and the groups lie in increasing order |
| OfficeKeys.KeyNameRoundTrip | src/electron/office/office_keys.h:52-164 | the code of each key maps back to that key's own name |
| OfficeKeys.EventModifiersToLokModifiers | src/electron/office/office_keys.h:167-179 | the result has no bit outside `Mask` |
| OfficeKeys.LokModifierBits | src/electron/office/office_keys.h:167-179 | Shift, Control, Alt and Meta become Shift, Mod1, Mod2 and Mod3, each exactly when it is held |
| OfficeKeys.LokModifiersShift | src/electron/office/office_keys.h:167-179 | the mapping moves the low four modifier bits up twelve places |
| OfficeKeys.LokModifiersDistribute | src/electron/office/office_keys.h:167-179 | no modifier maps to none, and the mapping distributes over OR |
| OfficeKeys.LokModifiersIgnoreOtherBits | src/electron/office/office_keys.h:167-179 | AltGr, Fn, Symbol, the buttons and the lock states are ignored |
| SimulatedInput.LowerAscii | src/electron/office/test/simulated_input.cc:18 | upper-case ASCII letters move down to lower case; everything else is kept |
| SimulatedInput.ToLowerAscii | src/electron/office/test/simulated_input.cc:18 | lower-casing keeps the length |
| SimulatedInput.Pieces | src/electron/office/test/simulated_input.cc:21 | splitting at `+` always yields at least one piece |
| SimulatedInput.PiecesJoin | src/electron/office/test/simulated_input.cc:21 | the pieces hold no `+`, and joining them with `+` gives the text back |
| SimulatedInput.JoinPieces | src/electron/office/test/simulated_input.cc:21 | `+`-free pieces, joined, split back into the same pieces |
| SimulatedInput.TokenBits | src/electron/office/test/simulated_input.cc:22-36 | a piece names at most one of the four chord modifiers |
| SimulatedInput.ControlNames | src/electron/office/test/simulated_input.cc:22-36 | Control is named by `ctrl`, and by `mod` away from macOS |
| SimulatedInput.MetaNames | src/electron/office/test/simulated_input.cc:22-36 | Meta is named by `cmd`, `win` and `meta`, and by `mod` on macOS |
| SimulatedInput.ModifiersOfBit | src/electron/office/test/simulated_input.cc:21-37 | a modifier is in the result exactly when some piece names it |
| SimulatedInput.ChordPieces | src/electron/office/test/simulated_input.cc:18-21 | a chord has at least one piece |
| SimulatedInput.ExtractModifiers | src/electron/office/test/simulated_input.cc:17-40 | the loop ORs the modifiers every lower-cased piece names, and returns the last piece, empty after a final `+`, as the key |
| SimulatedInput.FinalPiece | src/electron/office/test/simulated_input.cc:21-37 | `getline` skipping an empty last piece changes nothing, since an empty piece names no modifier |
| SimulatedInput.KeyIsLowerCase | src/electron/office/test/simulated_input.cc:118-123 | the key is lower case, so the upper-case control branch is never taken |
| SimulatedInput.Zeros | src/electron/office/test/simulated_input.cc:114-115 | a zero fill of `n` characters |
| SimulatedInput.TranslateKeyEvent | src/electron/office/test/simulated_input.cc:87-134 | the modifiers are the chord's plus Shift for a shifted character; with Control the text is the control character and the unmodified text zeros, otherwise both are the key copied up to the cap |
| SimulatedInput.CopiedTextReads | src/electron/office/test/simulated_input.cc:124-129 | the copied text reads as the key cut to the cap less one, and stays zero-terminated |
| SimulatedInput.ControlTextReads | src/electron/office/test/simulated_input.cc:116-123 | with Control the text is one control character from 1 to 26 exactly when the key starts with a letter, and empty otherwise |
| SimulatedInput.CreatedMouseEventReads | src/electron/office/test/simulated_input.cc:59-84 | a created mouse event reads back its type, its position and one click |
| DocumentHolders.LokDocument.constructor | src/electron/office/document_holder.cc:18-23 | a document holds its address and views, with no callback registered |
| DocumentHolders.LokDocument.CreateView | src/electron/office/document_holder.cc:34 | a new view id is not one used before, and is appended to the views |
| DocumentHolders.MaxPlusOne | src/electron/office/document_holder.cc:34 | one more than the largest id exceeds every id of the list |
| DocumentHolders.DocumentHolder.constructor | src/electron/office/document_holder.cc:18-23 | a holder owns the document and path, with one reference, its creator's |
| DocumentHolders.AsWrittenNeverReuses | src/electron/office/document_holder.cc:28-51 | as written, the reuse test runs after the holder took its own reference, so an existing view is never reused and a fresh document with one view gets a second |
| DocumentHolders.ChooseView | src/electron/office/document_holder.cc:32-43 | the intended choice reuses the view exactly when there is one and the handle is the holder's first |
| DocumentHolders.FirstHandleReusesView | src/electron/office/document_holder.cc:32-57 | the intended choice reuses the one view of a freshly loaded document, where the as-written one does not; for a further handle (`NewView`) the two agree |
| DocumentHolders.DocumentHolderWithView.Empty | src/electron/office/document_holder.cc:136 | a default handle has no holder, view -1, and no deregistration duty |
| DocumentHolders.DocumentHolderWithView.FromHolder | src/electron/office/document_holder.cc:28-51 | the handle takes a reference, reuses the first view or creates a new one as `ChooseView` says, makes it current, registers the callback for it and takes the deregistration duty |
| DocumentHolders.DocumentHolderWithView.NewView | src/electron/office/document_holder.cc:146-148 | whatever the reference count, a further handle on the same holder takes a reference and gets a view of its own, new to the document, made current and registered for the callback |
| DocumentHolders.DocumentHolderWithView.Copy | src/electron/office/document_holder.cc:80-82 | a copy shares holder and view, takes a reference and never the duty, and compares equal |
| DocumentHolders.DocumentHolderWithView.Move | src/electron/office/document_holder.cc:71-77 | the new handle takes holder, view and duty; the source keeps neither holder nor duty |
| DocumentHolders.DocumentHolderWithView.CopyAssign | src/electron/office/document_holder.cc:85-93 | copy assignment shares holder and view and drops the duty; the taken holder gains a reference and the previous one loses one, unless they are the same holder; self-assignment changes nothing |
| DocumentHolders.DocumentHolderWithView.MoveAssign | src/electron/office/document_holder.cc:60-68 | move assignment takes holder and view, strips the source of holder and duty, and keeps this handle's own duty flag; the previous holder loses a reference and a different taken holder keeps its count; self-move changes nothing |
| DocumentHolders.DocumentHolderWithView.Destroy | src/electron/office/document_holder.cc:138-144 | only a handle with the duty makes its view current and deregisters the callback; every handle gives up its reference |
| DocumentHolders.DocumentHolderWithView.SetAsCurrentView | src/electron/office/document_holder.cc:103-106 | the document's current view becomes the handle's view; nothing else changes |
| DocumentHolders.DocumentHolderWithView.Ref | src/electron/office/document_holder.cc:126-129 | the compared value is the (holder, view) pair |
| DocumentHolders.DocumentHolderWithView.PtrToId | src/electron/office/document_holder.cc:202-204 | the id is 0 exactly when the handle has no live document |
| DocumentHolders.Open | src/electron/office/document_holder.cc:54-57 | a handle on a newly loaded document holds the only reference and the duty, takes the document's one view or creates the first (the intended choice; see "## Findings"), makes it current and registers the callback for it |
| DocumentHolders.EqualsIsRefEquality | src/electron/office/document_holder.cc:126-134 | `==` compares exactly the (holder, view) pair, `!=` is its negation, and `==` is an equivalence |
| DocumentClients.EnabledAfterChange | src/electron/office/document_client.cc:207-239 | after a state change a command is enabled exactly when it was, or it is named for the first time with "enabled" |
| DocumentClients.StateChangeKeepsEntries | src/electron/office/document_client.cc:234-239 | the first report of a command stays; a named command is added, and nothing else changes |
| DocumentClients.BufferedBeforeReady | src/electron/office/document_client.cc:241-243 | a payload that arrives before the client is ready is appended after every payload buffered before it |
| DocumentClients.NotBufferedWhenReady | src/electron/office/document_client.cc:241-243 | once mounted and ready, payloads are not buffered |
| DocumentClients.DocumentClient.AsWritten | src/electron/office/document_client.h:139-147 | as written, a new client has its document and view, is not mounted, and has no state and no buffer, but its readiness and document size are whatever the storage held |
| DocumentClients.DocumentClient.constructor | src/electron/office/document_client.cc:59-84 | with the intended initial values, a new client has its document and view, is neither mounted nor ready, has a 0 × 0 size, and has no state and no buffer |
| DocumentClients.AsWrittenLosesEarlyState | src/electron/office/document_client.cc:241-243 | a client whose uninitialised readiness holds true does not replay a state change that arrives after mounting and before the first invalidation |
| DocumentClients.InitialisedKeepsEarlyState | src/electron/office/document_client.cc:241-243 | a client that starts not ready replays that state change on `EmitReady` |
| DocumentClients.DocumentClient.RefreshSize | src/electron/office/document_client.cc:312-326 | an unmounted view changes nothing; otherwise the size is the document's and the page rectangles are those parsed from LibreOffice's text |
| DocumentClients.DocumentClient.Mount | src/electron/office/document_client.cc:161-189 | a mounted client only reports its view; otherwise it holds the wrapper when there is one, refreshes the size and posts one `EmitReady` |
| DocumentClients.DocumentClient.Unmount | src/electron/office/document_client.cc:191-199 | only a mounted client forgets its view and releases the wrapper |
| DocumentClients.DocumentClient.HandleStateChange | src/electron/office/document_client.cc:234-244 | the state takes the first value of a named command, and the payload is buffered unless the client is mounted and ready |
| DocumentClients.DocumentClient.HandleInvalidate | src/electron/office/document_client.cc:308-310 | the first tile invalidation makes the client ready |
| DocumentClients.DocumentClient.HandleUnoCommandResult | src/electron/office/document_client.cc:294-302 | the clipboard is read back exactly after a successful copy or cut |
| DocumentClients.DocumentClient.SetView | src/electron/office/document_client.cc:806-811 | the document's view is selected exactly when the client has one |
| DocumentClients.DocumentClient.EmitReady | src/electron/office/document_client.cc:813-840 | the buffered payloads are emitted in arrival order and the buffer emptied |
| OfficeInstances.SameEventIdIsIdentity | src/electron/office/office_instance.h:29-32 | two ids compare equal exactly when document, event and view agree |
| OfficeInstances.EqualIdsHashEqually | src/electron/office/office_instance.h:38-44 | ids that compare equal hash equally, whatever the hash mixers are |
| OfficeInstances.ErasedKeys | src/electron/office/office_instance.cc:151-159 | the erasing loop removes exactly the listed ids of the document and keeps every other list |
| OfficeInstances.WithdrawnLists | src/electron/office/office_instance.cc:161-171 | the withdrawing loop keeps every list and takes the observer out of the document's listed ones |
| OfficeInstances.UnindexedEntries | src/electron/office/office_instance.cc:158 | erasing the document from the index keeps exactly the entries of other documents, as often as before |
| OfficeInstances.ListedAfterAdd | src/electron/office/office_instance.cc:129-139 | an event reaches an observer after adding exactly when it was added for that id or reached it before; the index gains one entry |
| OfficeInstances.ListedAfterRemove | src/electron/office/office_instance.cc:141-149 | removing an observer from one id affects that id only |
| OfficeInstances.ListedAfterRemoveDocument | src/electron/office/office_instance.cc:151-159 | no event of the removed document reaches anyone and no index entry of it is left; other documents are untouched |
| OfficeInstances.ListedAfterWithdraw | src/electron/office/office_instance.cc:161-171 | the observer is reached by no event of the document; everyone else as before |
| OfficeInstances.OfficeInstance.constructor | src/electron/office/office_instance.cc:53-55 | a new instance has nothing loaded and no observers |
| OfficeInstances.OfficeInstance.Create | src/electron/office/office_instance.cc:37-47 | only the first call posts `Initialize` |
| OfficeInstances.OfficeInstance.Initialize | src/electron/office/office_instance.cc:61-79 | unless `Unset` came first, LibreOffice is loaded and the load observers notified |
| OfficeInstances.OfficeInstance.Unset | src/electron/office/office_instance.cc:85-88 | the instance is marked unset and is no longer valid |
| OfficeInstances.OfficeInstance.AddLoadObserver | src/electron/office/office_instance.cc:90-96 | an observer is called at once when loaded and registered otherwise |
| OfficeInstances.OfficeInstance.RemoveLoadObserver | src/electron/office/office_instance.cc:98-100 | the observer is no longer a load observer |
| OfficeInstances.OfficeInstance.HandleDocumentCallback | src/electron/office/office_instance.cc:102-127 | nothing is delivered before loading; otherwise exactly the observers of (document, type, view) receive the event |
| OfficeInstances.OfficeInstance.AddDocumentObserver | src/electron/office/office_instance.cc:129-139 | the registry becomes `Added` |
| OfficeInstances.OfficeInstance.RemoveDocumentObserver | src/electron/office/office_instance.cc:141-149 | the registry becomes `RemovedObserver` |
| OfficeInstances.OfficeInstance.RemoveDocumentObservers | src/electron/office/office_instance.cc:151-159 | the registry becomes `RemovedDocument` |
| OfficeInstances.OfficeInstance.WithdrawFromDocument | src/electron/office/office_instance.cc:161-171 | the registry becomes `WithdrawnFromDocument` |
| OfficeInstances.OfficeInstance.AddDestroyedObserver | src/electron/office/office_instance.cc:173-175 | the observer becomes a destroyed observer |
| OfficeInstances.OfficeInstance.RemoveDestroyedObserver | src/electron/office/office_instance.cc:177-179 | the observer is no longer a destroyed observer |
| OfficeInstances.OfficeInstance.HandleClientDestroyed | src/electron/office/office_instance.cc:181-184 | the instance is marked destroying and every destroyed observer is notified |
| OfficeWebPlugins.TotalScaleOf | src/electron/office/office_web_plugin.cc:597-599 | the total scale is positive for positive factors, and is the zoom at unit device scale and viewport zoom |
| OfficeWebPlugins.Truncated | src/electron/office/office_web_plugin.cc:641 | a non-negative float stored into an integer is truncated |
| OfficeWebPlugins.DocumentPixelExtent | src/electron/office/office_web_plugin.cc:515-518 | the document extent in pixels is the twip extent at the scale rounded up, never negative |
| OfficeWebPlugins.AvailableArea | src/electron/office/office_web_plugin.cc:484-494 | the available area is at the origin, with each side the smaller of the plugin's and the document's |
| OfficeWebPlugins.TwipArea | src/electron/office/office_web_plugin.cc:496-497 | the area in twips is the pixel area times 15 |
| OfficeWebPlugins.MaxScroll | src/electron/office/office_web_plugin.cc:636-638 | the largest scroll position is the document below one view height, never negative |
| OfficeWebPlugins.ScrollTarget | src/electron/office/office_web_plugin.cc:640 | the requested position is clamped to [0, max] and scaled into device pixels |
| OfficeWebPlugins.ZoomedScroll | src/electron/office/office_web_plugin.cc:607 | the scroll position follows the zoom ratio within one pixel, stays non-negative, and is kept when the zoom is |
| OfficeWebPlugins.ClipToWindow | src/electron/office/office_web_plugin.cc:575-582 | a span that misses the window is dropped; otherwise exactly its tiles inside the window are kept, as one valid range |
| OfficeWebPlugins.ClippedRequestTiles | src/electron/office/office_web_plugin.cc:575-585 | a clipped request paints the tiles of the span inside the window, and nothing when there are none |
| OfficeWebPlugins.DeviceHeight | src/electron/office/office_web_plugin.cc:573 | the view height is the plugin height times the device scale, truncated |
| OfficeWebPlugins.OffsetAreaOf | src/electron/office/office_web_plugin.cc:728-730 | the offset area is the available area moved down by the scroll position and scaled into device pixels |
| OfficeWebPlugins.LokMouseEventOf | src/electron/office/office_web_plugin.cc:383-396 | down, up and move map to their LibreOffice events; any other event is not handled |
| OfficeWebPlugins.MouseButtons | src/electron/office/office_web_plugin.cc:409-415 | left, middle and right buttons become bits 1, 2 and 4, each exactly when held |
| OfficeWebPlugins.PointerTwips | src/electron/office/office_web_plugin.cc:403-407 | the pointer moved by the scroll position and converted to twips, within half a twip per axis |
| OfficeWebPlugins.ScrollHeight | src/electron/office/office_web_plugin.cc:634-647 | the view height handed on is the plugin height over the viewport zoom, truncated |
| OfficeWebPlugins.OfficeWebPlugin.constructor | src/electron/office/office_web_plugin.cc:86-93 | the header's defaults: unit scales, first paint pending, no scroll, no view, and an empty tile buffer |
| OfficeWebPlugins.OfficeWebPlugin.RequestClipped | src/electron/office/office_web_plugin.cc:575-585 | exactly the clipped request is handed to the paint manager |
| OfficeWebPlugins.OfficeWebPlugin.ScheduleAvailableAreaPaint | src/electron/office/office_web_plugin.cc:727-744 | the tiles of the available area are reset, also those out of view, and a full paint of their part inside the view's window is requested |
| OfficeWebPlugins.OfficeWebPlugin.HandleInvalidateTiles | src/electron/office/office_web_plugin.cc:555-587 | an unmounted view ignores the event; `EMPTY` repaints the available area; a dirty rectangle with area has its tiles reset and their part in the window requested |
| OfficeWebPlugins.OfficeWebPlugin.UpdateScroll | src/electron/office/office_web_plugin.cc:630-653 | without a client nothing happens; otherwise the position is clamped and scaled, the paint flag is cancelled and replaced, and the tiles around the new position are requested |
| OfficeWebPlugins.OfficeWebPlugin.SetZoom | src/electron/office/office_web_plugin.cc:601-616 | a change under 0.0001 changes nothing; otherwise the zoom is replaced, the scroll position follows it, and a mounted view marks the scale pending and invalidates the container |
| OfficeWebPlugins.OfficeWebPlugin.OnGeometryChanged | src/electron/office/office_web_plugin.cc:475-498 | without a client the available area and the whole buffer (grid, scale, bits, pool, active context) are unchanged; with one, a changed viewport zoom or device scale rebuilds the buffer for the same document at the total scale when that differs by more than 0.001 (every bit unset, every pool slot free, context 0) and keeps it whole otherwise, and the available area is recomputed |
| OfficeWebPlugins.OfficeWebPlugin.ResetBufferScale | src/electron/office/office_web_plugin.cc:481 | the buffer is rebuilt for the same document at the total scale when that differs from its scale by more than 0.001, every bit unset, every pool slot free and context 0; otherwise it is kept whole |
| OfficeWebPlugins.OfficeWebPlugin.OnViewportChanged | src/electron/office/office_web_plugin.cc:527-553 | the CSS rectangle is recorded; an unchanged rectangle and scale leave the geometry, the available area and the whole buffer as they were and request nothing; otherwise the rest is `ApplyViewport`'s |
| OfficeWebPlugins.OfficeWebPlugin.ApplyViewport | src/electron/office/office_web_plugin.cc:539-552 | the new rectangle and scale are stored; without a client the buffer is kept whole and nothing is requested; with one the geometry is applied, the buffer is rebuilt when the device scale moved the total scale by more than 0.001 and kept otherwise, and a changed height also resets the available area's bits and requests its full paint (a rebuilt buffer stays all unset) |
| OfficeWebPlugins.OfficeWebPlugin.ApplyDeviceGeometry | src/electron/office/office_web_plugin.cc:542-546 | the new rectangle and device scale are stored and the geometry applied with the previous device scale; without a client the buffer is kept whole, with one it is rebuilt or kept as `ResetScale` decides |
| OfficeWebPlugins.OfficeWebPlugin.ApplyPendingScale | src/electron/office/office_web_plugin.cc:187-191 | the pending scale and the first paint are over; the buffer is rebuilt at the total scale when that differs by more than 0.001, otherwise kept whole but for the available area's bits, which are reset; a full paint of the area is requested |
| OfficeWebPlugins.OfficeWebPlugin.RescaleAndRepaint | src/electron/office/office_web_plugin.cc:189-190 | the plugin's own fields are unchanged; the buffer is rebuilt as in `ResetBufferScale` (staying all unset) or kept with the available area's bits reset, and a full paint of the area is requested |
| OfficeWebPlugins.OfficeWebPlugin.Paint | src/electron/office/office_web_plugin.cc:158-196 | without a client the whole buffer is kept and nothing is requested; with a pending scale the buffer and the requests are `ApplyPendingScale`'s; otherwise the buffer is kept whole and the missing tiles of the canvas go to `ScheduleNextPaint`; with a client the first paint is over |
| OfficeWebPlugins.OfficeWebPlugin.HandleDocumentSizeChanged | src/electron/office/office_web_plugin.cc:589-595 | with a document the buffer takes the reported size at the same scale; an unchanged size keeps the grid, bits, pool and context; a changed one rebuilds the grid for the new size with every bit unset and every pool slot free; without a document nothing changes |
| OfficeWebPlugins.OfficeWebPlugin.TriggerFullRerender | src/electron/office/office_web_plugin.cc:746-752 | the first paint is pending again; a client with a document size resets every tile and repaints the available area |
| OfficeWebPlugins.OfficeWebPlugin.RenderDocument | src/electron/office/office_web_plugin.cc:655-725 | without an office client nothing changes; otherwise the client is mounted, its view taken, the scroll reset and the buffer rebuilt at the total scale with every tile invalid |
| OfficeWebPlugins.OfficeWebPlugin.RebuildBuffer | src/electron/office/office_web_plugin.cc:688-691 | the scroll position is 0 and the buffer is rebuilt for the document's size at the total scale |
| OfficeWebPlugins.OfficeWebPlugin.HandleMouseEvent | src/electron/office/office_web_plugin.cc:375-431 | no document, no view or another event type is not handled; outside the area only a button-down is handled, for focus; inside, an event with the pointer in twips and the mapped buttons and modifiers is posted exactly when a button is down |

## Left out

- Drawing: Skia canvases, snapshots, the pool's pixel buffers and the drawing half of `PaintToCanvas` are not modelled. Only its dry-run scan for missing tiles is. office_web_plugin.cc:183 calls `PaintToCanvas` with three arguments, while lok_tilebuffer.h:96-102 declares seven (snapshot, total scale, pending scale, scrolling). The model follows the declared version; its list of missing ranges does not depend on the drawing.
- DocumentHolders.DocumentHolderWithView.Destroy: its requires (a handle with the duty has a holder, a document and a view above -1) stands for the `CHECK(view_id_ > -1)` at document_holder.cc:104 that the destructor (cc:138-143) runs. `MoveAssign` keeps this handle's own duty (cc:60-67), so moving a default handle into one that has the duty leaves a handle with the duty, no holder and view -1. Its destructor then fails that CHECK. The model does not describe that abort.
- LokCallback.ParseMultipleRects: the corrected reader reads a terminating `;` (which lok_callback.cc:112 allows) as one extra empty rectangle, as `LastRectThenTerminator` states. The reader as written runs past the payload there, as it does for "" (see "## Findings").
- Bitset.AtomicBitset.Set and Bitset.AtomicBitset.Reset: atomic_bitset.h:30-31 declares both returning `bool`. The model returns nothing, because the callers (lok_tilebuffer.cc:162 and 174) ignore the result.
- Threads, task runners and atomics are left out. Posted tasks are recorded or run in place. `base::BarrierClosure` is a counter (`Barrier`). Memory orders do not appear.
- Floating point: `float` and `double` are reals, without IEEE rounding. The conversions to integers (truncation, `floor`, `ceil`, `round`) are written out.
- LibreOfficeKit calls (`createView`, `getDocumentSize`, `getPartPageRectangles`, `setView`, `postMouseEvent`, rasterising a tile) become parameters or recorded effects. `contextAfterRaster` stands for the context another thread may set while a tile is rasterised.
- `Task::ContextHash` and `base::HashInts64`/`HashInts32` are function parameters, since the hash values are not specified.
- V8 and gin: wrappers, event buses, promises and conversions are not modelled. `LocalValue` stands for the V8 value.
- LokCallback.ParseJSON: a non-empty text that V8 fails to parse gives null in the source. The model gives its JSON value, because the JSON parser is not part of this model.
- LokCallback.ParseLong: only the ASCII digits count as digits. The source's `(c ^ '0') <= 9` on a signed `char` also accepts bytes from 0x80 up.
- LokCallback.ParseMultipleCSV: requires a payload of digits, separators and whitespace. On any other character the source loops forever (`CsvStalls`); see "## Findings".
- LokCallback.ParseRect: `gfx::Rect`'s saturation of a right or bottom edge past `INT_MAX` is not modelled, here or in `RectFrom`. The narrowing of the four numbers to `int` and the clamping of negative sides are.
- LokCallback.PayloadToLocalValue: a text-selection payload is read with the corrected `MultipleCsvUntilStuck`. Where the source loops forever, the model stops at the first character it cannot read (see "## Findings"). `v8::String::NewFromUtf8` failures are not modelled.
- Status-change and command-result payload parsers (`ParseStatusChange`, `ParseUnoCommandResult`) are not part of this model. The client methods take the parsed pair.
- PaintManagers.PaintTile: states the barrier count and when a tile is or is not painted, but not the full update of the bits and the pool. That is `TileBuffers.TileBuffer.PaintTile`'s contract, which it calls.
- TileRanges.SortByStart: an insertion sort stands for `std::sort`. The order among ranges with equal starts differs, but the merged result covers the same tiles (`IndicesOfPermutation`, `SimplifiedRangesCorrect`).
- TileBuffers.TileBuffer.Resize: requires the grid to have fewer than 2^32 - 1 tiles, so that the 32-bit index arithmetic does not wrap. `OfficeWebPlugins`' `SizeFits` and `ScaleFits` carry the same bound to its callers.
- TileBuffers.TileBuffer.InvalidateTilesInRect: without a dry run, requires a non-empty bitset. On an empty one the bitset's `ResetRange` would violate its own index check.
- TileBuffers.TileBuffer.InvalidateTilesInTwipRect: requires a non-empty bitset, for the same reason.
- OfficeWebPlugins.OfficeWebPlugin.ScheduleAvailableAreaPaint: requires a client. Every caller checks for one first; without one the buffer may be empty.
- OfficeWebPlugins.OfficeWebPlugin.RenderDocument: the reset path is excluded by its requires. That path runs when a different document is already shown: `CloseDocument`, the posted `OnViewportChanged` and `OnGeometryChanged`, and the device-scale hack. `setView`, `resetSelection` and the event-bus registrations are left out. A null client handle is not modelled.
- OfficeWebPlugins.OfficeWebPlugin.SetZoom: requires a positive zoom, which every caller passes. The model's geometry invariants need it.
- `stop_scrolling_` is never set by the core, so it stays false.
- `InvalidatePluginContainer` is a counter of posted invalidations.
- The plugin's `UpdateGeometry`, keyboard, focus, cursor, paste, cut and copy handlers, `PageRects` and the debounced resume are not modelled. Neither are the document client's JavaScript API, clipboard, save, outline and dialog functions.
- SimulatedInput.TranslateKeyEvent: the key-code and DOM-code lookups (`KeyboardCodeFromStr`, `UsLayoutKeyboardCodeToDomCode`, `DomCodeToUsLayoutDomKey`) are not part of this model. Whether the key is a shifted character is the `shiftedChar` parameter. The text is copied character by character, without UTF-8 to UTF-16 conversion.
- `OfficeInstance::Initialize` is taken to load the library successfully.
- document_client.h declares some members differently from document_client.cc. The model follows the .cc.

## Findings

| source | as written | input that shows it | evidently intended | confidence | as-written member | corrected member |
|---|---|---|---|---|---|---|
| src/electron/office/lok_tilebuffer.cc:107-113 | the guard `tile_index > columns_ * rows_ - 1` is computed in `unsigned int`, so on an empty grid the right side wraps to 2^32 - 1 and no tile is rejected | columns = rows = 0 and tile 5: the guard lets it through and pool slot 5 is claimed for a tile the one-bit bitset cannot hold | reject every tile on a grid without tiles | not executed | TileBuffers.EmptyGridAdmitsEveryTile | TileBuffers.TileBuffer.PaintTile |
| src/electron/office/lok_callback.cc:83-109 | `SkipNonNumeric` has no end check, so `ParseRect` reads past the payload when no digit is left, and its `target == end` test cannot stop it | the empty payload "" | stop at the end and return the empty rectangle | not executed | LokCallback.RectAsWrittenOverruns | LokCallback.ParseRect |
| src/electron/office/document_holder.cc:28-51 | `holder_->HasOneRef()` is asked after `holder_` has taken its own reference, so the reuse branch is never taken | a freshly loaded document with one view, opened through the pointer constructor: a second view is created | reuse the one view for the holder's first handle; `NewView` still creates one | not executed | DocumentHolders.AsWrittenNeverReuses | DocumentHolders.FirstHandleReusesView |
| src/electron/office/document_client.h:139-147 | `is_ready_` and the two document sizes have no initialiser and the constructor does not set them, yet `HandleStateChange` reads `is_ready_` | a client whose `is_ready_` storage holds true, mounted before its first tile invalidation: a state change is neither buffered nor replayed | start not ready, with a 0 × 0 size | not executed | DocumentClients.AsWrittenLosesEarlyState | DocumentClients.InitialisedKeepsEarlyState |
| src/electron/office/lok_callback.cc:72-81 | the loop runs while the iterator is before the end, but `ParseCSV` neither moves it nor reads anything on a character other than a digit, separator or whitespace | a text-selection payload "1,2;x": after the first list the loop never ends | stop at the first position where nothing can be read | not executed | LokCallback.CsvStalls | LokCallback.ParseMultipleCSVGuarded |
