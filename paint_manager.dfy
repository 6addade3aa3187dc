/**
 * The paint scheduler (paint_manager.cc): a two-slot state machine holding
 * the task being painted (`current_task_`) and the one waiting to replace it
 * (`next_task_`).  Requests are folded into the waiting task, merged with
 * what the current task has left undone, clipped to the task's own window
 * of rows and promoted; a promoted task is posted as one work item per
 * simplified range.  Superseded tasks are cancelled through the shared
 * flags they carry.
 *
 * The task runner is the `queue` of posted work items; the completion
 * barrier is a counter that invalidates the plugin container when it runs
 * out, unless the task's or the manager's flag was set by then.
 */
module PaintManagers {
  import opened Units
  import opened TileRanges
  import opened TileGrid
  import opened TileBuffers
  import CancelFlag
  import opened DocumentHolders

  datatype Option<T> = None | Some(value: T)

  /** An `int` passed where `unsigned int` is expected: taken modulo 2^32. */
  function AsUnsigned(x: int): (u: nat)
    ensures u <= U32Max && (0 <= x <= U32Max ==> u == x)
  {
    x % (U32Max + 1)
  }

  // ---------------------------------------------------------------------
  // Tasks as values

  /** The constant part of a `Task`: what it paints, and where. */
  datatype TaskShape = TaskShape(document: DocumentRef, yPos: int, viewHeight: int, scale: real,
                                 fullPaint: bool, tileRanges: seq<TileRange>)

  /** `LimitIndex(y_pos_, view_height_)` of a task on a grid of `columns`. */
  function Window(t: TaskShape, columns: nat): TileRange
  {
    LimitIndex(columns, t.yPos, AsUnsigned(t.viewHeight))
  }

  /**
   * `Task::MergeWith(tile_ranges)`: the task's ranges joined with the given
   * ones, clipped to the task's own window and simplified; coordinates and
   * `full_paint_` (ORed with itself) are the receiver's.
   */
  function MergedWithRanges(t: TaskShape, ranges: seq<TileRange>, columns: nat): TaskShape
  {
    t.(fullPaint := t.fullPaint || t.fullPaint,
       tileRanges := SimplifiedRanges(ClippedRanges(t.tileRanges + ranges, Window(t, columns))))
  }

  /**
   * `Task::MergeWith(other)`: the receiver's ranges clipped to the other's
   * window, followed by the other's ranges, simplified; the coordinates are
   * the other task's, `full_paint_` the OR of both.
   */
  function MergedWithTask(t: TaskShape, other: TaskShape, columns: nat): TaskShape
  {
    other.(fullPaint := t.fullPaint || other.fullPaint,
           tileRanges := SimplifiedRanges(ClippedRanges(t.tileRanges, Window(other, columns)) + other.tileRanges))
  }

  /** `Task::CanMergeWith(other)`. */
  predicate CanMerge(t: TaskShape, other: TaskShape)
  {
    t.document == other.document &&
    Abs(other.scale - t.scale) < 0.001 &&
    (other.yPos >= t.yPos && other.yPos < t.yPos + t.viewHeight) &&
    (t.yPos >= other.yPos && t.yPos < other.yPos + other.viewHeight)
  }

  /**
   * `is_same_task` of `ScheduleNextPaint`: the same document, and the
   * current task's ranges are a prefix of the next task's.
   */
  predicate SameTask(current: TaskShape, next: TaskShape)
  {
    current.document == next.document &&
    |current.tileRanges| <= |next.tileRanges| &&
    current.tileRanges == next.tileRanges[..|current.tileRanges|]
  }

  /**
   * The task `ScheduleNextPaint` promotes, given the current and next tasks,
   * the ranges passed in, and the grid and its validity state: (a) the
   * ranges merged into the next task (or into the current one when there is
   * no next); (b) when the current task can merge with it, what the current
   * task has left invalid merged in as well; (c) the result clipped to its
   * window once more.
   */
  function Promoted(current: Option<TaskShape>, next: Option<TaskShape>, ranges: seq<TileRange>,
                    columns: nat, bits: seq<bool>, pool: seq<nat>): Option<TaskShape>
  {
    var a := MergeRequested(current, next, ranges, columns);
    var b := MergeRemaining(current, a, columns, bits, pool);
    if b.Some? then Some(MergedWithRanges(b.value, [], columns)) else None
  }

  /** Step (a) of `ScheduleNextPaint`. */
  function MergeRequested(current: Option<TaskShape>, next: Option<TaskShape>, ranges: seq<TileRange>,
                          columns: nat): Option<TaskShape>
  {
    if ranges != [] && (current.Some? || next.Some?) then
      Some(MergedWithRanges(if next.Some? then next.value else current.value, ranges, columns))
    else next
  }

  /** Step (b) of `ScheduleNextPaint`. */
  function MergeRemaining(current: Option<TaskShape>, a: Option<TaskShape>, columns: nat,
                          bits: seq<bool>, pool: seq<nat>): Option<TaskShape>
  {
    if a.Some? && current.Some? && CanMerge(current.value, a.value) then
      var remaining := SimplifiedRanges(RemainingRuns([], current.value.tileRanges, bits, pool));
      if remaining != [] then Some(MergedWithRanges(a.value, remaining, columns)) else a
    else a
  }

  /**
   * Whether the current task is cancelled when `promoted` replaces it: only
   * a different task at a different `y_pos` (a scroll) cancels it.
   */
  predicate CancelsCurrent(current: TaskShape, promoted: Option<TaskShape>)
  {
    promoted.Some? && !SameTask(current, promoted.value) && current.yPos != promoted.value.yPos
  }

  /** The ranges `SchedulePaint` folds into a request. */
  function RequestRanges(current: TaskShape, next: Option<TaskShape>, document: DocumentRef,
                         ranges: seq<TileRange>): seq<TileRange>
  {
    if next.Some? && next.value.document == document then
      if current.document == document then ranges + next.value.tileRanges + current.tileRanges
      else ranges + next.value.tileRanges
    else ranges
  }

  /** The `full_paint` `SchedulePaint` folds into a request. */
  predicate RequestFullPaint(current: TaskShape, next: Option<TaskShape>, document: DocumentRef, fullPaint: bool)
  {
    if next.Some? && next.value.document == document then
      if current.document == document then fullPaint || next.value.fullPaint || current.fullPaint
      else fullPaint || next.value.fullPaint
    else fullPaint
  }

  // ---------------------------------------------------------------------
  // What the merges mean

  /** Every range lies inside `limit`. */
  predicate WithinLimit(rs: seq<TileRange>, limit: TileRange)
  {
    forall k :: 0 <= k < |rs| ==> limit.indexStart <= rs[k].indexStart && rs[k].indexEnd <= limit.indexEnd
  }

  /** Valid ranges covering only tiles of the limit lie inside it. */
  lemma WithinLimitByIndices(rs: seq<TileRange>, limit: TileRange)
    requires AllValid(rs) && Indices(rs) <= RangeSet(limit)
    ensures WithinLimit(rs, limit)
  {
    forall k | 0 <= k < |rs|
      ensures limit.indexStart <= rs[k].indexStart && rs[k].indexEnd <= limit.indexEnd
    {
      IndicesMember(rs, rs[k].indexStart);
      IndicesMember(rs, rs[k].indexEnd);
      assert rs[k].indexStart in RangeSet(limit);
      assert rs[k].indexEnd in RangeSet(limit);
    }
  }

  /** Simplified, valid and separated ranges of exactly the given tiles, inside `limit`. */
  predicate Covers(rs: seq<TileRange>, tiles: set<int>, limit: TileRange)
  {
    AllValid(rs) && (|rs| >= 2 ==> Separated(rs)) && WithinLimit(rs, limit) && Indices(rs) == tiles
  }

  /** Simplifying clipped ranges: the tiles of `rs` inside `limit`, within it. */
  lemma SimplifiedClipped(rs: seq<TileRange>, limit: TileRange)
    requires AllValid(rs) && limit.Valid()
    ensures Covers(SimplifiedRanges(ClippedRanges(rs, limit)), Indices(rs) * RangeSet(limit), limit)
  {
    var clipped := ClippedRanges(rs, limit);
    ClippedRangesWithin(rs, limit);
    ClippedRangesIndices(rs, limit);
    SimplifiedRangesCorrect(clipped);
    WithinLimitByIndices(SimplifiedRanges(clipped), limit);
  }

  /**
   * `MergeWith(tile_ranges)` keeps the receiver's document, coordinates and
   * `full_paint_`, and schedules exactly the tiles of both range lists that
   * lie in the receiver's window, as simplified ranges inside it.
   */
  lemma MergedWithRangesCorrect(t: TaskShape, ranges: seq<TileRange>, columns: nat)
    requires AllValid(t.tileRanges) && AllValid(ranges)
    ensures var m := MergedWithRanges(t, ranges, columns);
      m.document == t.document && m.yPos == t.yPos && m.viewHeight == t.viewHeight &&
      m.scale == t.scale && m.fullPaint == t.fullPaint &&
      Covers(m.tileRanges, (Indices(t.tileRanges) + Indices(ranges)) * RangeSet(Window(t, columns)), Window(t, columns))
  {
    IndicesAppend(t.tileRanges, ranges);
    SimplifiedClipped(t.tileRanges + ranges, Window(t, columns));
  }

  /**
   * `MergeWith(other)` takes the other task's document and coordinates, ORs
   * `full_paint_`, and schedules the receiver's tiles inside the other's
   * window together with all of the other's tiles.
   */
  lemma MergedWithTaskCorrect(t: TaskShape, other: TaskShape, columns: nat)
    requires AllValid(t.tileRanges) && AllValid(other.tileRanges)
    ensures var m := MergedWithTask(t, other, columns);
      m.document == other.document && m.yPos == other.yPos && m.viewHeight == other.viewHeight &&
      m.scale == other.scale && m.fullPaint == (t.fullPaint || other.fullPaint) &&
      AllValid(m.tileRanges) && (|m.tileRanges| >= 2 ==> Separated(m.tileRanges)) &&
      Indices(m.tileRanges) == Indices(t.tileRanges) * RangeSet(Window(other, columns)) + Indices(other.tileRanges)
  {
    var limit := Window(other, columns);
    var clipped := ClippedRanges(t.tileRanges, limit);
    ClippedRangesWithin(t.tileRanges, limit);
    ClippedRangesIndices(t.tileRanges, limit);
    IndicesAppend(clipped, other.tileRanges);
    SimplifiedRangesCorrect(clipped + other.tileRanges);
  }

  /**
   * Two tasks can merge iff they show the same document at scales within
   * 0.001, both with a positive height, at the same `y_pos`: each window
   * must start inside the other.
   */
  lemma CanMergeIffSamePosition(t: TaskShape, other: TaskShape)
    ensures CanMerge(t, other) <==>
      t.document == other.document && Abs(other.scale - t.scale) < 0.001 &&
      t.yPos == other.yPos && t.viewHeight > 0 && other.viewHeight > 0
    ensures CanMerge(t, other) <==> CanMerge(other, t)
  {
  }

  /**
   * A task is the same as itself and as any task of its document whose list
   * continues its own; one whose list dropped a range is not.
   */
  lemma SameTaskIsPrefix(t: TaskShape, extra: seq<TileRange>)
    ensures SameTask(t, t)
    ensures SameTask(t, t.(tileRanges := t.tileRanges + extra))
    ensures t.tileRanges != [] ==> !SameTask(t, t.(tileRanges := t.tileRanges[..|t.tileRanges| - 1]))
  {
    assert t.tileRanges[..|t.tileRanges|] == t.tileRanges;
    assert (t.tileRanges + extra)[..|t.tileRanges|] == t.tileRanges;
  }

  /**
   * What `ScheduleNextPaint` promotes: nothing exactly when there is no
   * next task and either no ranges or no current task; otherwise a task at
   * the coordinates (and with the `full_paint_`) of the next task, or of the
   * current one when there is no next, scheduling exactly the tiles of that
   * task, of the given ranges and, when the current task can merge with it,
   * the current task's tiles that are still invalid or evicted, all within
   * its window.
   */
  lemma PromotedCorrect(current: Option<TaskShape>, next: Option<TaskShape>, ranges: seq<TileRange>,
                        columns: nat, bits: seq<bool>, pool: seq<nat>)
    requires current.Some? ==> AllValid(current.value.tileRanges)
    requires next.Some? ==> AllValid(next.value.tileRanges)
    requires AllValid(ranges)
    ensures var p := Promoted(current, next, ranges, columns, bits, pool);
      (p.None? <==> next.None? && (ranges == [] || current.None?)) &&
      (p.Some? ==>
        var base := if next.Some? then next.value else current.value;
        var limit := Window(base, columns);
        var missing := if current.Some? && CanMerge(current.value, base)
                       then MissingIndices(current.value.tileRanges, bits, pool) else {};
        SameCoordinates(p.value, base) && p.value.fullPaint == base.fullPaint &&
        Covers(p.value.tileRanges, (Indices(base.tileRanges) + Indices(ranges) + missing) * RangeSet(limit), limit))
  {
    MergeRequestedCorrect(current, next, ranges, columns);
    var a := MergeRequested(current, next, ranges, columns);
    if a.Some? {
      var base := if next.Some? then next.value else current.value;
      var b := MergeRemaining(current, a, columns, bits, pool).value;
      StepsAfterRequest(current, a.value, base, Indices(base.tileRanges) + Indices(ranges), columns, bits, pool);
      assert Promoted(current, next, ranges, columns, bits, pool) == Some(MergedWithRanges(b, [], columns));
    }
  }

  /**
   * Steps (b) and (c) applied to a task with the coordinates of `base` that
   * schedules the `requested` tiles within the window.
   */
  lemma StepsAfterRequest(current: Option<TaskShape>, a: TaskShape, base: TaskShape, requested: set<int>,
                          columns: nat, bits: seq<bool>, pool: seq<nat>)
    requires current.Some? ==> AllValid(current.value.tileRanges)
    requires SameCoordinates(a, base) && a.fullPaint == base.fullPaint && AllValid(a.tileRanges)
    requires Indices(a.tileRanges) * RangeSet(Window(base, columns)) == requested * RangeSet(Window(base, columns))
    ensures var p := MergedWithRanges(MergeRemaining(current, Some(a), columns, bits, pool).value, [], columns);
      var limit := Window(base, columns);
      var missing := if current.Some? && CanMerge(current.value, base)
                     then MissingIndices(current.value.tileRanges, bits, pool) else {};
      SameCoordinates(p, base) && p.fullPaint == base.fullPaint &&
      Covers(p.tileRanges, (requested + missing) * RangeSet(limit), limit)
  {
    var limit := Window(base, columns);
    var missing := if current.Some? && CanMerge(current.value, base)
                   then MissingIndices(current.value.tileRanges, bits, pool) else {};
    MergeRemainingCorrect(current, a, columns, bits, pool);
    var b := MergeRemaining(current, Some(a), columns, bits, pool).value;
    assert Window(a, columns) == limit && Window(b, columns) == limit;
    ClipAgain(b, columns);
    ClipTwice(requested, Indices(a.tileRanges), missing, Indices(b.tileRanges), RangeSet(limit));
  }

  /** Step (c) alone: clipping a task to its own window once more. */
  lemma ClipAgain(b: TaskShape, columns: nat)
    requires AllValid(b.tileRanges)
    ensures var m := MergedWithRanges(b, [], columns);
      SameCoordinates(m, b) && m.fullPaint == b.fullPaint &&
      Covers(m.tileRanges, Indices(b.tileRanges) * RangeSet(Window(b, columns)), Window(b, columns))
  {
    MergedWithRangesCorrect(b, [], columns);
    assert Indices(b.tileRanges) + Indices([]) == Indices(b.tileRanges) by {
      assert Indices([]) == {};
    }
  }

  /** Intersecting with the window after each step is intersecting once. */
  lemma ClipTwice(requested: set<int>, a: set<int>, missing: set<int>, b: set<int>, window: set<int>)
    requires a * window == requested * window && b * window == (a + missing) * window
    ensures b * window == (requested + missing) * window
  {
    calc {
      b * window;
      (a + missing) * window;
      { SetIntersectDistributes(a, missing, window); }
      a * window + missing * window;
      requested * window + missing * window;
      { SetIntersectDistributes(requested, missing, window); }
      (requested + missing) * window;
    }
  }

  /** The coordinates and document of two tasks agree. */
  predicate SameCoordinates(t: TaskShape, u: TaskShape)
  {
    t.document == u.document && t.yPos == u.yPos && t.viewHeight == u.viewHeight && t.scale == u.scale
  }

  /** Step (a) keeps the base task's coordinates and adds the given tiles inside its window. */
  lemma MergeRequestedCorrect(current: Option<TaskShape>, next: Option<TaskShape>, ranges: seq<TileRange>, columns: nat)
    requires current.Some? ==> AllValid(current.value.tileRanges)
    requires next.Some? ==> AllValid(next.value.tileRanges)
    requires AllValid(ranges)
    ensures var a := MergeRequested(current, next, ranges, columns);
      (a.None? <==> next.None? && (ranges == [] || current.None?)) &&
      (a.Some? ==>
        var base := if next.Some? then next.value else current.value;
        var limit := Window(base, columns);
        SameCoordinates(a.value, base) && a.value.fullPaint == base.fullPaint && AllValid(a.value.tileRanges) &&
        Indices(a.value.tileRanges) * RangeSet(limit) == (Indices(base.tileRanges) + Indices(ranges)) * RangeSet(limit))
  {
    var a := MergeRequested(current, next, ranges, columns);
    if a.Some? {
      var base := if next.Some? then next.value else current.value;
      var limit := Window(base, columns);
      if ranges != [] {
        MergedWithRangesCorrect(base, ranges, columns);
      } else {
        assert Indices(ranges) == {} by { assert ranges == []; }
      }
    }
  }

  /** Step (b) keeps the coordinates and adds the current task's missing tiles when the two can merge. */
  lemma MergeRemainingCorrect(current: Option<TaskShape>, a: TaskShape, columns: nat, bits: seq<bool>, pool: seq<nat>)
    requires current.Some? ==> AllValid(current.value.tileRanges)
    requires AllValid(a.tileRanges)
    ensures var b := MergeRemaining(current, Some(a), columns, bits, pool);
      var limit := Window(a, columns);
      var missing := if current.Some? && CanMerge(current.value, a)
                     then MissingIndices(current.value.tileRanges, bits, pool) else {};
      b.Some? && SameCoordinates(b.value, a) && b.value.fullPaint == a.fullPaint && AllValid(b.value.tileRanges) &&
      Indices(b.value.tileRanges) * RangeSet(limit) == (Indices(a.tileRanges) + missing) * RangeSet(limit)
  {
    if current.Some? && CanMerge(current.value, a) {
      var remaining := SimplifiedRanges(RemainingRuns([], current.value.tileRanges, bits, pool));
      InvalidRangesRemainingCorrect(current.value.tileRanges, bits, pool);
      if remaining != [] {
        MergedWithRangesCorrect(a, remaining, columns);
      }
    }
  }

  /**
   * A promoted task that the current one can merge with is at the same
   * `y_pos`, so the current task is never cancelled in that case.
   */
  lemma MergeableNeverCancels(current: TaskShape, next: Option<TaskShape>, ranges: seq<TileRange>,
                              columns: nat, bits: seq<bool>, pool: seq<nat>)
    requires AllValid(current.tileRanges) && AllValid(ranges)
    requires next.Some? ==> AllValid(next.value.tileRanges)
    requires CanMerge(current, if next.Some? then next.value else current)
    ensures !CancelsCurrent(current, Promoted(Some(current), next, ranges, columns, bits, pool))
  {
    PromotedCorrect(Some(current), next, ranges, columns, bits, pool);
  }

  /**
   * The request `SchedulePaint` builds takes the waiting task's tiles and
   * `full_paint` only when that task shows the same document, and the
   * current task's only when it does too.
   */
  lemma RequestFolds(current: TaskShape, next: Option<TaskShape>, document: DocumentRef,
                     ranges: seq<TileRange>, fullPaint: bool)
    ensures var sameNext := next.Some? && next.value.document == document;
      var sameBoth := sameNext && current.document == document;
      Indices(RequestRanges(current, next, document, ranges)) ==
        Indices(ranges) + (if sameNext then Indices(next.value.tileRanges) else {}) +
        (if sameBoth then Indices(current.tileRanges) else {})
    ensures var sameNext := next.Some? && next.value.document == document;
      var sameBoth := sameNext && current.document == document;
      RequestFullPaint(current, next, document, fullPaint) ==
        (fullPaint || (sameNext && next.value.fullPaint) || (sameBoth && current.fullPaint))
  {
    if next.Some? && next.value.document == document {
      IndicesAppend(ranges, next.value.tileRanges);
      if current.document == document {
        IndicesAppend(ranges + next.value.tileRanges, current.tileRanges);
      }
    }
  }

  /**
   * What `SchedulePaint` makes current when a task already is: always a
   * task, at the requested coordinates, painting fully when any folded task
   * asked to, and scheduling exactly the requested tiles, those of the
   * waiting and current tasks it folded in, and the current task's missing
   * tiles when the two can merge, all clipped to the requested window; the
   * current task is cancelled only when the request scrolled away.
   */
  lemma SchedulePaintCorrect(current: TaskShape, next: Option<TaskShape>, document: DocumentRef, yPos: int,
                             viewHeight: int, scale: real, fullPaint: bool, ranges: seq<TileRange>,
                             columns: nat, bits: seq<bool>, pool: seq<nat>)
    requires AllValid(current.tileRanges) && AllValid(ranges)
    requires next.Some? ==> AllValid(next.value.tileRanges)
    ensures var request := TaskShape(document, yPos, viewHeight, scale,
              RequestFullPaint(current, next, document, fullPaint),
              SimplifiedRanges(RequestRanges(current, next, document, ranges)));
      var p := Promoted(Some(current), Some(request), [], columns, bits, pool);
      var sameNext := next.Some? && next.value.document == document;
      var sameBoth := sameNext && current.document == document;
      var limit := Window(request, columns);
      var missing := if CanMerge(current, request) then MissingIndices(current.tileRanges, bits, pool) else {};
      p.Some? && SameCoordinates(p.value, request) &&
      p.value.fullPaint == (fullPaint || (sameNext && next.value.fullPaint) || (sameBoth && current.fullPaint)) &&
      Covers(p.value.tileRanges,
             (Indices(ranges) + (if sameNext then Indices(next.value.tileRanges) else {}) +
              (if sameBoth then Indices(current.tileRanges) else {}) + missing) * RangeSet(limit), limit) &&
      (CancelsCurrent(current, p) <==> !SameTask(current, p.value) && current.yPos != yPos)
  {
    var folded := RequestRanges(current, next, document, ranges);
    assert AllValid(folded);
    SimplifiedRangesCorrect(folded);
    RequestFolds(current, next, document, ranges, fullPaint);
    var request := TaskShape(document, yPos, viewHeight, scale,
                             RequestFullPaint(current, next, document, fullPaint), SimplifiedRanges(folded));
    PromotedCorrect(Some(current), Some(request), [], columns, bits, pool);
    assert Indices([]) == {};
  }

  // ---------------------------------------------------------------------
  // Tasks, the barrier and posted work

  /** `PaintManager::Task`: immutable coordinates and ranges, and two fresh flags. */
  class Task {
    const document: DocumentRef
    const yPos: int
    const viewHeight: int
    const scale: real
    const fullPaint: bool
    const tileRanges: seq<TileRange>
    const skipPaintFlag: CancelFlag.Flag
    const skipInvalidationFlag: CancelFlag.Flag

    constructor (document: DocumentRef, yPos: int, viewHeight: int, scale: real, fullPaint: bool,
                 tileRanges: seq<TileRange>)
      ensures Shape() == TaskShape(document, yPos, viewHeight, scale, fullPaint, tileRanges)
      ensures fresh(skipPaintFlag) && fresh(skipInvalidationFlag) && skipPaintFlag != skipInvalidationFlag
      ensures !skipPaintFlag.isSet && !skipInvalidationFlag.isSet
    {
      this.document := document;
      this.yPos := yPos;
      this.viewHeight := viewHeight;
      this.scale := scale;
      this.fullPaint := fullPaint;
      this.tileRanges := tileRanges;
      skipPaintFlag := new CancelFlag.Flag();
      skipInvalidationFlag := new CancelFlag.Flag();
    }

    function Shape(): TaskShape
    {
      TaskShape(document, yPos, viewHeight, scale, fullPaint, tileRanges)
    }

    /** `CanMergeWith(other)`. */
    predicate CanMergeWith(other: Task)
    {
      CanMerge(Shape(), other.Shape())
    }

    /** `MergeWith(other, tile_buffer)`: a new task with fresh flags. */
    method MergeWithTask(other: Task, tileBuffer: TileBuffer) returns (merged: Task)
      ensures fresh(merged) && fresh(merged.skipPaintFlag) && fresh(merged.skipInvalidationFlag)
      ensures !merged.skipPaintFlag.isSet && !merged.skipInvalidationFlag.isSet
      ensures merged.Shape() == MergedWithTask(Shape(), other.Shape(), tileBuffer.columns)
    {
      var limit := tileBuffer.LimitIndexOf(other.yPos, AsUnsigned(other.viewHeight));
      var clipped := ClipRanges(tileRanges, limit);
      clipped := clipped + other.tileRanges;
      var simplified := SimplifyRanges(clipped);
      merged := new Task(other.document, other.yPos, other.viewHeight, other.scale,
                         fullPaint || other.fullPaint, simplified);
    }

    /** `MergeWith(tile_ranges, tile_buffer)`: a new task with fresh flags. */
    method MergeWithRanges(ranges: seq<TileRange>, tileBuffer: TileBuffer) returns (merged: Task)
      ensures fresh(merged) && fresh(merged.skipPaintFlag) && fresh(merged.skipInvalidationFlag)
      ensures !merged.skipPaintFlag.isSet && !merged.skipInvalidationFlag.isSet
      ensures merged.Shape() == MergedWithRanges(Shape(), ranges, tileBuffer.columns)
    {
      var limit := tileBuffer.LimitIndexOf(yPos, AsUnsigned(viewHeight));
      var joined := tileRanges + ranges;
      var clipped := ClipRanges(joined, limit);
      var simplified := SimplifyRanges(clipped);
      merged := new Task(document, yPos, viewHeight, scale, fullPaint || fullPaint, simplified);
    }
  }

  /** `PaintManager::Client`: the plugin's tile buffer, and its container invalidations. */
  class PaintClient {
    const tileBuffer: TileBuffer
    /** How often `InvalidatePluginContainer` ran. */
    var invalidations: nat

    constructor (tileBuffer: TileBuffer)
      ensures this.tileBuffer == tileBuffer && invalidations == 0
    {
      this.tileBuffer := tileBuffer;
      invalidations := 0;
    }
  }

  /**
   * The `BarrierClosure(tile_count, ...)` of a posted task: after
   * `remaining` runs it invalidates the container unless the manager's or
   * the task's flag is set by then.
   */
  class Barrier {
    var remaining: nat
    const taskCancel: CancelFlag.Flag
    const managerCancel: CancelFlag.Flag
    const client: PaintClient

    constructor (count: nat, taskCancel: CancelFlag.Flag, managerCancel: CancelFlag.Flag, client: PaintClient)
      ensures remaining == count && this.taskCancel == taskCancel && this.managerCancel == managerCancel
      ensures this.client == client
    {
      remaining := count;
      this.taskCancel := taskCancel;
      this.managerCancel := managerCancel;
      this.client := client;
    }

    /** Whether the done closure invalidates: neither flag is set. */
    predicate Fires()
      reads taskCancel, managerCancel
    {
      !CancelFlag.IsCancelled(managerCancel) && !CancelFlag.IsCancelled(taskCancel)
    }

    /** The done closure. */
    method Done()
      modifies client
      ensures client.invalidations == old(client.invalidations) + (if Fires() then 1 else 0)
    {
      if !CancelFlag.IsCancelled(managerCancel) && !CancelFlag.IsCancelled(taskCancel) {
        client.invalidations := client.invalidations + 1;
      }
    }

    /** `completed.Run()`: the last expected run fires the done closure. */
    method Run()
      modifies this, client
      ensures remaining == if old(remaining) > 0 then old(remaining) - 1 else 0
      ensures client.invalidations == old(client.invalidations) + (if old(remaining) == 1 && Fires() then 1 else 0)
    {
      if remaining > 0 {
        remaining := remaining - 1;
        if remaining == 0 {
          Done();
        }
      }
    }
  }

  /** `base::BarrierClosure(count, done)`: a count of 0 runs `done` at once. */
  method MakeBarrier(count: nat, taskCancel: CancelFlag.Flag, managerCancel: CancelFlag.Flag, client: PaintClient)
    returns (barrier: Barrier)
    modifies client
    ensures fresh(barrier) && barrier.remaining == count && barrier.client == client
    ensures barrier.taskCancel == taskCancel && barrier.managerCancel == managerCancel
    ensures client.invalidations == old(client.invalidations) + (if count == 0 && barrier.Fires() then 1 else 0)
  {
    barrier := new Barrier(count, taskCancel, managerCancel, client);
    if count == 0 {
      barrier.Done();
    }
  }

  /** A posted `PaintTileRange` work item. */
  datatype PaintJob = PaintJob(cancelFlag: CancelFlag.Flag, document: DocumentRef, range: TileRange,
                               contextHash: nat, completed: Barrier)

  /** The work items `PostCurrentTask` posts for a task: one per simplified range, in order. */
  function JobsFor(task: Task, contextHash: nat, completed: Barrier): (jobs: seq<PaintJob>)
    ensures |jobs| == |SimplifiedRanges(task.tileRanges)|
    ensures forall k :: 0 <= k < |jobs| ==>
      jobs[k] == PaintJob(task.skipPaintFlag, task.document, SimplifiedRanges(task.tileRanges)[k], contextHash, completed)
  {
    var ranges := SimplifiedRanges(task.tileRanges);
    seq(|ranges|, k requires 0 <= k < |ranges| =>
      PaintJob(task.skipPaintFlag, task.document, ranges[k], contextHash, completed))
  }

  /**
   * The loop of `PostCurrentTask`: the barrier expecting `TileCount` runs of
   * the simplified ranges, and one work item per simplified range.
   */
  method PostRanges(task: Task, contextHash: nat, managerCancel: CancelFlag.Flag, client: PaintClient)
    returns (jobs: seq<PaintJob>, completed: Barrier)
    requires AllValid(task.tileRanges)
    modifies client
    ensures fresh(completed) && completed.remaining == RangesTileCount(SimplifiedRanges(task.tileRanges))
    ensures completed.taskCancel == task.skipInvalidationFlag && completed.managerCancel == managerCancel
    ensures completed.client == client
    ensures jobs == JobsFor(task, contextHash, completed)
    ensures client.invalidations == old(client.invalidations) +
      (if SimplifiedRanges(task.tileRanges) == [] && completed.Fires() then 1 else 0)
  {
    var simplified := SimplifyRanges(task.tileRanges);
    SimplifiedRangesCorrect(task.tileRanges);
    var tileCount := TileCount(simplified);
    if simplified != [] {
      assert tileCount > 0 by { TileCountPositive(simplified); }
    } else {
      assert tileCount == 0;
    }
    completed := MakeBarrier(tileCount, task.skipInvalidationFlag, managerCancel, client);
    jobs := [];
    var k := 0;
    while k < |simplified|
      invariant 0 <= k <= |simplified|
      invariant jobs == JobsFor(task, contextHash, completed)[..k]
    {
      jobs := jobs + [PaintJob(task.skipPaintFlag, task.document, simplified[k], contextHash, completed)];
      k := k + 1;
    }
  }

  /** Valid ranges count at least one tile each. */
  lemma {:induction false} TileCountPositive(rs: seq<TileRange>)
    requires AllValid(rs) && rs != []
    ensures RangesTileCount(rs) > 0
    decreases |rs|
  {
    var n := |rs| - 1;
    if n > 0 {
      assert AllValid(rs[..n]);
      TileCountPositive(rs[..n]);
    } else {
      assert rs[..n] == [];
    }
  }

  /**
   * `PaintManager::PaintTile`: paints one tile and counts it done, whatever
   * the outcome.  `contextAfterRaster` is the active hash the buffer sees
   * once the raster call returns.
   */
  method PaintTile(tileBuffer: TileBuffer, cancelFlag: CancelFlag.Flag, tileIndex: nat, contextHash: nat,
                   contextAfterRaster: nat, completed: Barrier) returns (painted: bool)
    requires tileBuffer.Valid()
    modifies tileBuffer, tileBuffer.valid.data, tileBuffer.pool, completed, completed.client
    ensures tileBuffer.Valid() && tileBuffer.GeometryUnchanged() && tileBuffer.valid.Size() == old(tileBuffer.valid.Size())
    ensures completed.remaining == if old(completed.remaining) > 0 then old(completed.remaining) - 1 else 0
    ensures old(tileBuffer.activeContext) != contextHash || RejectsTile(tileBuffer.columns, tileBuffer.rows, tileIndex) ==>
      !painted
    ensures painted ==>
      tileIndex < tileBuffer.valid.Size() && tileBuffer.valid.data[tileIndex] &&
      tileBuffer.pool[tileIndex % PoolSize] == tileIndex && tileBuffer.activeContext == contextHash
    ensures old(tileBuffer.activeContext) == contextHash && !RejectsTile(tileBuffer.columns, tileBuffer.rows, tileIndex) &&
            !CancelFlag.IsCancelled(cancelFlag) && contextAfterRaster == contextHash ==>
      painted
  {
    painted := tileBuffer.PaintTile(cancelFlag, tileIndex, contextHash, contextAfterRaster);
    completed.Run();
  }

  /**
   * `PaintTileRange`: paints the tiles of the range in ascending order and
   * stops after the first that fails.  `rasterContext(i)` is the active hash
   * seen after rasterising tile `i`.  `results[k]` is the outcome for tile
   * `range.indexStart + k`, and `bitsAfter[k]` the validity bits just after
   * that tile was painted.
   */
  method PaintTileRange(tileBuffer: TileBuffer, cancelFlag: CancelFlag.Flag, range: TileRange, contextHash: nat,
                        completed: Barrier, rasterContext: nat -> nat)
    returns (results: seq<bool>, ghost bitsAfter: seq<seq<bool>>)
    requires tileBuffer.Valid() && range.Valid()
    modifies tileBuffer, tileBuffer.valid.data, tileBuffer.pool, completed, completed.client
    ensures tileBuffer.Valid() && tileBuffer.GeometryUnchanged()
    ensures 1 <= |results| <= range.indexEnd - range.indexStart + 1
    ensures forall k :: 0 <= k < |results| - 1 ==> results[k]
    ensures |results| < range.indexEnd - range.indexStart + 1 ==> !results[|results| - 1]
    ensures completed.remaining == if old(completed.remaining) >= |results| then old(completed.remaining) - |results| else 0
    ensures old(tileBuffer.activeContext) != contextHash ==> results == [false]
    ensures PaintedTilesValid(results, bitsAfter, range.indexStart, old(tileBuffer.columns), old(tileBuffer.rows))
    ensures old(tileBuffer.activeContext) == contextHash && !CancelFlag.IsCancelled(cancelFlag) ==>
      forall k :: 0 <= k < |results| ==>
        ((!RejectsTile(old(tileBuffer.columns), old(tileBuffer.rows), range.indexStart + k) &&
          rasterContext(range.indexStart + k) == contextHash) ==> results[k])
  {
    ghost var columns, rows := tileBuffer.columns, tileBuffer.rows;
    results := [];
    bitsAfter := [];
    var tileIndex := range.indexStart;
    while tileIndex <= range.indexEnd
      invariant range.indexStart <= tileIndex <= range.indexEnd + 1
      invariant |results| == tileIndex - range.indexStart
      invariant forall k :: 0 <= k < |results| ==> results[k]
      invariant PaintedTilesValid(results, bitsAfter, range.indexStart, columns, rows)
      invariant old(tileBuffer.activeContext) == contextHash ==> tileBuffer.activeContext == contextHash
      invariant tileBuffer.Valid() && tileBuffer.GeometryUnchanged()
      invariant completed.remaining ==
        if old(completed.remaining) >= |results| then old(completed.remaining) - |results| else 0
      invariant old(tileBuffer.activeContext) != contextHash ==> results == []
      invariant old(tileBuffer.activeContext) != contextHash ==> tileBuffer.activeContext == old(tileBuffer.activeContext)
      decreases range.indexEnd + 1 - tileIndex
    {
      var painted := PaintTile(tileBuffer, cancelFlag, tileIndex, contextHash, rasterContext(tileIndex), completed);
      PaintedTilesValidExtend(results, bitsAfter, range.indexStart, columns, rows, painted, tileBuffer.valid.data[..]);
      results := results + [painted];
      bitsAfter := bitsAfter + [tileBuffer.valid.data[..]];
      if !painted {
        return;
      }
      tileIndex := tileIndex + 1;
    }
  }

  /** Every tile reported painted lies on the grid and was valid right after it was painted. */
  ghost predicate PaintedTilesValid(results: seq<bool>, bitsAfter: seq<seq<bool>>, start: nat, columns: nat, rows: nat)
  {
    |bitsAfter| == |results| &&
    forall k :: 0 <= k < |results| && results[k] ==>
      !RejectsTile(columns, rows, start + k) && start + k < |bitsAfter[k]| && bitsAfter[k][start + k]
  }

  /** One more tile painted, with the bits seen right after it. */
  lemma PaintedTilesValidExtend(results: seq<bool>, bitsAfter: seq<seq<bool>>, start: nat, columns: nat, rows: nat,
                                painted: bool, bits: seq<bool>)
    requires PaintedTilesValid(results, bitsAfter, start, columns, rows)
    requires painted ==> !RejectsTile(columns, rows, start + |results|) && start + |results| < |bits| && bits[start + |results|]
    ensures PaintedTilesValid(results + [painted], bitsAfter + [bits], start, columns, rows)
  {
    var rs, bs := results + [painted], bitsAfter + [bits];
    forall k | 0 <= k < |rs| && rs[k]
      ensures !RejectsTile(columns, rows, start + k) && start + k < |bs[k]| && bs[k][start + k]
    {
      if k < |results| {
        assert rs[k] == results[k] && bs[k] == bitsAfter[k];
      }
    }
  }

  /** The value of an optional task slot. */
  function ShapeOf(t: Task?): (shape: Option<TaskShape>)
    ensures shape.None? <==> t == null
  {
    if t == null then None else Some(t.Shape())
  }

  /**
   * The `is_same_task` loop of `ScheduleNextPaint`: walks the current
   * task's ranges against the next task's, one step of the next iterator per
   * range while the answer is still yes.
   */
  method IsSameTask(current: Task, next: Task) returns (same: bool)
    ensures same <==> SameTask(current.Shape(), next.Shape())
  {
    same := current.document == next.document;
    var n := 0;
    var k := 0;
    while k < |current.tileRanges|
      invariant 0 <= k <= |current.tileRanges|
      invariant same ==> n == k
      invariant same <==> current.document == next.document && k <= |next.tileRanges| &&
                          current.tileRanges[..k] == next.tileRanges[..k]
    {
      if same && n < |next.tileRanges| {
        same := current.tileRanges[k] == next.tileRanges[n];
        n := n + 1;
      } else {
        same := false;
      }
      k := k + 1;
    }
    assert current.tileRanges[..k] == current.tileRanges;
  }

  // ---------------------------------------------------------------------
  // The manager

  /** Step (a) of `ScheduleNextPaint` on tasks. */
  method MergeRequestedTask(current: Task?, next: Task?, tileRanges: seq<TileRange>, tileBuffer: TileBuffer)
    returns (requested: Task?)
    requires current != null ==> AllValid(current.tileRanges)
    requires next != null ==> AllValid(next.tileRanges)
    requires AllValid(tileRanges)
    ensures ShapeOf(requested) == MergeRequested(ShapeOf(current), ShapeOf(next), tileRanges, tileBuffer.columns)
    ensures requested != null ==> AllValid(requested.tileRanges)
  {
    requested := next;
    if tileRanges != [] && (current != null || next != null) {
      if next != null {
        MergedWithRangesCorrect(next.Shape(), tileRanges, tileBuffer.columns);
        requested := next.MergeWithRanges(tileRanges, tileBuffer);
      } else {
        MergedWithRangesCorrect(current.Shape(), tileRanges, tileBuffer.columns);
        requested := current.MergeWithRanges(tileRanges, tileBuffer);
      }
    }
  }

  /** Step (b) of `ScheduleNextPaint` on tasks. */
  method MergeRemainingTask(current: Task?, requested: Task?, tileBuffer: TileBuffer) returns (merged: Task?)
    requires current != null ==> AllValid(current.tileRanges)
    requires requested != null ==> AllValid(requested.tileRanges)
    requires tileBuffer.Valid()
    ensures ShapeOf(merged) == MergeRemaining(ShapeOf(current), ShapeOf(requested), tileBuffer.columns,
                                              tileBuffer.valid.data[..], tileBuffer.pool[..])
    ensures merged != null ==> AllValid(merged.tileRanges)
  {
    ghost var bits := tileBuffer.valid.data[..];
    ghost var slots := tileBuffer.pool[..];
    merged := requested;
    if requested != null && current != null && current.CanMergeWith(requested) {
      var remaining := tileBuffer.InvalidRangesRemaining(current.tileRanges);
      ghost var shape := requested.Shape();
      assert remaining == SimplifiedRanges(RemainingRuns([], current.tileRanges, bits, slots));
      if remaining != [] {
        InvalidRangesRemainingCorrect(current.tileRanges, bits, slots);
        MergedWithRangesCorrect(shape, remaining, tileBuffer.columns);
        merged := requested.MergeWithRanges(remaining, tileBuffer);
        assert merged.Shape() == MergedWithRanges(shape, remaining, tileBuffer.columns);
      }
    }
  }

  /**
   * Steps (a) to (c) of `ScheduleNextPaint`: the task `Promoted` describes,
   * with fresh flags.
   */
  method PromotedTask(current: Task?, next: Task?, tileRanges: seq<TileRange>, tileBuffer: TileBuffer)
    returns (promoted: Task?)
    requires current != null ==> AllValid(current.tileRanges)
    requires next != null ==> AllValid(next.tileRanges)
    requires AllValid(tileRanges) && tileBuffer.Valid()
    ensures ShapeOf(promoted) == Promoted(ShapeOf(current), ShapeOf(next), tileRanges, tileBuffer.columns,
                                          tileBuffer.valid.data[..], tileBuffer.pool[..])
    ensures promoted != null ==> AllValid(promoted.tileRanges)
    ensures promoted != null ==> fresh(promoted) && fresh(promoted.skipPaintFlag) && fresh(promoted.skipInvalidationFlag)
    ensures promoted != null ==> !promoted.skipPaintFlag.isSet && !promoted.skipInvalidationFlag.isSet
  {
    ghost var columns := tileBuffer.columns;
    var requested := MergeRequestedTask(current, next, tileRanges, tileBuffer);
    promoted := MergeRemainingTask(current, requested, tileBuffer);
    // (c) clip to the task's own window
    if promoted != null {
      ghost var b := promoted.Shape();
      MergedWithRangesCorrect(b, [], columns);
      promoted := promoted.MergeWithRanges([], tileBuffer);
      assert promoted.Shape() == MergedWithRanges(b, [], columns);
    }
  }

  /**
   * Step (d) of `ScheduleNextPaint` when both slots are taken: the current
   * task is cancelled when the next one is a different task at another
   * `y_pos`.
   */
  method RetireCurrent(current: Task, next: Task)
    modifies current.skipPaintFlag, current.skipInvalidationFlag
    ensures current.skipPaintFlag.isSet <==>
      old(current.skipPaintFlag.isSet) || CancelsCurrent(current.Shape(), Some(next.Shape()))
    ensures current.skipInvalidationFlag.isSet <==>
      old(current.skipInvalidationFlag.isSet) || CancelsCurrent(current.Shape(), Some(next.Shape()))
  {
    var same := IsSameTask(current, next);
    if !same {
      if current.yPos != next.yPos {
        CancelFlag.Set(current.skipPaintFlag);
        CancelFlag.Set(current.skipInvalidationFlag);
      }
    }
  }

  /**
   * The waiting task `SchedulePaint` builds when a task is current: the
   * request, joined with the waiting task's ranges and `full_paint` when it
   * shows the same document, and with the current task's as well when that
   * one does too; the ranges are simplified.
   */
  method RequestTask(current: Task, next: Task?, document: DocumentRef, yPos: int, viewHeight: int,
                     scale: real, fullPaint: bool, tileRanges: seq<TileRange>) returns (request: Task)
    requires AllValid(current.tileRanges) && AllValid(tileRanges)
    requires next != null ==> AllValid(next.tileRanges)
    ensures fresh(request) && fresh(request.skipPaintFlag) && fresh(request.skipInvalidationFlag)
    ensures !request.skipPaintFlag.isSet && !request.skipInvalidationFlag.isSet
    ensures request.Shape() == TaskShape(document, yPos, viewHeight, scale,
      RequestFullPaint(current.Shape(), ShapeOf(next), document, fullPaint),
      SimplifiedRanges(RequestRanges(current.Shape(), ShapeOf(next), document, tileRanges)))
    ensures AllValid(request.tileRanges)
  {
    var ranges := tileRanges;
    var full := fullPaint;
    if next != null && next.document == document {
      ranges := ranges + next.tileRanges;
      full := full || next.fullPaint;
      if current.document == document {
        ranges := ranges + current.tileRanges;
        full := full || current.fullPaint;
      }
    }
    assert ranges == RequestRanges(current.Shape(), ShapeOf(next), document, tileRanges);
    SimplifiedRangesCorrect(ranges);
    var simplified := SimplifyRanges(ranges);
    request := new Task(document, yPos, viewHeight, scale, full, simplified);
  }

  class PaintManager {
    const client: PaintClient
    /** `Task::ContextHash()`: a hash of the document's holder and the scale, left uninterpreted. */
    const contextHash: (DocumentHolder?, real) -> nat
    var skipRender: bool
    var current: Task?
    var next: Task?
    var cancelInvalidate: CancelFlag.Flag
    /** The work posted to `task_runner_`, oldest first. */
    var queue: seq<PaintJob>

    /** The tile buffer `client_->GetTileBuffer()` returns. */
    function Buffer(): TileBuffer
    {
      client.tileBuffer
    }

    /** Tile ranges are valid by construction; the buffer keeps its invariant. */
    ghost predicate Valid()
      reads this, Buffer(), Buffer().valid, Buffer().valid.data, Buffer().pool
    {
      Buffer().Valid() &&
      (current != null ==> AllValid(current.tileRanges)) &&
      (next != null ==> AllValid(next.tileRanges))
    }

    /** `PaintManager(client)`: no tasks, painting enabled, a fresh manager flag. */
    constructor (client: PaintClient, contextHash: (DocumentHolder?, real) -> nat)
      ensures this.client == client && this.contextHash == contextHash
      ensures current == null && next == null && !skipRender && queue == []
      ensures fresh(cancelInvalidate) && !cancelInvalidate.isSet
    {
      this.client := client;
      this.contextHash := contextHash;
      skipRender := false;
      current := null;
      next := null;
      cancelInvalidate := new CancelFlag.Flag();
      queue := [];
    }

    /** `PaintManager(client, other)`: takes over both of the other manager's tasks. */
    constructor Adopt(client: PaintClient, contextHash: (DocumentHolder?, real) -> nat, other: PaintManager)
      modifies other
      ensures this.client == client && this.contextHash == contextHash
      ensures current == old(other.current) && next == old(other.next) && !skipRender && queue == []
      ensures fresh(cancelInvalidate) && !cancelInvalidate.isSet
      ensures other.current == null && other.next == null
    {
      this.client := client;
      this.contextHash := contextHash;
      skipRender := false;
      current := other.current;
      next := other.next;
      cancelInvalidate := new CancelFlag.Flag();
      queue := [];
      new;
      other.current := null;
      other.next := null;
    }

    /** The hash `PostCurrentTask` gives the current task's context. */
    function CurrentHash(): nat
      reads this
      requires current != null
    {
      contextHash(current.document.holder, current.scale)
    }

    /** Whether `PostCurrentTask` posts anything. */
    predicate WillPost()
      reads this, cancelInvalidate, Buffer()
    {
      !skipRender && current != null && !cancelInvalidate.isSet && !Buffer().IsEmpty()
    }

    /**
     * What `PostCurrentTask` did: nothing unless `WillPost()`; otherwise the
     * buffer's active context is the task's hash and one work item per
     * simplified range was queued, all sharing one completion barrier (a
     * task without ranges invalidates at once, unless its flag is set).
     */
    twostate predicate PostedCurrent()
      reads this, cancelInvalidate, client, Buffer(), if current != null then {current.skipInvalidationFlag} else {}
    {
      if !WillPost() then
        queue == old(queue) && Buffer().activeContext == old(Buffer().activeContext) &&
        client.invalidations == old(client.invalidations)
      else
        var ranges := SimplifiedRanges(current.tileRanges);
        Buffer().activeContext == CurrentHash() &&
        |queue| == |old(queue)| + |ranges| && queue[..|old(queue)|] == old(queue) &&
        (ranges == [] ==>
          client.invalidations == old(client.invalidations) +
            (if CancelFlag.IsCancelled(current.skipInvalidationFlag) then 0 else 1)) &&
        (ranges != [] ==>
          client.invalidations == old(client.invalidations) &&
          queue[|old(queue)|..] == JobsFor(current, CurrentHash(), queue[|old(queue)|].completed))
    }

    /** `PostCurrentTask()`. */
    method PostCurrentTask()
      requires Valid()
      modifies this, client, Buffer()
      ensures Valid() && PostedCurrent() && Buffer().GeometryUnchanged()
      ensures current == old(current) && next == old(next) && skipRender == old(skipRender)
      ensures cancelInvalidate == old(cancelInvalidate)
      ensures WillPost() && SimplifiedRanges(current.tileRanges) != [] ==>
        var completed := queue[|old(queue)|].completed;
        fresh(completed) && completed.remaining == RangesTileCount(SimplifiedRanges(current.tileRanges)) &&
        completed.taskCancel == current.skipInvalidationFlag && completed.managerCancel == cancelInvalidate &&
        completed.client == client
    {
      if skipRender || current == null || CancelFlag.IsCancelled(cancelInvalidate) {
        return;
      }
      var hash := CurrentHash();
      var tileBuffer := client.tileBuffer;
      if tileBuffer.IsEmpty() {
        return;
      }
      tileBuffer.SetActiveContext(hash);
      var posted, completed := PostRanges(current, hash, cancelInvalidate, client);
      queue := queue + posted;
    }

    /**
     * Steps (a) to (d) of `ScheduleNextPaint`: the task `Promoted` describes
     * becomes the current one, the waiting slot is emptied, and the replaced
     * current task is cancelled when `CancelsCurrent` says so.
     */
    method Promote(tileRanges: seq<TileRange>)
      requires Valid() && AllValid(tileRanges)
      modifies this, if current != null then {current.skipPaintFlag, current.skipInvalidationFlag} else {}
      ensures Valid() && next == null
      ensures skipRender == old(skipRender) && cancelInvalidate == old(cancelInvalidate) && queue == old(queue)
      ensures var promoted := Promoted(ShapeOf(old(current)), ShapeOf(old(next)), tileRanges,
                                       Buffer().columns, old(Buffer().valid.data[..]), old(Buffer().pool[..]));
        ShapeOf(current) == promoted &&
        (old(current) != null ==>
          (old(current).skipPaintFlag.isSet <==>
            old(current.skipPaintFlag.isSet) || CancelsCurrent(old(current).Shape(), promoted)) &&
          (old(current).skipInvalidationFlag.isSet <==>
            old(current.skipInvalidationFlag.isSet) || CancelsCurrent(old(current).Shape(), promoted)))
      ensures current != null ==> fresh(current) && fresh(current.skipPaintFlag) && fresh(current.skipInvalidationFlag)
    {
      var promoted := PromotedTask(current, next, tileRanges, client.tileBuffer);
      // (d) drop the current task, cancelling it when the next one scrolled away
      if promoted != null && current != null {
        RetireCurrent(current, promoted);
      }
      current, next := promoted, null;
    }

    /**
     * `ScheduleNextPaint(tile_ranges)`: promotes the task `Promoted`
     * describes into the current slot, empties the waiting slot, cancels the
     * replaced current task when `CancelsCurrent` says so, and posts the new
     * current task; returns whether there is one.
     */
    method ScheduleNextPaint(tileRanges: seq<TileRange>) returns (posted: bool)
      requires Valid() && AllValid(tileRanges)
      modifies this, client, Buffer()
      modifies if current != null then {current.skipPaintFlag, current.skipInvalidationFlag} else {}
      ensures Valid() && next == null && (posted <==> current != null)
      ensures skipRender == old(skipRender) && cancelInvalidate == old(cancelInvalidate)
      ensures var promoted := Promoted(ShapeOf(old(current)), ShapeOf(old(next)), tileRanges,
                                       Buffer().columns, old(Buffer().valid.data[..]), old(Buffer().pool[..]));
        ShapeOf(current) == promoted &&
        (old(current) != null ==>
          (old(current).skipPaintFlag.isSet <==>
            old(current.skipPaintFlag.isSet) || CancelsCurrent(old(current).Shape(), promoted)) &&
          (old(current).skipInvalidationFlag.isSet <==>
            old(current.skipInvalidationFlag.isSet) || CancelsCurrent(old(current).Shape(), promoted)))
      ensures current != null ==> fresh(current) && fresh(current.skipPaintFlag) && fresh(current.skipInvalidationFlag)
      ensures PostedCurrent() && Buffer().GeometryUnchanged()
    {
      ghost var promoted := Promoted(ShapeOf(current), ShapeOf(next), tileRanges,
                                     Buffer().columns, Buffer().valid.data[..], Buffer().pool[..]);
      Promote(tileRanges);
      // (e) post the new current task
      if current != null {
        PostCurrentTask();
        posted := true;
      } else {
        posted := false;
      }
    }

    /**
     * `SchedulePaint(...)`: with no current task the request becomes the
     * current task as it is and is posted; otherwise it is folded with the
     * waiting task (and the current one) of the same document into a new
     * waiting task with simplified ranges, which `ScheduleNextPaint`
     * promotes at once.
     */
    method SchedulePaint(document: DocumentRef, yPos: int, viewHeight: int, scale: real, fullPaint: bool,
                         tileRanges: seq<TileRange>)
      requires Valid() && AllValid(tileRanges)
      modifies this, client, Buffer()
      modifies if current != null then {current.skipPaintFlag, current.skipInvalidationFlag} else {}
      ensures Valid() && skipRender == old(skipRender) && cancelInvalidate == old(cancelInvalidate)
      ensures old(current) == null ==>
        current != null && fresh(current) && next == old(next) &&
        current.Shape() == TaskShape(document, yPos, viewHeight, scale, fullPaint, tileRanges)
      ensures old(current) != null ==>
        var request := TaskShape(document, yPos, viewHeight, scale,
          RequestFullPaint(old(current).Shape(), ShapeOf(old(next)), document, fullPaint),
          SimplifiedRanges(RequestRanges(old(current).Shape(), ShapeOf(old(next)), document, tileRanges)));
        var promoted := Promoted(Some(old(current).Shape()), Some(request), [],
                                 Buffer().columns, old(Buffer().valid.data[..]), old(Buffer().pool[..]));
        next == null && current != null && fresh(current) && Some(current.Shape()) == promoted &&
        (old(current).skipPaintFlag.isSet <==>
          old(current.skipPaintFlag.isSet) || CancelsCurrent(old(current).Shape(), promoted)) &&
        (old(current).skipInvalidationFlag.isSet <==>
          old(current.skipInvalidationFlag.isSet) || CancelsCurrent(old(current).Shape(), promoted))
      ensures PostedCurrent() && Buffer().GeometryUnchanged()
    {
      if current == null {
        current := new Task(document, yPos, viewHeight, scale, fullPaint, tileRanges);
        PostCurrentTask();
        return;
      }
      next := RequestTask(current, next, document, yPos, viewHeight, scale, fullPaint, tileRanges);
      var posted := ScheduleNextPaint([]);
    }

    /** `ClearTasks()`: cancels both tasks and empties both slots. */
    method ClearTasks()
      modifies this
      modifies if current != null then {current.skipPaintFlag, current.skipInvalidationFlag} else {}
      modifies if next != null then {next.skipPaintFlag, next.skipInvalidationFlag} else {}
      ensures current == null && next == null
      ensures old(current) != null ==> old(current).skipPaintFlag.isSet && old(current).skipInvalidationFlag.isSet
      ensures old(next) != null ==> old(next).skipPaintFlag.isSet && old(next).skipInvalidationFlag.isSet
      ensures skipRender == old(skipRender) && cancelInvalidate == old(cancelInvalidate) && queue == old(queue)
    {
      if current != null {
        CancelFlag.Set(current.skipPaintFlag);
        CancelFlag.Set(current.skipInvalidationFlag);
      }
      current := null;
      if next != null {
        CancelFlag.Set(next.skipPaintFlag);
        CancelFlag.Set(next.skipInvalidationFlag);
      }
      next := null;
    }

    /**
     * `OnDestroy()`: cancels the manager flag every posted barrier holds, so
     * none of them invalidates any more, and starts a fresh one.
     */
    method OnDestroy()
      modifies this, cancelInvalidate
      ensures old(cancelInvalidate).isSet && fresh(cancelInvalidate) && !cancelInvalidate.isSet
      ensures forall j :: 0 <= j < |queue| && queue[j].completed.managerCancel == old(cancelInvalidate) ==>
        !queue[j].completed.Fires()
      ensures current == old(current) && next == old(next) && skipRender == old(skipRender) && queue == old(queue)
    {
      cancelInvalidate := CancelFlag.CancelAndReset(cancelInvalidate);
    }

    /** `PausePaint()`. */
    method PausePaint()
      modifies this
      ensures skipRender
      ensures current == old(current) && next == old(next) && cancelInvalidate == old(cancelInvalidate) && queue == old(queue)
    {
      skipRender := true;
    }

    /**
     * `ResumePaint(paint_next)`: re-enables painting and, when asked, posts
     * the current task, or promotes the waiting one and posts it.
     */
    method ResumePaint(paintNext: bool)
      requires Valid()
      modifies this, client, Buffer()
      ensures Valid() && !skipRender && cancelInvalidate == old(cancelInvalidate)
      ensures !paintNext ==> current == old(current) && next == old(next) && queue == old(queue)
      ensures paintNext && old(current) != null ==> current == old(current) && next == old(next) && PostedCurrent()
      ensures paintNext && old(current) == null && old(next) != null ==>
        current == old(next) && next == null && PostedCurrent()
      ensures paintNext && old(current) == null && old(next) == null ==>
        current == null && next == null && queue == old(queue)
    {
      skipRender := false;
      if !paintNext {
        return;
      }
      if current != null {
        PostCurrentTask();
      } else if next != null {
        current, next := next, current;
        PostCurrentTask();
      }
    }
  }
}
