/**
 * The `TileRange` algebra of the tile buffer (lok_tilebuffer.h and the free
 * functions and `ClipRanges` of lok_tilebuffer.cc).  A range is an
 * inclusive span of row-major tile indices.  Each vector-building loop of the
 * source is a method proved equal to a specification function; the meaning
 * of those functions (index sets covered, order, counts) is proved in the
 * lemmas that follow them.
 */
module TileRanges {
  /** `TileRange{index_start, index_end}`, both ends inclusive. */
  datatype TileRange = TileRange(indexStart: nat, indexEnd: nat)
  {
    /** The constructor's `DCHECK_LE(index_start, index_end)`. */
    predicate Valid()
    {
      indexStart <= indexEnd
    }

    /** `operator<`: ranges are ordered by their first index only. */
    predicate Before(other: TileRange)
    {
      indexStart < other.indexStart
    }
  }

  function MinNat(a: nat, b: nat): nat { if a <= b then a else b }
  function MaxNat(a: nat, b: nat): nat { if a >= b then a else b }

  /** Whether tile `i` lies in range `r`. */
  predicate InRange(r: TileRange, i: int)
  {
    r.indexStart <= i <= r.indexEnd
  }

  /** The tile indices a range covers. */
  function RangeSet(r: TileRange): set<int>
  {
    set i: int | r.indexStart <= i <= r.indexEnd && InRange(r, i)
  }

  /** The tile indices a vector of ranges covers. */
  function Indices(rs: seq<TileRange>): set<int>
  {
    if rs == [] then {} else Indices(rs[..|rs| - 1]) + RangeSet(rs[|rs| - 1])
  }

  predicate AllValid(rs: seq<TileRange>)
  {
    forall k :: 0 <= k < |rs| ==> rs[k].Valid()
  }

  predicate SortedByStart(rs: seq<TileRange>)
  {
    forall j, k :: 0 <= j < k < |rs| ==> rs[j].indexStart <= rs[k].indexStart
  }

  /** Every range ends strictly before any later one starts. */
  predicate Separated(rs: seq<TileRange>)
  {
    forall j, k :: 0 <= j < k < |rs| ==> rs[j].indexEnd < rs[k].indexStart
  }

  // ---------------------------------------------------------------------
  // Index sets

  lemma {:induction false} IndicesAppend(a: seq<TileRange>, b: seq<TileRange>)
    ensures Indices(a + b) == Indices(a) + Indices(b)
    decreases |b|
  {
    if b == [] {
      assert a + b == a;
    } else {
      var n := |b| - 1;
      assert (a + b)[..|a + b| - 1] == a + b[..n];
      IndicesAppend(a, b[..n]);
    }
  }

  lemma SetUnionAssoc(a: set<int>, b: set<int>, c: set<int>)
    ensures (a + b) + c == a + (b + c)
  {
  }

  lemma IndicesCons(r: TileRange, rs: seq<TileRange>)
    ensures Indices([r] + rs) == RangeSet(r) + Indices(rs)
  {
    IndicesAppend([r], rs);
    assert [r][..0] == [];
  }

  lemma IndicesHeadTail(rs: seq<TileRange>)
    requires rs != []
    ensures Indices(rs) == RangeSet(rs[0]) + Indices(rs[1..])
  {
    assert rs == [rs[0]] + rs[1..];
    IndicesCons(rs[0], rs[1..]);
  }

  /** An index is covered iff some range of the vector contains it. */
  lemma {:induction false} IndicesMember(rs: seq<TileRange>, i: int)
    ensures i in Indices(rs) <==> exists k :: 0 <= k < |rs| && rs[k].indexStart <= i <= rs[k].indexEnd
    decreases |rs|
  {
    if rs != [] {
      var n := |rs| - 1;
      IndicesMember(rs[..n], i);
      if i in Indices(rs[..n]) {
        var k :| 0 <= k < n && rs[..n][k].indexStart <= i <= rs[..n][k].indexEnd;
        assert rs[k] == rs[..n][k];
      }
      if exists k :: 0 <= k < |rs| && rs[k].indexStart <= i <= rs[k].indexEnd {
        var k :| 0 <= k < |rs| && rs[k].indexStart <= i <= rs[k].indexEnd;
        if k < n {
          assert rs[..n][k] == rs[k];
        }
      }
    }
  }

  /** Two vectors holding the same ranges, in any order, cover the same indices. */
  lemma IndicesOfPermutation(a: seq<TileRange>, b: seq<TileRange>)
    requires multiset(a) == multiset(b)
    ensures Indices(a) == Indices(b)
  {
    forall i ensures i in Indices(a) ==> i in Indices(b) {
      IndicesMember(a, i);
      IndicesMember(b, i);
      if i in Indices(a) {
        var k :| 0 <= k < |a| && a[k].indexStart <= i <= a[k].indexEnd;
        assert a[k] in multiset(b);
        var j :| 0 <= j < |b| && b[j] == a[k];
      }
    }
    forall i ensures i in Indices(b) ==> i in Indices(a) {
      IndicesMember(a, i);
      IndicesMember(b, i);
      if i in Indices(b) {
        var k :| 0 <= k < |b| && b[k].indexStart <= i <= b[k].indexEnd;
        assert b[k] in multiset(a);
        var j :| 0 <= j < |a| && a[j] == b[k];
      }
    }
  }

  /** The number of indices in one valid range. */
  lemma {:induction false} RangeSetSize(r: TileRange)
    requires r.Valid()
    ensures |RangeSet(r)| == r.indexEnd - r.indexStart + 1
    decreases r.indexEnd - r.indexStart
  {
    if r.indexEnd == r.indexStart {
      RangeSetSingle(r);
    } else {
      var shorter := TileRange(r.indexStart, r.indexEnd - 1);
      RangeSetSize(shorter);
      RangeSetExtend(shorter);
    }
  }

  lemma RangeSetSingle(r: TileRange)
    requires r.indexEnd == r.indexStart
    ensures RangeSet(r) == {r.indexStart as int}
  {
    forall i ensures i in RangeSet(r) <==> i == r.indexStart {
      assert i in RangeSet(r) <==> InRange(r, i);
    }
  }

  /** Extending a range by one index adds exactly that new index. */
  lemma RangeSetExtend(r: TileRange)
    requires r.Valid()
    ensures RangeSet(TileRange(r.indexStart, r.indexEnd + 1)) == RangeSet(r) + {r.indexEnd as int + 1}
    ensures r.indexEnd + 1 !in RangeSet(r)
  {
    var longer := TileRange(r.indexStart, r.indexEnd + 1);
    forall i ensures i in RangeSet(longer) <==> i in RangeSet(r) || i == r.indexEnd + 1 {
      assert i in RangeSet(longer) <==> InRange(longer, i);
      assert i in RangeSet(r) <==> InRange(r, i);
    }
    assert !InRange(r, r.indexEnd + 1);
  }

  // ---------------------------------------------------------------------
  // SimplifyRanges

  /** Inserting into a vector ordered by `operator<`; models `std::sort`. */
  function Insert(r: TileRange, rs: seq<TileRange>): (out: seq<TileRange>)
    ensures multiset(out) == multiset(rs) + multiset{r}
  {
    if rs == [] || !rs[0].Before(r) then
      [r] + rs
    else
      assert rs == [rs[0]] + rs[1..];
      [rs[0]] + Insert(r, rs[1..])
  }

  /** `std::sort(sorted_copy.begin(), sorted_copy.end())` by first index. */
  function SortByStart(rs: seq<TileRange>): (out: seq<TileRange>)
    ensures multiset(out) == multiset(rs)
  {
    if rs == [] then []
    else
      assert rs == [rs[0]] + rs[1..];
      Insert(rs[0], SortByStart(rs[1..]))
  }

  lemma {:induction false} InsertSorted(r: TileRange, rs: seq<TileRange>)
    requires SortedByStart(rs)
    ensures SortedByStart(Insert(r, rs))
    decreases |rs|
  {
    if rs != [] && rs[0].Before(r) {
      var tail := Insert(r, rs[1..]);
      InsertSorted(r, rs[1..]);
      InsertBounded(r, rs);
      var out := [rs[0]] + tail;
      forall i, k | 0 <= i < k < |out| ensures out[i].indexStart <= out[k].indexStart {
        if i > 0 {
          assert out[i] == tail[i - 1] && out[k] == tail[k - 1];
        } else {
          assert out[k] == tail[k - 1];
        }
      }
    }
  }

  /** Inserting behind the head of a sorted vector keeps every range at or after the head. */
  lemma InsertBounded(r: TileRange, rs: seq<TileRange>)
    requires SortedByStart(rs) && rs != [] && rs[0].Before(r)
    ensures forall k :: 0 <= k < |Insert(r, rs[1..])| ==> rs[0].indexStart <= Insert(r, rs[1..])[k].indexStart
  {
    var tail := Insert(r, rs[1..]);
    forall k | 0 <= k < |tail| ensures rs[0].indexStart <= tail[k].indexStart {
      assert tail[k] in multiset(tail);
      if tail[k] != r {
        assert tail[k] in multiset(rs[1..]);
        var j :| 0 <= j < |rs[1..]| && rs[1..][j] == tail[k];
        assert rs[1 + j] == tail[k];
      }
    }
  }

  /** The sort really orders the ranges by first index. */
  lemma {:induction false} SortByStartSorted(rs: seq<TileRange>)
    ensures SortedByStart(SortByStart(rs))
    decreases |rs|
  {
    if rs != [] {
      SortByStartSorted(rs[1..]);
      InsertSorted(rs[0], SortByStart(rs[1..]));
    }
  }

  /** One iteration of the merge loop of `SimplifyRanges`. */
  function MergeStep(acc: seq<TileRange>, r: TileRange): (out: seq<TileRange>)
    requires |acc| > 0
    ensures |out| > 0
  {
    var last := acc[|acc| - 1];
    if last.indexEnd < r.indexStart then
      acc + [r]
    else if last.indexEnd < r.indexEnd then
      acc[..|acc| - 1] + [TileRange(last.indexStart, r.indexEnd)]
    else
      acc
  }

  /** The merge loop of `SimplifyRanges` over the remaining sorted ranges. */
  function MergeAll(acc: seq<TileRange>, rs: seq<TileRange>): (out: seq<TileRange>)
    requires |acc| > 0
    ensures |out| > 0
    decreases |rs|
  {
    if rs == [] then acc else MergeAll(MergeStep(acc, rs[0]), rs[1..])
  }

  /** What `SimplifyRanges` returns. */
  function SimplifiedRanges(rs: seq<TileRange>): seq<TileRange>
  {
    if |rs| < 2 then rs
    else
      var sorted := SortByStart(rs);
      assert |sorted| == |multiset(sorted)| == |rs|;
      MergeAll([sorted[0]], sorted[1..])
  }

  /** `SimplifyRanges`: sort by first index, then merge overlapping neighbours. */
  method SimplifyRanges(tileRanges: seq<TileRange>) returns (simplified: seq<TileRange>)
    ensures simplified == SimplifiedRanges(tileRanges)
  {
    if |tileRanges| < 2 {
      return tileRanges;
    }
    var sorted := SortByStart(tileRanges);
    assert |sorted| == |multiset(sorted)| == |tileRanges|;
    simplified := [sorted[0]];
    var k := 1;
    while k < |sorted|
      invariant 1 <= k <= |sorted|
      invariant |simplified| > 0
      invariant MergeAll(simplified, sorted[k..]) == MergeAll([sorted[0]], sorted[1..])
    {
      var last := simplified[|simplified| - 1];
      var it := sorted[k];
      ghost var merged := MergeStep(simplified, it);
      MergeAllUnfold(simplified, sorted, k);
      if last.indexEnd < it.indexStart {
        // no overlap: add it
        simplified := simplified + [it];
      } else if last.indexEnd < it.indexEnd {
        // overlap: extend the last range to the later end
        simplified := simplified[..|simplified| - 1] + [TileRange(last.indexStart, it.indexEnd)];
      }
      assert simplified == merged;
      k := k + 1;
    }
    assert sorted[k..] == [];
  }

  /** The merge loop's first step, taken from position `k` of `rs`. */
  lemma MergeAllUnfold(acc: seq<TileRange>, rs: seq<TileRange>, k: nat)
    requires |acc| > 0 && k < |rs|
    ensures MergeAll(acc, rs[k..]) == MergeAll(MergeStep(acc, rs[k]), rs[k + 1..])
  {
    assert rs[k..][1..] == rs[k + 1..];
  }

  /** One merge step keeps the ranges valid and separated. */
  lemma MergeStepCorrect(acc: seq<TileRange>, r: TileRange)
    requires |acc| > 0 && AllValid(acc) && Separated(acc) && r.Valid()
    requires acc[|acc| - 1].indexStart <= r.indexStart
    ensures AllValid(MergeStep(acc, r)) && Separated(MergeStep(acc, r))
    ensures var out := MergeStep(acc, r); out[|out| - 1].indexStart <= r.indexStart
  {
    var n := |acc| - 1;
    var last := acc[n];
    if last.indexEnd < r.indexStart {
    } else if last.indexEnd < r.indexEnd {
      var merged := TileRange(last.indexStart, r.indexEnd);
      var out := acc[..n] + [merged];
      forall j, k | 0 <= j < k < |out| ensures out[j].indexEnd < out[k].indexStart {
        if k < n {
          assert out[j] == acc[j] && out[k] == acc[k];
        } else {
          assert out[j] == acc[j] && out[k] == merged;
        }
      }
    }
  }

  /** One merge step adds exactly the tiles of the merged range. */
  lemma MergeStepIndices(acc: seq<TileRange>, r: TileRange)
    requires |acc| > 0 && acc[|acc| - 1].indexStart <= r.indexStart
    ensures Indices(MergeStep(acc, r)) == Indices(acc) + RangeSet(r)
  {
    var n := |acc| - 1;
    var last := acc[n];
    if last.indexEnd < r.indexStart {
      IndicesSnoc(acc, r);
    } else if last.indexEnd < r.indexEnd {
      IndicesSnoc(acc[..n], TileRange(last.indexStart, r.indexEnd));
      RangeSetJoin(last, r);
      SetUnionAssoc(Indices(acc[..n]), RangeSet(last), RangeSet(r));
    } else {
      RangeSetNested(r, last);
    }
  }

  lemma IndicesSnoc(rs: seq<TileRange>, r: TileRange)
    ensures Indices(rs + [r]) == Indices(rs) + RangeSet(r)
  {
    assert (rs + [r])[..|rs|] == rs;
  }

  /** Two overlapping ranges, the second starting no earlier, join into one. */
  lemma RangeSetJoin(a: TileRange, b: TileRange)
    requires a.indexStart <= b.indexStart <= a.indexEnd < b.indexEnd
    ensures RangeSet(TileRange(a.indexStart, b.indexEnd)) == RangeSet(a) + RangeSet(b)
  {
    var joined := TileRange(a.indexStart, b.indexEnd);
    forall i ensures i in RangeSet(joined) <==> i in RangeSet(a) || i in RangeSet(b) {
      assert i in RangeSet(joined) <==> InRange(joined, i);
      assert i in RangeSet(a) <==> InRange(a, i);
      assert i in RangeSet(b) <==> InRange(b, i);
    }
  }

  /** A range inside another covers a subset of its tiles. */
  lemma RangeSetNested(inner: TileRange, outer: TileRange)
    requires outer.indexStart <= inner.indexStart && inner.indexEnd <= outer.indexEnd
    ensures RangeSet(inner) <= RangeSet(outer)
  {
    forall i | i in RangeSet(inner) ensures i in RangeSet(outer) {
      assert InRange(outer, i);
    }
  }

  lemma {:induction false} MergeAllCorrect(acc: seq<TileRange>, rs: seq<TileRange>)
    requires |acc| > 0 && AllValid(acc) && Separated(acc)
    requires AllValid(rs) && SortedByStart(rs)
    requires forall k :: 0 <= k < |rs| ==> acc[|acc| - 1].indexStart <= rs[k].indexStart
    ensures AllValid(MergeAll(acc, rs)) && Separated(MergeAll(acc, rs))
    decreases |rs|
  {
    if rs != [] {
      MergeStepCorrect(acc, rs[0]);
      var next := MergeStep(acc, rs[0]);
      var rest := rs[1..];
      forall k | 0 <= k < |rest| ensures next[|next| - 1].indexStart <= rest[k].indexStart {
        assert rest[k] == rs[k + 1];
      }
      MergeAllCorrect(next, rest);
    }
  }

  lemma {:induction false} MergeAllIndices(acc: seq<TileRange>, rs: seq<TileRange>)
    requires |acc| > 0 && SortedByStart(rs)
    requires forall k :: 0 <= k < |rs| ==> acc[|acc| - 1].indexStart <= rs[k].indexStart
    ensures Indices(MergeAll(acc, rs)) == Indices(acc) + Indices(rs)
    decreases |rs|
  {
    if rs != [] {
      MergeStepIndices(acc, rs[0]);
      var next := MergeStep(acc, rs[0]);
      var rest := rs[1..];
      assert next[|next| - 1].indexStart <= rs[0].indexStart by {
        var last := acc[|acc| - 1];
        if last.indexEnd < rs[0].indexStart {
          assert next == acc + [rs[0]];
        }
      }
      forall k | 0 <= k < |rest| ensures next[|next| - 1].indexStart <= rest[k].indexStart {
        assert rest[k] == rs[k + 1];
      }
      MergeAllIndices(next, rest);
      IndicesHeadTail(rs);
      SetUnionAssoc(Indices(acc), RangeSet(rs[0]), Indices(rest));
    }
  }

  /**
   * `SimplifyRanges` returns valid ranges, each ending strictly before the
   * next begins (so sorted by first index and pairwise disjoint), covering
   * exactly the tiles of its input; a vector of fewer than two ranges is
   * returned unchanged.
   */
  lemma SimplifiedRangesCorrect(rs: seq<TileRange>)
    requires AllValid(rs)
    ensures |rs| < 2 ==> SimplifiedRanges(rs) == rs
    ensures |rs| >= 2 ==> Separated(SimplifiedRanges(rs))
    ensures AllValid(SimplifiedRanges(rs))
    ensures Indices(SimplifiedRanges(rs)) == Indices(rs)
  {
    if |rs| >= 2 {
      var sorted := SortByStart(rs);
      assert |sorted| == |multiset(sorted)| == |rs|;
      SortedMergeCorrect(rs, sorted);
    }
  }

  lemma SortedMergeCorrect(rs: seq<TileRange>, sorted: seq<TileRange>)
    requires AllValid(rs) && sorted == SortByStart(rs) && |sorted| >= 2
    ensures var out := MergeAll([sorted[0]], sorted[1..]);
      Separated(out) && AllValid(out) && Indices(out) == Indices(rs)
  {
    SortByStartSorted(rs);
    SortByStartValid(rs);
    SortedTail(sorted);
    MergeAllCorrect([sorted[0]], sorted[1..]);
    SortedMergeIndices(sorted);
    IndicesOfPermutation(sorted, rs);
  }

  /** Sorting keeps the ranges valid. */
  lemma SortByStartValid(rs: seq<TileRange>)
    requires AllValid(rs)
    ensures AllValid(SortByStart(rs))
  {
    var sorted := SortByStart(rs);
    forall k | 0 <= k < |sorted| ensures sorted[k].Valid() {
      assert sorted[k] in multiset(rs);
    }
  }

  /** The tail of a sorted vector is sorted, valid, and starts no earlier than its head. */
  lemma SortedTail(sorted: seq<TileRange>)
    requires SortedByStart(sorted) && |sorted| >= 1
    ensures SortedByStart(sorted[1..])
    ensures AllValid(sorted) ==> AllValid(sorted[1..])
    ensures forall k :: 0 <= k < |sorted[1..]| ==> sorted[0].indexStart <= sorted[1..][k].indexStart
  {
    var rest := sorted[1..];
    forall k | 0 <= k < |rest| ensures sorted[0].indexStart <= rest[k].indexStart {
      assert rest[k] == sorted[k + 1];
    }
  }

  lemma SortedMergeIndices(sorted: seq<TileRange>)
    requires SortedByStart(sorted) && |sorted| >= 2
    ensures Indices(MergeAll([sorted[0]], sorted[1..])) == Indices(sorted)
  {
    var rest := sorted[1..];
    SortedTail(sorted);
    MergeAllIndices([sorted[0]], rest);
    IndicesHeadTail(sorted);
    IndicesCons(sorted[0], []);
    assert [sorted[0]] + [] == [sorted[0]];
  }

  /** Ranges that merely touch, such as [2,3] and [4,5], are not merged. */
  lemma AdjacentRangesStaySeparate()
    ensures SimplifiedRanges([TileRange(4, 5), TileRange(2, 3)]) == [TileRange(2, 3), TileRange(4, 5)]
  {
    var rs := [TileRange(4, 5), TileRange(2, 3)];
    assert rs[1..] == [TileRange(2, 3)];
    assert SortByStart([TileRange(2, 3)]) == [TileRange(2, 3)];
    assert SortByStart(rs) == [TileRange(2, 3), TileRange(4, 5)];
  }

  /** Overlapping and nested ranges merge into one. */
  lemma OverlappingRangesMerge()
    ensures SimplifiedRanges([TileRange(3, 9), TileRange(0, 4), TileRange(5, 6)]) == [TileRange(0, 9)]
  {
    var sorted := [TileRange(0, 4), TileRange(3, 9), TileRange(5, 6)];
    OverlappingRangesSort();
    assert sorted[1..] == [TileRange(3, 9), TileRange(5, 6)];
    assert MergeStep([TileRange(0, 4)], TileRange(3, 9)) == [TileRange(0, 9)];
    assert MergeStep([TileRange(0, 9)], TileRange(5, 6)) == [TileRange(0, 9)];
    assert sorted[1..][1..] == [TileRange(5, 6)];
  }

  lemma OverlappingRangesSort()
    ensures SortByStart([TileRange(3, 9), TileRange(0, 4), TileRange(5, 6)]) ==
            [TileRange(0, 4), TileRange(3, 9), TileRange(5, 6)]
  {
    var rs := [TileRange(3, 9), TileRange(0, 4), TileRange(5, 6)];
    assert rs[1..] == [TileRange(0, 4), TileRange(5, 6)];
    assert rs[1..][1..] == [TileRange(5, 6)];
    assert SortByStart([TileRange(5, 6)]) == [TileRange(5, 6)];
    assert SortByStart(rs[1..]) == [TileRange(0, 4), TileRange(5, 6)];
    assert [TileRange(0, 4), TileRange(5, 6)][1..] == [TileRange(5, 6)];
    assert Insert(TileRange(3, 9), [TileRange(5, 6)]) == [TileRange(3, 9), TileRange(5, 6)];
  }

  // ---------------------------------------------------------------------
  // TileCount

  /** What `TileCount` returns: the sum of `index_end - index_start + 1`. */
  function RangesTileCount(rs: seq<TileRange>): int
  {
    if rs == [] then 0
    else RangesTileCount(rs[..|rs| - 1]) + (rs[|rs| - 1].indexEnd - rs[|rs| - 1].indexStart + 1)
  }

  /** `TileCount`. */
  method TileCount(tileRanges: seq<TileRange>) returns (result: nat)
    requires AllValid(tileRanges)
    ensures result == RangesTileCount(tileRanges)
  {
    result := 0;
    var k := 0;
    while k < |tileRanges|
      invariant 0 <= k <= |tileRanges|
      invariant result == RangesTileCount(tileRanges[..k])
    {
      assert tileRanges[..k + 1][..k] == tileRanges[..k];
      result := result + (tileRanges[k].indexEnd - tileRanges[k].indexStart + 1);
      k := k + 1;
    }
    assert tileRanges[..k] == tileRanges;
  }

  /**
   * On separated ranges, as `SimplifyRanges` produces, the count is the
   * number of distinct tiles covered: no tile is counted twice.
   */
  lemma {:induction false} TileCountIsTileNumber(rs: seq<TileRange>)
    requires AllValid(rs) && Separated(rs)
    ensures RangesTileCount(rs) == |Indices(rs)|
    decreases |rs|
  {
    if rs != [] {
      var n := |rs| - 1;
      var init := rs[..n];
      assert AllValid(init) && Separated(init);
      TileCountIsTileNumber(init);
      RangeSetSize(rs[n]);
      LastRangeDisjoint(rs);
    }
  }

  /** In separated ranges the last one shares no tile with those before it. */
  lemma LastRangeDisjoint(rs: seq<TileRange>)
    requires rs != [] && Separated(rs)
    ensures Indices(rs[..|rs| - 1]) * RangeSet(rs[|rs| - 1]) == {}
  {
    var n := |rs| - 1;
    var init := rs[..n];
    forall i | i in Indices(init) ensures i !in RangeSet(rs[n]) {
      IndicesMember(init, i);
      var k :| 0 <= k < |init| && init[k].indexStart <= i <= init[k].indexEnd;
      assert init[k] == rs[k];
      assert !InRange(rs[n], i);
    }
  }

  /** Counting the simplified form of any valid vector counts each tile once. */
  lemma SimplifiedTileCount(rs: seq<TileRange>)
    requires AllValid(rs)
    ensures RangesTileCount(SimplifiedRanges(rs)) == |Indices(rs)|
  {
    SimplifiedRangesCorrect(rs);
    TileCountIsTileNumber(SimplifiedRanges(rs));
  }

  // ---------------------------------------------------------------------
  // ClipRanges

  /** The contribution of one range to `ClipRanges`. */
  function ClipOne(r: TileRange, limit: TileRange): seq<TileRange>
  {
    if r.indexEnd < limit.indexStart || r.indexStart > limit.indexEnd then []
    else [TileRange(MaxNat(r.indexStart, limit.indexStart), MinNat(r.indexEnd, limit.indexEnd))]
  }

  /** What `ClipRanges` returns. */
  function ClippedRanges(rs: seq<TileRange>, limit: TileRange): seq<TileRange>
  {
    if rs == [] then []
    else ClippedRanges(rs[..|rs| - 1], limit) + ClipOne(rs[|rs| - 1], limit)
  }

  /**
   * `TileBuffer::ClipRanges` (a member that reads no field): drops every
   * range disjoint from the limit and intersects the others with it.
   */
  method ClipRanges(ranges: seq<TileRange>, rangeLimit: TileRange) returns (clipped: seq<TileRange>)
    ensures clipped == ClippedRanges(ranges, rangeLimit)
  {
    clipped := [];
    var k := 0;
    while k < |ranges|
      invariant 0 <= k <= |ranges|
      invariant clipped == ClippedRanges(ranges[..k], rangeLimit)
    {
      var range := ranges[k];
      assert ranges[..k + 1][..k] == ranges[..k];
      if range.indexEnd < rangeLimit.indexStart || range.indexStart > rangeLimit.indexEnd {
        // completely outside the limit: ignore it
      } else {
        clipped := clipped + [TileRange(MaxNat(range.indexStart, rangeLimit.indexStart),
                                        MinNat(range.indexEnd, rangeLimit.indexEnd))];
      }
      k := k + 1;
    }
    assert ranges[..k] == ranges;
  }

  /** Clipping yields valid ranges, each inside the limit, no more than it was given. */
  lemma {:induction false} ClippedRangesWithin(rs: seq<TileRange>, limit: TileRange)
    requires AllValid(rs) && limit.Valid()
    ensures var out := ClippedRanges(rs, limit);
      |out| <= |rs| && AllValid(out) &&
      forall k :: 0 <= k < |out| ==> limit.indexStart <= out[k].indexStart && out[k].indexEnd <= limit.indexEnd
    decreases |rs|
  {
    if rs != [] {
      var n := |rs| - 1;
      assert AllValid(rs[..n]);
      ClippedRangesWithin(rs[..n], limit);
    }
  }

  /** Clipping one range keeps exactly its tiles inside the limit. */
  lemma ClipOneIndices(r: TileRange, limit: TileRange)
    requires r.Valid() && limit.Valid()
    ensures Indices(ClipOne(r, limit)) == RangeSet(r) * RangeSet(limit)
  {
    var one := ClipOne(r, limit);
    if one != [] {
      assert Indices(one) == RangeSet(one[0]) by { assert one[..0] == []; }
      assert RangeSet(one[0]) == RangeSet(r) * RangeSet(limit);
    } else {
      assert RangeSet(r) * RangeSet(limit) == {};
    }
  }

  lemma SetIntersectDistributes(a: set<int>, b: set<int>, c: set<int>)
    ensures a * c + b * c == (a + b) * c
  {
  }

  /** Clipping covers exactly the input's tiles that lie inside the limit. */
  lemma {:induction false} ClippedRangesIndices(rs: seq<TileRange>, limit: TileRange)
    requires AllValid(rs) && limit.Valid()
    ensures Indices(ClippedRanges(rs, limit)) == Indices(rs) * RangeSet(limit)
    decreases |rs|
  {
    if rs != [] {
      var n := |rs| - 1;
      assert AllValid(rs[..n]);
      ClippedRangesIndices(rs[..n], limit);
      IndicesAppend(ClippedRanges(rs[..n], limit), ClipOne(rs[n], limit));
      ClipOneIndices(rs[n], limit);
      SetIntersectDistributes(Indices(rs[..n]), RangeSet(rs[n]), RangeSet(limit));
    }
  }

  /** Clipping keeps input order: it distributes over concatenation. */
  lemma {:induction false} ClippedRangesAppend(a: seq<TileRange>, b: seq<TileRange>, limit: TileRange)
    ensures ClippedRanges(a + b, limit) == ClippedRanges(a, limit) + ClippedRanges(b, limit)
    decreases |b|
  {
    if b == [] {
      assert a + b == a;
    } else {
      var n := |b| - 1;
      assert (a + b)[..|a + b| - 1] == a + b[..n];
      ClippedRangesAppend(a, b[..n], limit);
    }
  }
}
