/** Which heights are indexed, which are missing, and which queue syncs them. */
module Ranges {
  import opened Common
  import opened Sorting

  /** An inclusive range of heights. */
  datatype BlockRange = BlockRange(start: int, end: int)

  predicate Within(r: BlockRange, x: int) {
    r.start <= x <= r.end
  }

  ghost predicate InAny(ranges: seq<BlockRange>, x: int) {
    exists i :: 0 <= i < |ranges| && Within(ranges[i], x)
  }

  predicate AllValid(ranges: seq<BlockRange>) {
    forall i :: 0 <= i < |ranges| ==> ranges[i].start <= ranges[i].end
  }

  /** Sorted, pairwise disjoint, and maximal: at least one height lies between neighbours. */
  ghost predicate Pieces(ranges: seq<BlockRange>) {
    AllValid(ranges) && forall i, j :: 0 <= i < j < |ranges| ==> ranges[i].end + 1 < ranges[j].start
  }

  predicate ByStart(a: BlockRange, b: BlockRange) {
    a.start <= b.start
  }

  predicate ByStartEnd(a: BlockRange, b: BlockRange) {
    a.start < b.start || (a.start == b.start && a.end <= b.end)
  }

  lemma {:induction false} InAnySnoc(ranges: seq<BlockRange>, r: BlockRange, x: int)
    ensures InAny(ranges + [r], x) <==> InAny(ranges, x) || Within(r, x)
  {
    var all := ranges + [r];
    if i :| 0 <= i < |ranges| && Within(ranges[i], x) {
      assert Within(all[i], x);
    }
    if Within(r, x) {
      assert Within(all[|ranges|], x);
    }
  }

  lemma {:induction false} InAnyMembers(a: seq<BlockRange>, b: seq<BlockRange>, x: int)
    requires forall r :: r in a <==> r in b
    ensures InAny(a, x) <==> InAny(b, x)
  {
    if i :| 0 <= i < |a| && Within(a[i], x) {
      assert a[i] in b;
      var j :| 0 <= j < |b| && b[j] == a[i];
      assert Within(b[j], x);
    }
    if i :| 0 <= i < |b| && Within(b[i], x) {
      assert b[i] in a;
      var j :| 0 <= j < |a| && a[j] == b[i];
      assert Within(a[j], x);
    }
  }

  // ---------- gaps ----------

  /**
   For ranges that do not end before they start: exactly the heights of
   [start, end] that no range covers, as sorted, disjoint, maximal pieces.
   Sorts the caller's ranges in place.
   */
  method ComputeGaps(start: int, end: int, ranges: array<BlockRange>) returns (gaps: seq<BlockRange>)
    modifies ranges
    ensures multiset(ranges[..]) == multiset(old(ranges[..]))
    ensures AllValid(old(ranges[..])) ==> Pieces(gaps)
    ensures AllValid(old(ranges[..])) ==>
              forall x :: InAny(gaps, x) <==> start <= x <= end && !InAny(old(ranges[..]), x)
  {
    if start > end {
      return [];
    }
    if ranges.Length == 0 {
      gaps := [BlockRange(start, end)];
      assert forall x :: InAny(gaps, x) <==> Within(gaps[0], x);
      return;
    }
    ghost var given := ranges[..];
    SortInPlace(ranges, ByStart);
    var sorted := ranges[..];
    SameMembers(sorted, given);
    forall x ensures InAny(sorted, x) <==> InAny(given, x) {
      InAnyMembers(sorted, given, x);
    }
    if AllValid(given) {
      ValidMembers(sorted, given);
    }
    gaps := GapsOfSorted(start, end, sorted);
  }

  lemma {:induction false} ValidMembers(a: seq<BlockRange>, b: seq<BlockRange>)
    requires AllValid(b) && forall r :: r in a <==> r in b
    ensures AllValid(a)
  {
    forall i | 0 <= i < |a| ensures a[i].start <= a[i].end {
      assert a[i] in b;
    }
  }

  method GapsOfSorted(start: int, end: int, ranges: seq<BlockRange>) returns (gaps: seq<BlockRange>)
    requires start <= end && SortedBy(ByStart, ranges)
    ensures AllValid(ranges) ==> Pieces(gaps)
    ensures AllValid(ranges) ==> forall x :: InAny(gaps, x) <==> start <= x <= end && !InAny(ranges, x)
  {
    ghost var valid := AllValid(ranges);
    var cursor := start;
    gaps := [];
    var i := 0;
    while i < |ranges|
      invariant 0 <= i <= |ranges| && start <= cursor
      invariant valid ==> GapsBelow(start, end, cursor, ranges, gaps)
      invariant forall j :: 0 <= j < i ==> ranges[j].end < cursor
    {
      var r := ranges[i];
      if r.end < cursor {
        i := i + 1;
        continue;
      }
      if r.start > end {
        break;
      }
      Free(ranges, i, cursor);
      CoveredBy(ranges, i, cursor);
      if r.start > cursor {
        var gapEnd := Min(r.start - 1, end);
        if valid {
          AddGap(start, end, cursor, r.end + 1, BlockRange(cursor, gapEnd), ranges, gaps);
        }
        gaps := gaps + [BlockRange(cursor, gapEnd)];
      } else if valid {
        SkipCovered(start, end, cursor, r.end + 1, ranges, gaps);
      }
      cursor := r.end + 1;
      i := i + 1;
      if cursor > end {
        break;
      }
    }
    if cursor <= end {
      FreeTail(ranges, i, cursor, end);
      if valid {
        AddLastGap(start, end, cursor, ranges, gaps);
      }
      gaps := gaps + [BlockRange(cursor, end)];
    }
  }

  /** Below the cursor, and not beyond the end, the gaps are right. */
  ghost predicate GapsBelow(start: int, end: int, cursor: int, ranges: seq<BlockRange>, gaps: seq<BlockRange>) {
    && Pieces(gaps)
    && (forall i :: 0 <= i < |gaps| ==> start <= gaps[i].start && gaps[i].end + 1 < cursor && gaps[i].end <= end)
    && forall x :: InAny(gaps, x) <==> start <= x < cursor && x <= end && !InAny(ranges, x)
  }

  lemma {:induction false} Free(ranges: seq<BlockRange>, i: nat, cursor: int)
    requires i < |ranges| && SortedBy(ByStart, ranges) && forall j :: 0 <= j < i ==> ranges[j].end < cursor
    ensures forall x :: cursor <= x < ranges[i].start ==> !InAny(ranges, x)
  {
    forall x | cursor <= x < ranges[i].start ensures !InAny(ranges, x) {
      if j :| 0 <= j < |ranges| && Within(ranges[j], x) {
        assert j > i ==> ByStart(ranges[i], ranges[j]);
      }
    }
  }

  lemma {:induction false} CoveredBy(ranges: seq<BlockRange>, i: nat, cursor: int)
    requires i < |ranges|
    ensures forall x :: ranges[i].start <= x <= ranges[i].end ==> InAny(ranges, x)
  {
    forall x | ranges[i].start <= x <= ranges[i].end ensures InAny(ranges, x) {
      assert Within(ranges[i], x);
    }
  }

  lemma {:induction false} FreeTail(ranges: seq<BlockRange>, i: nat, cursor: int, end: int)
    requires i <= |ranges| && SortedBy(ByStart, ranges) && forall j :: 0 <= j < i ==> ranges[j].end < cursor
    requires i < |ranges| ==> ranges[i].start > end
    ensures forall x :: cursor <= x <= end ==> !InAny(ranges, x)
  {
    forall x | cursor <= x <= end ensures !InAny(ranges, x) {
      if j :| 0 <= j < |ranges| && Within(ranges[j], x) {
        assert j > i ==> ByStart(ranges[i], ranges[j]);
      }
    }
  }

  lemma {:induction false} AddGap(
      start: int, end: int, cursor: int, next: int, gap: BlockRange, ranges: seq<BlockRange>, gaps: seq<BlockRange>)
    requires GapsBelow(start, end, cursor, ranges, gaps) && start <= cursor
    requires gap.start == cursor <= gap.end < end && gap.end + 1 < next
    requires forall x :: gap.start <= x <= gap.end ==> !InAny(ranges, x)
    requires forall x :: gap.end < x < next ==> InAny(ranges, x)
    ensures GapsBelow(start, end, next, ranges, gaps + [gap])
  {
    forall x ensures InAny(gaps + [gap], x) <==> start <= x < next && x <= end && !InAny(ranges, x) {
      InAnySnoc(gaps, gap, x);
    }
  }

  lemma {:induction false} SkipCovered(
      start: int, end: int, cursor: int, next: int, ranges: seq<BlockRange>, gaps: seq<BlockRange>)
    requires GapsBelow(start, end, cursor, ranges, gaps) && cursor <= next
    requires forall x :: cursor <= x < next ==> InAny(ranges, x)
    ensures GapsBelow(start, end, next, ranges, gaps)
  {
  }

  lemma {:induction false} AddLastGap(start: int, end: int, cursor: int, ranges: seq<BlockRange>, gaps: seq<BlockRange>)
    requires GapsBelow(start, end, cursor, ranges, gaps) && start <= cursor <= end
    requires forall x :: cursor <= x <= end ==> !InAny(ranges, x)
    ensures Pieces(gaps + [BlockRange(cursor, end)])
    ensures forall x :: InAny(gaps + [BlockRange(cursor, end)], x) <==> start <= x <= end && !InAny(ranges, x)
  {
    forall x ensures InAny(gaps + [BlockRange(cursor, end)], x) <==> start <= x <= end && !InAny(ranges, x) {
      InAnySnoc(gaps, BlockRange(cursor, end), x);
    }
  }

  // ---------- normalization and counting ----------

  /**
   Ranges that do not end before they start are merged into maximal pieces with
   the same heights; the input is left alone.
   */
  method NormalizeRanges(ranges: array<BlockRange>) returns (merged: seq<BlockRange>)
    ensures AllValid(ranges[..]) ==> Pieces(merged)
    ensures AllValid(ranges[..]) ==> forall x :: InAny(merged, x) <==> InAny(ranges[..], x)
  {
    if ranges.Length == 0 {
      return [];
    }
    var copy := new BlockRange[ranges.Length](i requires 0 <= i < ranges.Length reads ranges => ranges[i]);
    assert copy[..] == ranges[..];
    SortInPlace(copy, ByStartEnd);
    var out := copy[..];
    SameMembers(out, ranges[..]);
    forall x ensures InAny(out, x) <==> InAny(ranges[..], x) {
      InAnyMembers(out, ranges[..], x);
    }
    if AllValid(ranges[..]) {
      ValidMembers(out, ranges[..]);
    }
    merged := MergeSorted(out);
  }

  method MergeSorted(out: seq<BlockRange>) returns (merged: seq<BlockRange>)
    requires out != [] && SortedBy(ByStartEnd, out)
    ensures AllValid(out) ==> Pieces(merged)
    ensures AllValid(out) ==> forall x :: InAny(merged, x) <==> InAny(out, x)
  {
    ghost var valid := AllValid(out);
    merged := [];
    var current := out[0];
    FirstCovered(out);
    for i := 1 to |out|
      invariant valid ==> Pieces(merged + [current])
      invariant current.start <= out[i - 1].start
      invariant valid ==> forall x :: InAny(merged + [current], x) <==> InAny(out[..i], x)
    {
      var next := out[i];
      assert ByStartEnd(out[i - 1], out[i]);
      assert out[..i + 1] == out[..i] + [next];
      if valid {
        Merge(merged, current, next, out[..i]);
      }
      if next.start <= current.end + 1 {
        if next.end > current.end {
          current := BlockRange(current.start, next.end);
        }
        continue;
      }
      merged := merged + [current];
      current := next;
    }
    assert out[..|out|] == out;
    merged := merged + [current];
  }

  lemma {:induction false} FirstCovered(out: seq<BlockRange>)
    requires out != []
    ensures forall x :: InAny([] + [out[0]], x) <==> InAny(out[..1], x)
  {
    assert [] + [out[0]] == out[..1];
  }

  lemma {:induction false} Merge(merged: seq<BlockRange>, current: BlockRange, next: BlockRange, seen: seq<BlockRange>)
    requires Pieces(merged + [current]) && next.start <= next.end && current.start <= next.start
    requires forall x :: InAny(merged + [current], x) <==> InAny(seen, x)
    ensures var joined := if next.start <= current.end + 1
                          then merged + [BlockRange(current.start, Max(current.end, next.end))]
                          else merged + [current] + [next];
            Pieces(joined) && forall x :: InAny(joined, x) <==> InAny(seen + [next], x)
  {
    var joined := if next.start <= current.end + 1 then merged + [BlockRange(current.start, Max(current.end, next.end))]
                  else merged + [current] + [next];
    assert (merged + [current])[|merged|] == current;
    forall x ensures InAny(joined, x) <==> InAny(seen + [next], x) {
      InAnySnoc(seen, next, x);
      InAnySnoc(merged, current, x);
      InAnySnoc(merged, BlockRange(current.start, Max(current.end, next.end)), x);
      InAnySnoc(merged + [current], next, x);
    }
    forall i, j | 0 <= i < j < |joined| ensures joined[i].end + 1 < joined[j].start {
      if i < |merged| {
        var before := merged + [current];
        assert before[i] == joined[i] && before[i].end + 1 < before[|merged|].start;
        assert j < |merged| ==> before[j] == joined[j] && before[i].end + 1 < before[j].start;
      }
    }
    assert AllValid(joined) by {
      forall i | 0 <= i < |joined| ensures joined[i].start <= joined[i].end {
        if i < |merged| {
          assert (merged + [current])[i] == joined[i];
        }
      }
    }
  }

  function Total(ranges: seq<BlockRange>): int {
    if ranges == [] then 0
    else Total(ranges[..|ranges| - 1]) + (ranges[|ranges| - 1].end - ranges[|ranges| - 1].start + 1)
  }

  method CountBlocks(ranges: seq<BlockRange>) returns (total: int)
    ensures total == Total(ranges)
  {
    total := 0;
    for i := 0 to |ranges|
      invariant total == Total(ranges[..i])
    {
      assert ranges[..i + 1][..i] == ranges[..i];
      total := total + (ranges[i].end - ranges[i].start + 1);
    }
    assert ranges[..|ranges|] == ranges;
  }

  function Heights(r: BlockRange): set<int> {
    set x | r.start <= x <= r.end && Within(r, x)
  }

  lemma {:induction false} HeightsSize(r: BlockRange)
    requires r.start <= r.end
    ensures |Heights(r)| == r.end - r.start + 1
    decreases r.end - r.start
  {
    if r.start == r.end {
      assert Heights(r) == {r.start};
    } else {
      var shorter := BlockRange(r.start, r.end - 1);
      HeightsSize(shorter);
      assert Heights(r) == Heights(shorter) + {r.end};
    }
  }

  ghost predicate Covers(ranges: seq<BlockRange>, union: set<int>) {
    forall x :: x in union <==> InAny(ranges, x)
  }

  lemma {:induction false} NothingCovered(union: set<int>)
    requires Covers([], union)
    ensures union == {}
  {
    forall x ensures x !in union {
      assert !InAny([], x);
    }
  }

  lemma {:induction false} SplitLast(init: seq<BlockRange>, last: BlockRange, union: set<int>)
    requires Pieces(init + [last]) && Covers(init + [last], union)
    ensures Pieces(init) && Covers(init, union - Heights(last)) && Heights(last) <= union
  {
    var ranges := init + [last];
    forall i | 0 <= i < |init| ensures init[i] == ranges[i] && init[i].end + 1 < last.start {
      assert ranges[i].end + 1 < ranges[|init|].start;
    }
    forall x ensures x in union - Heights(last) <==> InAny(init, x)
             ensures x in Heights(last) ==> x in union
    {
      InAnySnoc(init, last, x);
    }
  }

  /** Counting maximal pieces counts heights: the total is the size of the union. */
  lemma {:induction false} TotalIsUnionSize(ranges: seq<BlockRange>, union: set<int>)
    requires Pieces(ranges) && Covers(ranges, union)
    ensures Total(ranges) == |union|
  {
    if ranges == [] {
      NothingCovered(union);
    } else {
      var init, last := ranges[..|ranges| - 1], ranges[|ranges| - 1];
      assert ranges == init + [last];
      SplitLast(init, last, union);
      TotalIsUnionSize(init, union - Heights(last));
      HeightsSize(last);
      assert union == (union - Heights(last)) + Heights(last);
    }
  }
}
