/**
 The event stream: items in segments of fixed size in a ring buffer, the
 oldest segment dropped when there are too many, read by item offset.
 Everything a reader sees is stated against the full history of items.
 */
module Stream {
  import opened Common

  // ---------- segments of a history ----------

  /** How many segments `n` items fill, the last one possibly in part. */
  function Chunks(n: nat, size: nat): nat
    requires size > 0
  {
    if n == 0 then 0 else (n - 1) / size + 1
  }

  /** How many leading segments have been dropped. */
  function Dropped(n: nat, size: nat, max: nat): nat
    requires size > 0
  {
    if Chunks(n, size) > max + 1 then Chunks(n, size) - max - 1 else 0
  }

  function Chunk<V>(h: seq<V>, size: nat, i: nat): seq<V> {
    h[Min(i * size, |h|)..Min((i + 1) * size, |h|)]
  }

  /** The segments held are exactly the last ones of the history. */
  ghost predicate Represents<V>(segments: seq<seq<V>>, dropped: nat, h: seq<V>, size: nat, max: nat)
    requires size > 0
  {
    && dropped == Dropped(|h|, size, max)
    && |segments| == Chunks(|h|, size) - dropped
    && forall i :: 0 <= i < |segments| ==> segments[i] == Chunk(h, size, dropped + i)
  }

  lemma {:induction false} Scaled(a: nat, b: nat, size: nat)
    requires a <= b
    ensures a * size <= b * size
  {
  }

  lemma {:induction false} QuotientIs(n: nat, size: nat, a: nat)
    requires a * size <= n < (a + 1) * size
    ensures n / size == a
  {
    var q := n / size;
    assert q * size <= n < (q + 1) * size;
    if q < a {
      Scaled(q + 1, a, size);
    } else if q > a {
      Scaled(a + 1, q, size);
    }
  }

  lemma {:induction false} ChunksBounds(n: nat, size: nat)
    requires size > 0
    ensures var c := Chunks(n, size); n <= c * size && (n > 0 ==> 0 < c && (c - 1) * size < n)
  {
    if n > 0 {
      var q := (n - 1) / size;
      assert q * size <= n - 1 < (q + 1) * size;
    }
  }

  lemma {:induction false} ChunksNext(n: nat, size: nat)
    requires size > 0
    ensures var c := Chunks(n, size); Chunks(n + 1, size) == if n == c * size then c + 1 else c
    ensures n / size == Chunks(n + 1, size) - 1
  {
    var c := Chunks(n, size);
    ChunksBounds(n, size);
    if n == c * size {
      assert (c + 1) * size == c * size + size;
      QuotientIs(n, size, c);
    } else {
      QuotientIs(n, size, c - 1);
    }
  }

  lemma {:induction false} ChunkKept<V>(h: seq<V>, v: V, size: nat, i: nat)
    requires size > 0 && i + 1 < Chunks(|h| + 1, size)
    ensures Chunk(h + [v], size, i) == Chunk(h, size, i)
  {
    var c := Chunks(|h| + 1, size);
    ChunksNext(|h|, size);
    Scaled(i + 1, c - 1, size);
    assert (c - 1) * size <= |h|;
    Scaled(i, i + 1, size);
  }

  lemma {:induction false} SliceGrown<V>(h: seq<V>, v: V, lo: nat, hi: nat)
    requires lo <= |h| < hi
    ensures (h + [v])[Min(lo, |h| + 1)..Min(hi, |h| + 1)] == h[Min(lo, |h|)..Min(hi, |h|)] + [v]
  {
  }

  lemma {:induction false} ChunkGrown<V>(h: seq<V>, v: V, size: nat)
    requires size > 0
    ensures var i := Chunks(|h| + 1, size) - 1; Chunk(h + [v], size, i) == Chunk(h, size, i) + [v]
  {
    var i := Chunks(|h| + 1, size) - 1;
    ChunksNext(|h|, size);
    assert i * size <= |h| < (i + 1) * size;
    SliceGrown(h, v, i * size, (i + 1) * size);
  }

  lemma {:induction false} ChunkLength<V>(h: seq<V>, size: nat, i: nat)
    requires size > 0 && i < Chunks(|h|, size)
    ensures i * size < |h|
    ensures |Chunk(h, size, i)| == Min(size, |h| - i * size) > 0
  {
    ChunksBounds(|h|, size);
    Scaled(i, Chunks(|h|, size) - 1, size);
    assert (i + 1) * size == i * size + size;
  }

  /** The tail test of `Add`: there is no segment, or the last one is full, exactly at a segment boundary. */
  lemma {:induction false} TailFull<V>(segments: seq<seq<V>>, dropped: nat, h: seq<V>, size: nat, max: nat)
    requires size > 0 && Represents(segments, dropped, h, size, max)
    ensures (segments == [] || |segments[|segments| - 1]| == size) <==> |h| == Chunks(|h|, size) * size
  {
    var c := Chunks(|h|, size);
    ChunksBounds(|h|, size);
    if segments != [] {
      ChunkLength(h, size, c - 1);
      assert c * size == (c - 1) * size + size;
    }
  }

  /** Whether `Add` has to start a segment. */
  predicate NeedsSegment<V>(segments: seq<seq<V>>, size: nat) {
    segments == [] || |segments[|segments| - 1]| == size
  }

  /** Where an item goes: the segments after a possible drop and a possible new one. */
  function Room<V>(segments: seq<seq<V>>, size: nat, max: nat): seq<seq<V>> {
    if !NeedsSegment(segments, size) then segments
    else if |segments| > max then segments[1..] + [[]]
    else segments + [[]]
  }

  /** The drop counter after making room. */
  function RoomOffset<V>(segments: seq<seq<V>>, dropped: nat, size: nat, max: nat): nat {
    if NeedsSegment(segments, size) && |segments| > max then dropped + 1 else dropped
  }

  lemma {:induction false} RoomCounts<V>(segments: seq<seq<V>>, dropped: nat, h: seq<V>, size: nat, max: nat)
    requires size > 0 && Represents(segments, dropped, h, size, max)
    ensures RoomOffset(segments, dropped, size, max) == Dropped(|h| + 1, size, max)
    ensures |Room(segments, size, max)| == Chunks(|h| + 1, size) - Dropped(|h| + 1, size, max) > 0
  {
    TailFull(segments, dropped, h, size, max);
    ChunksNext(|h|, size);
    ChunksBounds(|h|, size);
  }

  lemma {:induction false} EmptyBeyond<V>(h: seq<V>, size: nat)
    requires size > 0 && |h| == Chunks(|h|, size) * size
    ensures Chunk(h, size, Chunks(|h|, size)) == []
  {
    var c := Chunks(|h|, size);
    assert (c + 1) * size == c * size + size;
  }

  lemma {:induction false} RoomAt<V>(segments: seq<seq<V>>, dropped: nat, h: seq<V>, size: nat, max: nat, i: nat)
    requires size > 0 && Represents(segments, dropped, h, size, max)
    requires i < |Room(segments, size, max)|
    ensures Room(segments, size, max)[i] == Chunk(h, size, RoomOffset(segments, dropped, size, max) + i)
  {
    hide Chunks, Dropped, Chunk;
    var d := RoomOffset(segments, dropped, size, max);
    if i < |segments| + dropped - d {
      assert Room(segments, size, max)[i] == segments[d + i - dropped];
    } else {
      TailFull(segments, dropped, h, size, max);
      EmptyBeyond(h, size);
      assert d + i == Chunks(|h|, size);
    }
  }

  /** Appending to the room left by `Add` gives the segments of the longer history. */
  lemma {:induction false} AddKeepsHistory<V>(
      segments: seq<seq<V>>, dropped: nat, h: seq<V>, size: nat, max: nat, room: seq<seq<V>>, v: V)
    requires size > 0 && Represents(segments, dropped, h, size, max) && room == Room(segments, size, max)
    ensures room != []
    ensures var last := |room| - 1;
            Represents(room[..last] + [room[last] + [v]], RoomOffset(segments, dropped, size, max), h + [v], size, max)
  {
    hide Chunks, Dropped, Chunk, Room, RoomOffset;
    RoomCounts(segments, dropped, h, size, max);
    var last, d := |room| - 1, RoomOffset(segments, dropped, size, max);
    forall i | 0 <= i < last ensures room[i] == Chunk(h + [v], size, d + i) {
      RoomAt(segments, dropped, h, size, max, i);
      ChunkKept(h, v, size, d + i);
    }
    RoomAt(segments, dropped, h, size, max, last);
    ChunkGrown(h, v, size);
  }

  // ---------- what a reader gets ----------

  /** `Panics` is a slice bound out of range. */
  datatype Read<V> = Items(items: seq<V>, last: nat) | Panics

  function ReadOf<V>(h: seq<V>, size: nat, max: nat, offset: int): Read<V>
    requires size > 0
  {
    var n := |h|;
    if n == 0 || offset < 0 then Items([], n)
    else
      var t := Max(offset / size, Dropped(n, size, max));
      if t >= Chunks(n, size) then Items([], n)
      else
        var lo, hi := t * size + offset % size, Min((t + 1) * size, n);
        if lo > hi then Panics else if lo == hi then Items([], n) else Items(h[lo..hi], hi)
  }

  /** The first item still held. */
  function Oldest(n: nat, size: nat, max: nat): nat
    requires size > 0
  {
    Dropped(n, size, max) * size
  }

  /** Where a reader continues: at its offset, or in the oldest segment if that was pruned. */
  function Resume(n: nat, size: nat, max: nat, offset: nat): nat
    requires size > 0
  {
    if offset >= Oldest(n, size, max) then offset else Oldest(n, size, max) + offset % size
  }

  lemma {:induction false} OffsetSegment(offset: nat, size: nat, k: nat)
    requires size > 0
    ensures offset == (offset / size) * size + offset % size
    ensures offset / size < k <==> offset < k * size
  {
    var q := offset / size;
    assert offset == q * size + offset % size;
    assert (q + 1) * size == q * size + size;
    if q < k {
      Scaled(q + 1, k, size);
    } else {
      Scaled(k, q, size);
    }
  }

  lemma {:induction false} DroppedSegmentsAreFull(n: nat, size: nat, max: nat)
    requires size > 0 && max > 0 && Dropped(n, size, max) > 0
    ensures Oldest(n, size, max) + size < n
    ensures Dropped(n, size, max) < Chunks(n, size)
    ensures (Dropped(n, size, max) + 1) * size == Oldest(n, size, max) + size
  {
    var d, c := Dropped(n, size, max), Chunks(n, size);
    ChunksBounds(n, size);
    Scaled(d + 1, c - 1, size);
    assert (d + 1) * size == d * size + size;
  }

  /** Where a read looks: its segment, if that is there, and where in the history that is. */
  lemma {:induction false} ReadPlace(n: nat, size: nat, max: nat, offset: nat)
    requires size > 0 && max > 0 && 0 < n && offset <= n
    ensures var t := Max(offset / size, Dropped(n, size, max));
            var from := Resume(n, size, max, offset);
            && t * size + offset % size == from && from / size == t && from <= n
            && (from == n <==> offset == n) && (t >= Chunks(n, size) ==> from == n)
            && from < (t + 1) * size
  {
    var d, c := Dropped(n, size, max), Chunks(n, size);
    OffsetSegment(offset, size, d);
    OffsetSegment(offset, size, c);
    ChunksBounds(n, size);
    if d > 0 {
      DroppedSegmentsAreFull(n, size, max);
    }
    var t := Max(offset / size, d);
    assert (t + 1) * size == t * size + size;
    QuotientIs(t * size + offset % size, size, t);
  }

  /**
   A read never skips or repeats: it starts at its offset, or at the same place
   in the oldest segment if its own was dropped, and returns history from there
   up to the end of that segment or of the history.
   */
  lemma {:induction false} ReadContinues<V>(h: seq<V>, size: nat, max: nat, offset: nat)
    requires size > 0 && max > 0 && offset <= |h|
    ensures var oldest := Oldest(|h|, size, max);
            var from := if offset >= oldest then offset else oldest + offset % size;
            var r := ReadOf(h, size, max, offset);
            && from <= |h| && r.Items?
            && (from == |h| ==> r == Items([], |h|))
            && (from < |h| ==> from < r.last <= |h| && r.items == h[from..r.last])
            && (from < |h| ==> r.last == Min((from / size + 1) * size, |h|))
            && (from == |h| <==> offset == |h|)
  {
    hide Chunks, Dropped;
    if h == [] {
      Retention(0, size, max);
    } else {
      ReadPlace(|h|, size, max, offset);
    }
  }

  /** An offset beyond the last item but inside the room of the last segment. */
  predicate InRoom(n: nat, size: nat, offset: int)
    requires size > 0
  {
    n < offset < Chunks(n, size) * size
  }

  /** A read panics exactly for an offset beyond the last item but inside the last segment's room. */
  lemma {:induction false} PanicsExactly<V>(h: seq<V>, size: nat, max: nat, offset: int)
    requires size > 0 && max > 0
    ensures ReadOf(h, size, max, offset).Panics? <==> InRoom(|h|, size, offset)
  {
    var n := |h|;
    var d, c := Dropped(n, size, max), Chunks(n, size);
    if n > 0 && offset >= 0 {
      OffsetSegment(offset, size, d);
      OffsetSegment(offset, size, c);
      ChunksBounds(n, size);
      if d > 0 {
        DroppedSegmentsAreFull(n, size, max);
      }
      var t := Max(offset / size, d);
      assert (t + 1) * size == t * size + size;
    }
  }

  /**
   What is held is whole segments of the history: all of it up to one segment
   more than the capacity, and beyond that more than the capacity but no more
   than one segment above it. That leaves one possibility for every length.
   */
  lemma {:induction false} Retention(n: nat, size: nat, max: nat)
    requires size > 0
    ensures n <= (max + 1) * size ==> Oldest(n, size, max) == 0
    ensures n > (max + 1) * size ==> max * size < n - Oldest(n, size, max) <= (max + 1) * size
    ensures Oldest(n, size, max) == Oldest(n, size, max) / size * size
  {
    var d, c := Dropped(n, size, max), Chunks(n, size);
    ChunksBounds(n, size);
    QuotientIs(d * size, size, d);
    if d > 0 {
      assert (c - 1) * size == d * size + max * size;
      assert c * size == d * size + (max + 1) * size;
      Scaled(max + 1, c - 1, size);
    } else {
      Scaled(c, max + 1, size);
    }
  }

  // ---------- subscribers ----------

  datatype Move<V> = Publish(items: seq<V>) | Poll

  /**
   A subscriber beside the stream: what was published, its position, and the
   item numbers delivered to it. It starts at -1 and reads again whenever it is
   woken, so a read may come at any time and find nothing.
   */
  datatype Session<V> = Session(history: seq<V>, position: int, delivered: seq<nat>)

  function Between(lo: nat, hi: nat): seq<nat>
    requires lo <= hi
    decreases hi - lo
  {
    if lo == hi then [] else [lo] + Between(lo + 1, hi)
  }

  /** One publication, or one read at the subscriber's position; a read that panics would leave no session. */
  function Step<V>(s: Session<V>, size: nat, max: nat, m: Move<V>): Option<Session<V>>
    requires size > 0
  {
    match m
    case Publish(items) => Some(s.(history := s.history + items))
    case Poll =>
      var r := ReadOf(s.history, size, max, s.position);
      if r.Panics? then None
      else if r.items == [] then Some(s.(position := r.last))
      else if |r.items| > r.last then None
      else Some(s.(position := r.last, delivered := s.delivered + Between(r.last - |r.items|, r.last)))
  }

  function Follow<V>(s: Session<V>, size: nat, max: nat, moves: seq<Move<V>>): Option<Session<V>>
    requires size > 0
  {
    if moves == [] then Some(s)
    else
      var before := Follow(s, size, max, moves[..|moves| - 1]);
      if before.None? then None else Step(before.value, size, max, moves[|moves| - 1])
  }

  ghost predicate Ascending(ids: seq<nat>) {
    forall i, j :: 0 <= i < j < |ids| ==> ids[i] < ids[j]
  }

  lemma {:induction false} BetweenAt(lo: nat, hi: nat)
    requires lo <= hi
    ensures |Between(lo, hi)| == hi - lo && forall i :: 0 <= i < hi - lo ==> Between(lo, hi)[i] == lo + i
    decreases hi - lo
  {
    if lo < hi {
      BetweenAt(lo + 1, hi);
    }
  }

  lemma {:induction false} BetweenJoins(lo: nat, mid: nat, hi: nat)
    requires lo <= mid <= hi
    ensures Between(lo, mid) + Between(mid, hi) == Between(lo, hi)
  {
    BetweenAt(lo, mid);
    BetweenAt(mid, hi);
    BetweenAt(lo, hi);
  }

  ghost predicate Sane<V>(s: Session<V>) {
    && -1 <= s.position <= |s.history|
    && Ascending(s.delivered)
    && forall i :: 0 <= i < |s.delivered| ==> s.delivered[i] < s.position
  }

  lemma {:induction false} StepSane<V>(s: Session<V>, size: nat, max: nat, m: Move<V>)
    requires size > 0 && max > 0 && Sane(s)
    ensures Step(s, size, max, m).Some? && Sane(Step(s, size, max, m).value)
    ensures s.position <= Step(s, size, max, m).value.position
  {
    if m.Poll? && s.position >= 0 {
      ReadContinues(s.history, size, max, s.position);
      var r := ReadOf(s.history, size, max, s.position);
      if r.items != [] {
        BetweenAt(r.last - |r.items|, r.last);
      }
    }
  }

  /**
   Whatever is published between its reads, a subscriber never makes the
   stream panic, its position never moves back, and it is given items in
   order, none twice.
   */
  lemma {:induction false} SubscriberSafe<V>(start: Session<V>, size: nat, max: nat, moves: seq<Move<V>>)
    requires size > 0 && max > 0 && Sane(start)
    ensures Follow(start, size, max, moves).Some? && Sane(Follow(start, size, max, moves).value)
    ensures start.position <= Follow(start, size, max, moves).value.position
  {
    if moves != [] {
      SubscriberSafe(start, size, max, moves[..|moves| - 1]);
      StepSane(Follow(start, size, max, moves[..|moves| - 1]).value, size, max, moves[|moves| - 1]);
    }
  }

  /** At every read of the run the subscriber is at most the capacity behind. */
  ghost predicate KeepsUp<V>(start: Session<V>, size: nat, max: nat, moves: seq<Move<V>>)
    requires size > 0
  {
    forall i :: 0 <= i < |moves| && moves[i].Poll? ==>
      var s := Follow(start, size, max, moves[..i]);
      s.Some? && |s.value.history| - s.value.position <= max * size
  }

  lemma {:induction false} PollTakesAll<V>(s: Session<V>, size: nat, max: nat, from: nat, delivered: seq<nat>)
    requires size > 0 && max > 0 && Sane(s) && |s.history| - s.position <= max * size
    requires from <= s.position && s.delivered == delivered + Between(from, s.position)
    ensures var next := Step(s, size, max, Poll);
            next.Some? && s.position <= next.value.position &&
              next.value.delivered == delivered + Between(from, next.value.position)
  {
    hide ReadOf, Dropped, Chunks, Oldest, Between, Ascending;
    StepSane(s, size, max, Poll);
    Retention(|s.history|, size, max);
    ReadContinues(s.history, size, max, s.position);
    var r := ReadOf(s.history, size, max, s.position);
    if r.items != [] {
      BetweenJoins(from, s.position, r.last);
    }
  }

  lemma {:induction false} KeepsUpBefore<V>(start: Session<V>, size: nat, max: nat, moves: seq<Move<V>>)
    requires size > 0 && moves != [] && KeepsUp(start, size, max, moves)
    ensures KeepsUp(start, size, max, moves[..|moves| - 1])
  {
    var before := moves[..|moves| - 1];
    forall i | 0 <= i < |before| && before[i].Poll?
      ensures var s := Follow(start, size, max, before[..i]);
              s.Some? && |s.value.history| - s.value.position <= max * size
    {
      assert before[..i] == moves[..i];
      assert moves[i].Poll?;
    }
  }

  /** A subscriber that keeps up is given every item from its position on, exactly once and in order. */
  lemma {:induction false} NothingMissed<V>(start: Session<V>, size: nat, max: nat, moves: seq<Move<V>>)
    requires size > 0 && max > 0 && Sane(start) && start.position >= 0 && KeepsUp(start, size, max, moves)
    ensures var end := Follow(start, size, max, moves);
            && end.Some? && start.position <= end.value.position
            && end.value.delivered == start.delivered + Between(start.position, end.value.position)
  {
    if moves == [] {
      assert start.delivered + [] == start.delivered;
    } else {
      var before, m := moves[..|moves| - 1], moves[|moves| - 1];
      KeepsUpBefore(start, size, max, moves);
      NothingMissed(start, size, max, before);
      SubscriberSafe(start, size, max, before);
      if m.Poll? {
        PollTakesAll(Follow(start, size, max, before).value, size, max, start.position, start.delivered);
      }
    }
  }

  lemma {:induction false} FollowAfter<V>(s: Session<V>, size: nat, max: nat, m: Move<V>, rest: seq<Move<V>>)
    requires size > 0 && Step(s, size, max, m).Some?
    ensures Follow(s, size, max, [m] + rest) == Follow(Step(s, size, max, m).value, size, max, rest)
  {
    hide Step;
    if rest == [] {
      assert [m] + rest == [m] && [m][..0] == [];
      assert Follow(s, size, max, []) == Some(s);
    } else {
      var n := |rest| - 1;
      FollowAfter(s, size, max, m, rest[..n]);
      assert ([m] + rest)[..n + 1] == [m] + rest[..n];
    }
  }

  /**
   A new subscriber joins at the end of what was published, and if it keeps up
   gets everything published after that.
   */
  lemma {:induction false} NewSubscriber<V>(history: seq<V>, size: nat, max: nat, moves: seq<Move<V>>)
    requires size > 0 && max > 0 && KeepsUp(Session(history, |history|, []), size, max, moves)
    ensures var end := Follow(Session(history, -1, []), size, max, [Poll] + moves);
            end.Some? && |history| <= end.value.position &&
              end.value.delivered == Between(|history|, end.value.position)
  {
    var joined := Session(history, |history|, []);
    assert Step(Session(history, -1, []), size, max, Poll) == Some(joined);
    FollowAfter(Session(history, -1, []), size, max, Poll, moves);
    NothingMissed(joined, size, max, moves);
  }
}
