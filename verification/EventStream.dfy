/**
 The stream object: `Add` and the reads over the ring buffer of segments,
 refining the history of all items ever added.
 */
module EventStream {
  import opened Common
  import opened Stream
  import Q = Queue

  class EventStream<V> {
    const segments: Q.Queue<seq<V>>
    const segmentSize: nat
    const maxSegments: nat
    var segmentOffset: nat
    ghost var history: seq<V>

    ghost predicate Valid()
      reads this, segments, segments.buf
    {
      && segmentSize > 0 && maxSegments > 0
      && segments.Valid()
      && Represents(segments.Contents(), segmentOffset, history, segmentSize, maxSegments)
    }

    /** The source panics on a capacity that needs no segment, and divides by the segment size. */
    constructor (segmentSize: nat, capacity: nat)
      requires segmentSize > 0 && capacity > 0
      ensures Valid() && fresh(segments) && fresh(segments.buf)
      ensures history == [] && this.segmentSize == segmentSize
      ensures capacity <= maxSegments * segmentSize < capacity + segmentSize
    {
      var queue := new Q.Queue<seq<V>>();
      segments := queue;
      this.segmentSize := segmentSize;
      maxSegments := (capacity + segmentSize - 1) / segmentSize;
      segmentOffset := 0;
      history := [];
      new;
      CapacityCovered(capacity, segmentSize);
    }

    static lemma {:induction false} CapacityCovered(capacity: nat, size: nat)
      requires size > 0 && capacity > 0
      ensures var max := (capacity + size - 1) / size; max > 0 && capacity <= max * size < capacity + size
    {
      var max := (capacity + size - 1) / size;
      assert capacity + size - 1 < (max + 1) * size;
      assert (max + 1) * size == max * size + size;
    }

    method LastId() returns (id: nat)
      requires Valid()
      ensures id == |history|
    {
      var n := segments.Length();
      if n == 0 {
        ChunksBounds(|history|, segmentSize);
        return 0;
      }
      var tail := segments.Get(-1);
      LastIdIsCount(segments.Contents(), segmentOffset, history, segmentSize, maxSegments);
      id := (segmentOffset + n - 1) * segmentSize + |tail.value|;
    }

    /** Starts a segment when there is none or the last one is full, dropping the oldest if there are too many. */
    method MakeRoom()
      requires segments.Valid()
      modifies this`segmentOffset, segments, segments.buf
      ensures segments.Valid() && (segments.buf == old(segments.buf) || fresh(segments.buf))
      ensures segments.Contents() == Room(old(segments.Contents()), segmentSize, maxSegments)
      ensures segmentOffset == RoomOffset(old(segments.Contents()), old(segmentOffset), segmentSize, maxSegments)
    {
      var n := segments.Length();
      var tail := segments.Get(-1);
      if n == 0 || |tail.value| == segmentSize {
        if n > maxSegments {
          var _ := segments.Remove();
          segmentOffset := segmentOffset + 1;
        }
        segments.Add([]);
      }
    }

    method AddOne(v: V)
      requires Valid()
      modifies this, segments, segments.buf
      ensures Valid() && history == old(history) + [v]
      ensures segments.buf == old(segments.buf) || fresh(segments.buf)
    {
      hide Represents, Room, RoomOffset, Chunks, Dropped, Chunk, Q.Ring, Q.PowerOfTwo, Q.Wrap;
      ghost var before, dropped := segments.Contents(), segmentOffset;
      ghost var room := Room(before, segmentSize, maxSegments);
      AddKeepsHistory(before, dropped, history, segmentSize, maxSegments, room, v);
      MakeRoom();
      var tail := segments.Get(-1);
      var _ := segments.SetTail(tail.value + [v]);
      history := history + [v];
    }

    /** Appends the items and returns the id of the last one; ids start at 1, and no items give 0. */
    method Add(vs: seq<V>) returns (id: nat)
      requires Valid()
      modifies this, segments, segments.buf
      ensures Valid() && history == old(history) + vs
      ensures segments.buf == old(segments.buf) || fresh(segments.buf)
      ensures id == if vs == [] then 0 else |history|
    {
      if vs == [] {
        return 0;
      }
      var i := 0;
      while i < |vs|
        invariant i <= |vs| && Valid()
        invariant segments.buf == old(segments.buf) || fresh(segments.buf)
        invariant history == old(history) + vs[..i]
      {
        AddOne(vs[i]);
        assert vs[..i + 1] == vs[..i] + [vs[i]];
        i := i + 1;
      }
      id := LastId();
    }

    method DoRead(offset: int) returns (r: Read<V>)
      requires Valid()
      ensures r == ReadOf(history, segmentSize, maxSegments, offset)
    {
      hide Chunk, Chunks, Dropped, Represents, ReadOf, Q.Ring, Q.PowerOfTwo, Q.Wrap;
      var last := LastId();
      SegmentReadIs(segments.Contents(), segmentOffset, history, segmentSize, maxSegments, offset);
      var n := segments.Length();
      if n == 0 || offset < 0 {
        return Items([], last);
      }
      var segment := offset / segmentSize;
      segment := if segment >= segmentOffset then segment - segmentOffset else 0;
      if segment >= n {
        return Items([], last);
      }
      var seg := segments.Get(segment);
      if offset % segmentSize > |seg.value| {
        return Panics;
      }
      var items := seg.value[offset % segmentSize..];
      if items == [] {
        return Items([], last);
      }
      r := Items(items, (segmentOffset + segment) * segmentSize + |seg.value|);
    }

    /**
     Everything from where the reader continues to the end; like a single
     read it panics exactly inside the unfilled part of the last segment.
     */
    method ReadAllNonBlocking(offset: int) returns (r: Read<V>)
      requires Valid()
      ensures offset < 0 ==> r == Items([], |history|)
      ensures 0 <= offset <= |history| ==>
                var from := Resume(|history|, segmentSize, maxSegments, offset);
                from <= |history| && r == Items(history[from..], |history|)
      ensures r.Panics? <==> InRoom(|history|, segmentSize, offset)
      ensures offset > |history| && !r.Panics? ==> r == Items([], |history|)
    {
      hide ReadOf, Chunks, Dropped, Oldest, Held, Resume, Represents, InRoom, Q.Ring, Q.PowerOfTwo, Q.Wrap;
      FirstRead(history, segmentSize, maxSegments, offset);
      r := DoRead(offset);
      if r.Panics? || r.items == [] {
        return;
      }
      ghost var from := Resume(|history|, segmentSize, maxSegments, offset);
      var result := r.items;
      var position := r.last;
      while r.items != []
        invariant r.Items? && from <= position <= |history| && Held(|history|, segmentSize, maxSegments, position)
        invariant result == history[from..position]
        invariant r.items == [] ==> position == |history|
        decreases |history| - position, |r.items|
      {
        NextRead(history, segmentSize, maxSegments, position);
        r := DoRead(position);
        result := result + r.items;
        position := r.last;
      }
      r := Items(result, position);
    }
  }

  lemma {:induction false} LastIdIsCount<V>(segments: seq<seq<V>>, dropped: nat, h: seq<V>, size: nat, max: nat)
    requires size > 0 && segments != [] && Represents(segments, dropped, h, size, max)
    ensures (dropped + |segments| - 1) * size + |segments[|segments| - 1]| == |h|
  {
    var c := Chunks(|h|, size);
    ChunkLength(h, size, c - 1);
    ChunksBounds(|h|, size);
    assert c * size == (c - 1) * size + size;
  }

  lemma {:induction false} SegmentsOf<V>(segments: seq<seq<V>>, dropped: nat, h: seq<V>, size: nat, max: nat)
    requires size > 0 && Represents(segments, dropped, h, size, max)
    ensures segments == [] <==> h == []
    ensures dropped == Dropped(|h|, size, max) && dropped + |segments| == Chunks(|h|, size)
  {
    ChunksBounds(|h|, size);
  }

  /** Slicing the segment found is slicing the history. */
  lemma {:induction false} ReadsSegment<V>(
      segments: seq<seq<V>>, dropped: nat, h: seq<V>, size: nat, max: nat, offset: nat, segment: nat)
    requires size > 0 && Represents(segments, dropped, h, size, max) && segment < |segments|
    ensures var t := dropped + segment;
            var seg, hi, m := segments[segment], Min((t + 1) * size, |h|), offset % size;
            && t * size + |seg| == hi
            && (m <= |seg| ==> seg[m..] == h[t * size + m..hi])
  {
    var t := dropped + segment;
    ChunkLength(h, size, t);
    assert (t + 1) * size == t * size + size;
  }

  /** What the segment arithmetic of a read computes; `last` is the last id. */
  function SegmentRead<V>(segments: seq<seq<V>>, dropped: nat, size: nat, last: nat, offset: int): Read<V>
    requires size > 0
  {
    if segments == [] || offset < 0 then Items([], last)
    else
      var segment := if offset / size >= dropped then offset / size - dropped else 0;
      if segment >= |segments| then Items([], last)
      else
        var seg := segments[segment];
        if offset % size > |seg| then Panics
        else if seg[offset % size..] == [] then Items([], last)
        else Items(seg[offset % size..], (dropped + segment) * size + |seg|)
  }

  lemma {:induction false} SegmentReadIs<V>(
      segments: seq<seq<V>>, dropped: nat, h: seq<V>, size: nat, max: nat, offset: int)
    requires size > 0 && Represents(segments, dropped, h, size, max)
    ensures SegmentRead(segments, dropped, size, |h|, offset) == ReadOf(h, size, max, offset)
  {
    hide Chunk, Chunks, Dropped, Represents;
    SegmentsOf(segments, dropped, h, size, max);
    if segments != [] && offset >= 0 {
      var segment := if offset / size >= dropped then offset / size - dropped else 0;
      if segment < |segments| {
        ReadsSegment(segments, dropped, h, size, max, offset, segment);
      }
    }
  }

  ghost predicate Held(n: nat, size: nat, max: nat, position: nat)
    requires size > 0
  {
    Oldest(n, size, max) <= position
  }

  /** A read at a position still held returns history from there and moves on unless at the end. */
  lemma {:induction false} NextRead<V>(h: seq<V>, size: nat, max: nat, position: nat)
    requires size > 0 && max > 0 && position <= |h| && Held(|h|, size, max, position)
    ensures var r := ReadOf(h, size, max, position);
            && r.Items? && position <= r.last <= |h| && Held(|h|, size, max, r.last)
            && r.items == h[position..r.last]
            && (r.items == [] <==> position == |h|)
  {
    ReadContinues(h, size, max, position);
  }

  ghost predicate ReadFrom<V>(r: Read<V>, h: seq<V>, size: nat, max: nat, from: nat)
    requires size > 0
  {
    && r.Items? && from <= r.last <= |h| && Held(|h|, size, max, r.last)
    && r.items == h[from..r.last]
    && (r.items == [] <==> from == |h|)
  }

  lemma {:induction false} ResumeHeld(n: nat, size: nat, max: nat, offset: nat)
    requires size > 0
    ensures Held(n, size, max, Resume(n, size, max, offset))
  {
  }

  lemma {:induction false} ReadInside<V>(h: seq<V>, size: nat, max: nat, offset: nat)
    requires size > 0 && max > 0 && offset <= |h|
    ensures ReadFrom(ReadOf(h, size, max, offset), h, size, max, Resume(|h|, size, max, offset))
  {
    ReadContinues(h, size, max, offset);
    ResumeHeld(|h|, size, max, offset);
  }

  /** The first read from any offset: a panic, nothing, or history from where the reader continues. */
  lemma {:induction false} FirstRead<V>(h: seq<V>, size: nat, max: nat, offset: int)
    requires size > 0 && max > 0
    ensures var r := ReadOf(h, size, max, offset);
            && (r.Panics? <==> InRoom(|h|, size, offset))
            && (offset < 0 || (offset > |h| && r.Items?) ==> r == Items([], |h|))
            && (0 <= offset <= |h| ==> ReadFrom(r, h, size, max, Resume(|h|, size, max, offset)))
  {
    PanicsExactly(h, size, max, offset);
    if 0 <= offset <= |h| {
      ReadInside(h, size, max, offset);
    } else if offset > |h| && ReadOf(h, size, max, offset).Items? {
      NothingBeyond(h, size, max, offset);
    }
  }

  lemma {:induction false} NothingBeyond<V>(h: seq<V>, size: nat, max: nat, offset: nat)
    requires size > 0 && max > 0 && offset > |h| && ReadOf(h, size, max, offset).Items?
    ensures ReadOf(h, size, max, offset) == Items([], |h|)
  {
    var d, c := Dropped(|h|, size, max), Chunks(|h|, size);
    PanicsExactly(h, size, max, offset);
    OffsetSegment(offset, size, c);
  }
}
