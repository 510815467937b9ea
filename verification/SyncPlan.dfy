/** Reading the indexed heights back from the store, and planning what to sync. */
module SyncPlan {
  import opened Common
  import opened ByteOrder
  import opened BlockModel
  import opened Keys
  import opened KeyScan
  import opened KeyOwnership
  import opened IndexRefinement
  import opened Ranges

  /** Go's conversion of an unsigned word to a signed one. */
  function Int64Of(n: u64): int {
    if n <= MAX_INT64 then n else n - TWO64
  }

  /** The height in a key: nine bytes for block metadata, seventeen for a transaction index. */
  function KeyHeight(key: Bytes, family: byte): Option<int> {
    if family == BLOCK_META then
      if |key| == 9 && key[0] == BLOCK_META then Some(HeightIn(key)) else None
    else if |key| == 17 then Some(HeightIn(key)) else None
  }

  function HeightIn(key: Bytes): int
    requires |key| >= 9
  {
    ValueBound(key[1..9]);
    Pow256Of8();
    Int64Of(ByteOrder.Value(key[1..9]))
  }

  predicate Readable(keys: seq<Bytes>, family: byte) {
    forall i :: 0 <= i < |keys| ==> KeyHeight(keys[i], family).Some?
  }

  /** Heights in key order: never negative, never falling. */
  ghost predicate Climbing(keys: seq<Bytes>, family: byte) {
    && Readable(keys, family)
    && (forall i :: 0 <= i < |keys| ==> KeyHeight(keys[i], family).value >= 0)
    && forall i, j :: 0 <= i < j < |keys| ==> KeyHeight(keys[i], family).value <= KeyHeight(keys[j], family).value
  }

  ghost predicate HeightOfSome(keys: seq<Bytes>, family: byte, x: int) {
    exists i :: 0 <= i < |keys| && KeyHeight(keys[i], family) == Some(x)
  }

  lemma {:induction false} SomeSnoc(keys: seq<Bytes>, k: Bytes, family: byte, x: int)
    ensures HeightOfSome(keys + [k], family, x) <==> HeightOfSome(keys, family, x) || KeyHeight(k, family) == Some(x)
  {
    var all := keys + [k];
    if i :| 0 <= i < |keys| && KeyHeight(keys[i], family) == Some(x) {
      assert all[i] == keys[i];
    }
    if KeyHeight(k, family) == Some(x) {
      assert all[|keys|] == k;
    }
  }

  /** The loop state: closed ranges, and the open one unless nothing has been read yet. */
  function Collected(ranges: seq<BlockRange>, current: BlockRange, last: int): seq<BlockRange> {
    if last == -1 then ranges else ranges + [current]
  }

  ghost predicate Exact(keys: seq<Bytes>, family: byte, ranges: seq<BlockRange>) {
    Pieces(ranges) && forall x :: InAny(ranges, x) <==> HeightOfSome(keys, family, x)
  }

  lemma {:induction false} ExtendOpen(
      keys: seq<Bytes>, k: Bytes, family: byte, ranges: seq<BlockRange>, current: BlockRange)
    requires Exact(keys, family, ranges + [current]) && KeyHeight(k, family) == Some(current.end + 1)
    ensures Exact(keys + [k], family, ranges + [BlockRange(current.start, current.end + 1)])
  {
    var grown := BlockRange(current.start, current.end + 1);
    var was, now := ranges + [current], ranges + [grown];
    assert was[|ranges|] == current;
    forall x ensures InAny(now, x) <==> HeightOfSome(keys + [k], family, x) {
      InAnySnoc(ranges, current, x);
      InAnySnoc(ranges, grown, x);
      SomeSnoc(keys, k, family, x);
    }
    forall i, j | 0 <= i < j < |now| ensures now[i].end + 1 < now[j].start {
      assert was[i].end + 1 < was[j].start;
    }
    forall i | 0 <= i < |now| ensures now[i].start <= now[i].end {
      assert was[i].start <= was[i].end;
    }
  }

  lemma {:induction false} OpenNext(keys: seq<Bytes>, k: Bytes, family: byte, ranges: seq<BlockRange>, h: int)
    requires Exact(keys, family, ranges) && KeyHeight(k, family) == Some(h)
    requires forall i :: 0 <= i < |ranges| ==> ranges[i].end + 1 < h
    ensures Exact(keys + [k], family, ranges + [BlockRange(h, h)])
  {
    forall x ensures InAny(ranges + [BlockRange(h, h)], x) <==> HeightOfSome(keys + [k], family, x) {
      InAnySnoc(ranges, BlockRange(h, h), x);
      SomeSnoc(keys, k, family, x);
    }
  }

  lemma {:induction false} SeenAgain(keys: seq<Bytes>, k: Bytes, family: byte, ranges: seq<BlockRange>, h: int)
    requires Exact(keys, family, ranges) && KeyHeight(k, family) == Some(h) && InAny(ranges, h)
    ensures Exact(keys + [k], family, ranges)
  {
    forall x ensures InAny(ranges, x) <==> HeightOfSome(keys + [k], family, x) {
      SomeSnoc(keys, k, family, x);
    }
  }

  lemma {:induction false} NothingRead(family: byte)
    ensures Exact([], family, [])
  {
    forall x ensures InAny([], x) <==> HeightOfSome([], family, x) {
    }
  }

  /** Groups the heights of scanned keys into ranges; an unreadable key is an error. */
  method CollectRanges(keys: seq<Bytes>, family: byte) returns (r: Option<seq<BlockRange>>)
    ensures r.None? <==> !Readable(keys, family)
    ensures r.Some? ==> AllValid(r.value)
    ensures Climbing(keys, family) ==> Exact(keys, family, r.value)
    ensures r.Some? && r.value == [] && Climbing(keys, family) ==> keys == []
  {
    hide KeyHeight, Exact;
    var ranges: seq<BlockRange> := [];
    var last := -1;
    var current := BlockRange(0, 0);
    NothingRead(family);
    for i := 0 to |keys|
      invariant Readable(keys[..i], family)
      invariant AllValid(ranges) && current.start <= current.end && (last == -1 || last == current.end)
      invariant Climbing(keys, family) ==>
        && (last == -1 <==> i == 0) && (i == 0 ==> ranges == [])
        && Exact(keys[..i], family, Collected(ranges, current, last))
        && (i > 0 ==> last == current.end && KeyHeight(keys[i - 1], family) == Some(last))
        && forall j :: 0 <= j < |ranges| ==> ranges[j].end + 1 < current.start
    {
      assert keys[..i + 1] == keys[..i] + [keys[i]];
      var parsed := KeyHeight(keys[i], family);
      if parsed.None? {
        return None;
      }
      var height := parsed.value;
      ghost var ok := Climbing(keys, family);
      ghost var before := Collected(ranges, current, last);
      if height == last {
        if ok {
          assert before[|ranges|] == current;
          assert Within(before[|ranges|], height) by {
            assert before[|ranges|].start <= before[|ranges|].end;
          }
          SeenAgain(keys[..i], keys[i], family, before, height);
        }
        continue;
      }
      if last == -1 {
        if ok {
          OpenNext(keys[..i], keys[i], family, ranges, height);
        }
        current := BlockRange(height, height);
        last := height;
        continue;
      }
      if ok {
        assert KeyHeight(keys[i - 1], family).value <= KeyHeight(keys[i], family).value;
      }
      if height == last + 1 {
        if ok {
          ExtendOpen(keys[..i], keys[i], family, ranges, current);
        }
        current := BlockRange(current.start, height);
        last := height;
        continue;
      }
      if ok {
        OpenNext(keys[..i], keys[i], family, before, height);
      }
      ranges := ranges + [current];
      current := BlockRange(height, height);
      last := height;
    }
    assert keys[..|keys|] == keys;
    r := Some(if last == -1 then ranges else ranges + [current]);
  }

  lemma {:induction false} FamilyRange(k: Bytes, family: byte)
    requires family < 255
    ensures InRange(k, [family], Some([family + 1])) <==> k != [] && k[0] == family
  {
    RangeEndAt([family], 0);
    assert [family][..0] + [family + 1] == [family + 1];
    PrefixRangeExact(k, [family]);
    assert [family] <= k <==> k != [] && k[0] == family;
  }

  /** Indexed heights, from block metadata or, in databases that have none, from transaction indexes. */
  method LoadIndexedRanges(store: Store) returns (r: Option<seq<BlockRange>>)
    ensures r.Some? ==> AllValid(r.value)
    ensures forall blocks: Blocks :: Located(store, blocks) ==>
      && r.Some? && Pieces(r.value)
      && forall x :: InAny(r.value, x) <==> 0 <= x <= MAX_INT64 && x in blocks
  {
    var metas := Scan(store, [BLOCK_META], Some([BLOCK_META + 1]));
    r := CollectRanges(metas, BLOCK_META);
    if r.Some? && r.value == [] {
      var legacy := Scan(store, [TX_INDEX], Some([TX_INDEX + 1]));
      r := CollectRanges(legacy, TX_INDEX);
      forall blocks: Blocks | Located(store, blocks)
        ensures r.Some? && Pieces(r.value)
        ensures forall x :: InAny(r.value, x) <==> 0 <= x <= MAX_INT64 && x in blocks
      {
        MetaKeysExact(store, blocks, metas);
        assert metas == [];
        NoMetaNoBlocks(store, blocks, metas, legacy);
      }
    } else {
      forall blocks: Blocks | Located(store, blocks)
        ensures r.Some? && Pieces(r.value)
        ensures forall x :: InAny(r.value, x) <==> 0 <= x <= MAX_INT64 && x in blocks
      {
        MetaKeysExact(store, blocks, metas);
      }
    }
  }

  lemma {:induction false} MetaKeyHeight(h: Height)
    ensures KeyHeight(BlockMetaKey(h), BLOCK_META) == Some(h)
  {
    HeightKeyShape(BLOCK_META, h);
    assert BlockMetaKey(h)[1..9] == Word(U64(h));
    Pow256Of8();
    ValueOfBigEndian(U64(h), 8);
  }

  lemma {:induction false} MetaKeyOf(store: Store, blocks: Blocks, k: Bytes) returns (h: Height)
    requires Located(store, blocks) && k in store && k != [] && k[0] == BLOCK_META
    ensures h in blocks && k == BlockMetaKey(h) && KeyHeight(k, BLOCK_META) == Some(h)
  {
    hide Located, BlockOps, KeyHeight, OwnKey;
    h := PlacedBy(store, blocks, k);
    OwnHeight(h, blocks[h], k);
    MetaKeyHeight(h);
  }

  /** The metadata keys of a store that locates blocks climb through exactly their heights. */
  lemma {:induction false} MetaKeysExact(store: Store, blocks: Blocks, keys: seq<Bytes>)
    requires Located(store, blocks)
    requires Lists(keys, set k | k in store && InRange(k, [BLOCK_META], Some([BLOCK_META + 1])))
    ensures Climbing(keys, BLOCK_META)
    ensures forall x :: HeightOfSome(keys, BLOCK_META, x) <==> 0 <= x <= MAX_INT64 && x in blocks
  {
    hide KeyHeight, Located;
    forall i | 0 <= i < |keys|
      ensures keys[i] in store && keys[i] != [] && keys[i][0] == BLOCK_META
    {
      assert keys[i] in keys;
      FamilyRange(keys[i], BLOCK_META);
    }
    forall i | 0 <= i < |keys|
      ensures KeyHeight(keys[i], BLOCK_META).Some? && KeyHeight(keys[i], BLOCK_META).value >= 0
    {
      var h := MetaKeyOf(store, blocks, keys[i]);
    }
    forall i, j | 0 <= i < j < |keys|
      ensures KeyHeight(keys[i], BLOCK_META).value <= KeyHeight(keys[j], BLOCK_META).value
    {
      var h := MetaKeyOf(store, blocks, keys[i]);
      var h' := MetaKeyOf(store, blocks, keys[j]);
      LessSamePrefix([BLOCK_META], Word(U64(h)), Word(U64(h')));
      WordOrder(U64(h), U64(h'));
    }
    forall x ensures HeightOfSome(keys, BLOCK_META, x) <==> 0 <= x <= MAX_INT64 && x in blocks {
      if i :| 0 <= i < |keys| && KeyHeight(keys[i], BLOCK_META) == Some(x) {
        var h := MetaKeyOf(store, blocks, keys[i]);
      }
      if 0 <= x <= MAX_INT64 && x in blocks {
        MetaStored(store, blocks, x);
        MetaKeyHeight(x);
        HeightKeyShape(BLOCK_META, x);
        FamilyRange(BlockMetaKey(x), BLOCK_META);
        assert BlockMetaKey(x) in keys;
      }
    }
  }

  lemma {:induction false} MetaListed(store: Store, blocks: Blocks, metas: seq<Bytes>, h: Height)
    requires Located(store, blocks) && h in blocks
    requires Lists(metas, set k | k in store && InRange(k, [BLOCK_META], Some([BLOCK_META + 1])))
    ensures BlockMetaKey(h) in metas
  {
    MetaStored(store, blocks, h);
    HeightKeyShape(BLOCK_META, h);
    FamilyRange(BlockMetaKey(h), BLOCK_META);
  }

  lemma {:induction false} LegacyOwned(store: Store, blocks: Blocks, legacy: seq<Bytes>)
    requires Located(store, blocks) && legacy != []
    requires Lists(legacy, set k | k in store && InRange(k, [TX_INDEX], Some([TX_INDEX + 1])))
    ensures blocks != map[]
  {
    assert legacy[0] in legacy;
    FamilyRange(legacy[0], TX_INDEX);
    var h := PlacedBy(store, blocks, legacy[0]);
  }

  lemma {:induction false} NoMetaNoBlocks(store: Store, blocks: Blocks, metas: seq<Bytes>, legacy: seq<Bytes>)
    requires Located(store, blocks) && metas == []
    requires Lists(metas, set k | k in store && InRange(k, [BLOCK_META], Some([BLOCK_META + 1])))
    requires Lists(legacy, set k | k in store && InRange(k, [TX_INDEX], Some([TX_INDEX + 1])))
    ensures blocks == map[] && legacy == []
  {
    if h :| h in blocks {
      MetaListed(store, blocks, metas, h);
    }
    if legacy != [] {
      LegacyOwned(store, blocks, legacy);
    }
  }

  // ---------- who syncs what ----------

  /** What a run of the service sets out to do: nothing, or a queue of gaps and one of everything from `tipStart` on. */
  datatype Plan = Unreadable | Idle | Queues(gaps: seq<BlockRange>, tipStart: int)

  predicate HasBlock(blocks: Blocks, x: int) {
    0 <= x <= MAX_INT64 && x in blocks
  }

  /** The right plan for the blocks present. */
  ghost predicate PlanFor(blocks: Blocks, earliest: int, head: int, plan: Plan) {
    if head < earliest then plan == Idle
    else
      && plan.Queues? && plan.tipStart == head + 1 && Pieces(plan.gaps)
      && forall x :: InAny(plan.gaps, x) <==> earliest <= x <= head && !HasBlock(blocks, x)
  }

  /** A height is indexed or some queue will sync it. */
  ghost predicate Planned(blocks: Blocks, plan: Plan, x: int) {
    HasBlock(blocks, x) || InQueue(plan, x)
  }

  ghost predicate InQueue(plan: Plan, x: int) {
    plan.Queues? && (InAny(plan.gaps, x) || x >= plan.tipStart)
  }

  /**
   Plans from the store. Whatever blocks it locates: from `earliest` on a height
   is indexed or queued exactly when the head has reached `earliest` or the
   height is indexed anyway, since below that no queue is started; no height is
   in both queues; and an indexed height is queued again exactly when it lies
   above the head the node reports.
   */
  method PlanSync(store: Store, earliest: int, head: int) returns (plan: Plan)
    ensures plan == Idle <==> head < earliest
    ensures forall blocks: Blocks :: Located(store, blocks) ==> PlanFor(blocks, earliest, head, plan)
    ensures forall blocks: Blocks, x ::
      Located(store, blocks) && earliest <= x ==>
        (Planned(blocks, plan, x) <==> earliest <= head || HasBlock(blocks, x))
    ensures forall blocks: Blocks, x ::
      Located(store, blocks) && plan.Queues? && InAny(plan.gaps, x) ==> x < plan.tipStart
    ensures forall blocks: Blocks, x ::
      Located(store, blocks) && HasBlock(blocks, x) ==> (InQueue(plan, x) <==> earliest <= head < x)
  {
    hide Located;
    if head < earliest {
      return Idle;
    }
    var loaded := LoadIndexedRanges(store);
    if loaded.None? {
      return Unreadable;
    }
    var ranges := new BlockRange[|loaded.value|](i requires 0 <= i < |loaded.value| => loaded.value[i]);
    assert ranges[..] == loaded.value;
    var gaps := ComputeGaps(earliest, head, ranges);
    plan := Queues(gaps, head + 1);
  }
}
