/**
 Carrying out a sync plan: each gap is fetched in ascending order into the
 store, and a gap is abandoned at the first block that cannot be indexed
 unless gaps are allowed.
 */
module GapSync {
  import opened ByteOrder
  import opened BlockModel
  import opened Keys
  import opened KeyOwnership
  import opened IndexFold
  import opened IndexRefinement
  import opened IndexRuns
  import opened Indexer
  import opened Ranges
  import opened SyncPlan

  /** The node behind the fetcher: what it delivers for each height, and whether gaps are allowed. */
  datatype Source = Source(cfg: Config, fetch: Height -> Synced, allowGaps: bool)

  predicate Served(src: Source, h: Height) {
    src.fetch(h).Data? && IndexedBlock(src.cfg, src.fetch(h).block, src.fetch(h).results).Ok?
  }

  function BlockAt(src: Source, h: Height): StoredBlock
    requires Served(src, h)
  {
    IndexedBlock(src.cfg, src.fetch(h).block, src.fetch(h).results).value
  }

  /** A block at which the sync of a gap stops. */
  predicate Stops(src: Source, h: Height) {
    src.fetch(h).Data? && IndexedBlock(src.cfg, src.fetch(h).block, src.fetch(h).results).Err? && !src.allowGaps
  }

  /** The node answers with the block asked for, and no block has more transactions than 32 bits count. */
  ghost predicate Answers(src: Source) {
    && (forall h: Height :: src.fetch(h).Data? ==> src.fetch(h).block.height == h)
    && (forall h: Height :: Served(src, h) ==> |BlockAt(src, h).items| <= MAX_INT32)
  }

  /** One chain: no two blocks share a block or transaction hash. */
  ghost predicate OneChain(src: Source, blocks: Blocks) {
    && (forall h: Height :: Served(src, h) ==> DistinctHashes(BlockAt(src, h).items))
    && (forall h: Height, h': Height :: Served(src, h) && Served(src, h') && h != h' ==>
        Apart(BlockAt(src, h), BlockAt(src, h')))
    && (forall h: Height, h' :: Served(src, h) && h' in blocks && h != h' ==> Apart(BlockAt(src, h), blocks[h']))
  }

  /** What syncing keeps of the store; `exact` if hashes are also known not to recur. */
  ghost predicate Holds(store: Store, blocks: Blocks, exact: bool) {
    Located(store, blocks) && Attributed(store, blocks) && (exact ==> Represents(store, blocks) && Separate(blocks))
  }

  ghost predicate Reached(src: Source, gap: BlockRange, x: Height) {
    Ranges.Within(gap, x) && forall h: Height :: gap.start <= h < x ==> !Stops(src, h)
  }

  /** The heights that syncing the gaps fills. */
  ghost predicate Filled(src: Source, gaps: seq<BlockRange>, x: Height) {
    Served(src, x) && exists i :: 0 <= i < |gaps| && Reached(src, gaps[i], x)
  }

  /** Every block of `after` is one of `blocks` or the one served at its height. */
  ghost predicate FromChain(src: Source, blocks: Blocks, after: Blocks) {
    forall x: Height :: x in after ==>
      if x in blocks then after[x] == blocks[x] else Served(src, x) && after[x] == BlockAt(src, x)
  }

  /** `after` is `blocks` and the served blocks from `lo` up to but excluding `hi`. */
  ghost predicate GrownTo(src: Source, blocks: Blocks, after: Blocks, lo: int, hi: int) {
    && FromChain(src, blocks, after)
    && forall x: Height :: x in after <==> x in blocks || (lo <= x < hi && Served(src, x))
  }

  /** `after` is `blocks` and the served blocks of a gap as far as it is reached. */
  ghost predicate GrownGap(src: Source, blocks: Blocks, after: Blocks, gap: BlockRange) {
    && FromChain(src, blocks, after)
    && forall x: Height :: x in after <==> x in blocks || (Reached(src, gap, x) && Served(src, x))
  }

  /** `after` is `blocks` and the blocks at the heights that the gaps fill. */
  ghost predicate Grown(src: Source, blocks: Blocks, after: Blocks, gaps: seq<BlockRange>) {
    && FromChain(src, blocks, after)
    && forall x: Height :: x in after <==> x in blocks || Filled(src, gaps, x)
  }

  /** One more block of the chain brings new hashes. */
  lemma {:induction false} NextIsNew(src: Source, blocks: Blocks, current: Blocks, h: Height)
    requires Answers(src) && OneChain(src, blocks) && FromChain(src, blocks, current) && src.fetch(h).Data?
    ensures BringsNewHashes(current, Sync(src.cfg, src.fetch(h).block, src.fetch(h).results))
  {
    hide IndexedBlock, DistinctHashes, Apart;
    if Served(src, h) {
      var b := BlockAt(src, h);
      forall h' | h' in current && h' != h ensures Apart(b, current[h']) {
        assert h' in blocks || Served(src, h');
      }
    }
  }

  lemma {:induction false} NextIsSized(src: Source, h: Height)
    requires Answers(src) && src.fetch(h).Data?
    ensures Sized(Sync(src.cfg, src.fetch(h).block, src.fetch(h).results))
  {
    hide IndexedBlock;
    if Served(src, h) {
      assert |BlockAt(src, h).items| <= MAX_INT32;
    }
  }

  /** The blocks after one height of a gap has been handled. */
  function Handled(src: Source, current: Blocks, h: Height): Blocks {
    if src.fetch(h).Skipped? then current
    else StepBlocks(current, Sync(src.cfg, src.fetch(h).block, src.fetch(h).results))
  }

  lemma {:induction false} GrowsBy(src: Source, blocks: Blocks, current: Blocks, lo: int, h: Height)
    requires Answers(src) && h !in blocks && lo <= h && GrownTo(src, blocks, current, lo, h)
    ensures GrownTo(src, blocks, Handled(src, current, h), lo, h + 1)
  {
    hide IndexedBlock, DistinctHashes, Apart;
    assert h !in current;
  }

  /** The store after one height of a gap has been handled. */
  function HandledStore(src: Source, store: Store, h: Height): Store {
    if src.fetch(h).Skipped? then store else StepStore(store, Sync(src.cfg, src.fetch(h).block, src.fetch(h).results))
  }

  lemma {:induction false} HandledHolds(
      src: Source, store: Store, blocks: Blocks, current: Blocks, h: Height, exact: bool)
    requires Holds(store, current, exact) && Answers(src) && FromChain(src, blocks, current) &&
             (exact ==> OneChain(src, blocks))
    ensures Holds(HandledStore(src, store, h), Handled(src, current, h), exact)
  {
    hide Located, Attributed, Represents, Separate, Answers, OneChain, FromChain, BringsNewHashes, Sized, StepStore,
         StepBlocks;
    if src.fetch(h).Data? {
      NextIsSized(src, h);
      if exact {
        NextIsNew(src, blocks, current, h);
      }
      StepRefines(store, current, Sync(src.cfg, src.fetch(h).block, src.fetch(h).results));
    }
  }

  lemma {:induction false} GapDone(src: Source, blocks: Blocks, after: Blocks, gap: BlockRange)
    requires GrownTo(src, blocks, after, gap.start, gap.end + 1)
    requires forall x: Height :: gap.start <= x <= gap.end ==> !Stops(src, x)
    ensures GrownGap(src, blocks, after, gap)
    ensures forall x: Height :: Reached(src, gap, x) ==> !Stops(src, x)
  {
    hide Served, Stops, FromChain;
    forall x: Height ensures Reached(src, gap, x) <==> gap.start <= x < gap.end + 1 {
    }
  }

  lemma {:induction false} GapStopped(src: Source, blocks: Blocks, after: Blocks, gap: BlockRange, h: Height)
    requires GrownTo(src, blocks, after, gap.start, h + 1) && Ranges.Within(gap, h) && Stops(src, h)
    requires forall x: Height :: gap.start <= x < h ==> !Stops(src, x)
    ensures GrownGap(src, blocks, after, gap)
    ensures Reached(src, gap, h) && Stops(src, h)
  {
    hide Served, Stops, FromChain;
    forall x: Height ensures Reached(src, gap, x) <==> gap.start <= x < h + 1 {
    }
  }

  /** One gap, height by height. */
  method SyncGap(kv: KVIndexer, src: Source, gap: BlockRange, ghost blocks: Blocks, ghost exact: bool)
    returns (stopped: bool, ghost after: Blocks)
    requires Holds(kv.db, blocks, exact) && Answers(src) && (exact ==> OneChain(src, blocks))
    requires 0 <= gap.start <= gap.end <= MAX_INT64 && forall x: Height :: Ranges.Within(gap, x) ==> x !in blocks
    modifies kv
    ensures Holds(kv.db, after, exact)
    ensures GrownGap(src, blocks, after, gap)
    ensures stopped <==> exists x: Height :: Reached(src, gap, x) && Stops(src, x)
  {
    hide Located, Attributed, Represents, Separate, Answers, OneChain, FromChain, Handled, GrownGap, Reached,
         IndexedBlock, Served, StepStore;
    after := blocks;
    NothingGrown(src, blocks, gap.start);
    var h := gap.start;
    while h <= gap.end
      invariant gap.start <= h <= gap.end + 1
      invariant Holds(kv.db, after, exact)
      invariant GrownTo(src, blocks, after, gap.start, h)
      invariant forall x: Height :: gap.start <= x < h ==> !Stops(src, x)
    {
      GrowsBy(src, blocks, after, gap.start, h);
      HandledHolds(src, kv.db, blocks, after, h, exact);
      var error, _ := kv.HandleSyncedBlock(src.cfg, src.fetch(h), src.allowGaps, false, after);
      after := Handled(src, after, h);
      if error.Some? {
        GapStopped(src, blocks, after, gap, h);
        return true, after;
      }
      h := h + 1;
    }
    GapDone(src, blocks, after, gap);
    stopped := false;
  }

  lemma {:induction false} NothingGrown(src: Source, blocks: Blocks, lo: int)
    ensures GrownTo(src, blocks, blocks, lo, lo)
    ensures Grown(src, blocks, blocks, [])
  {
  }

  lemma {:induction false} FilledMore(src: Source, gaps: seq<BlockRange>, gap: BlockRange, x: Height)
    ensures Filled(src, gaps + [gap], x) <==> Filled(src, gaps, x) || (Served(src, x) && Reached(src, gap, x))
  {
    hide Served, Reached;
    var all := gaps + [gap];
    if i :| 0 <= i < |gaps| && Reached(src, gaps[i], x) {
      assert Reached(src, all[i], x);
    }
    if Reached(src, gap, x) {
      assert Reached(src, all[|gaps|], x);
    }
  }

  /** The gaps one after the other; an abandoned gap does not keep the next from being synced. */
  method SyncGaps(kv: KVIndexer, src: Source, gaps: seq<BlockRange>, ghost blocks: Blocks, ghost exact: bool)
    returns (ghost after: Blocks)
    requires Holds(kv.db, blocks, exact) && Answers(src) && (exact ==> OneChain(src, blocks)) && Pieces(gaps)
    requires forall i :: 0 <= i < |gaps| ==> 0 <= gaps[i].start && gaps[i].end <= MAX_INT64
    requires forall x: Height :: InAny(gaps, x) ==> x !in blocks
    modifies kv
    ensures Holds(kv.db, after, exact)
    ensures Grown(src, blocks, after, gaps)
  {
    hide Holds, Served, Answers, OneChain, Reached, BlockAt;
    after := blocks;
    NothingGrown(src, blocks, 0);
    for i := 0 to |gaps|
      invariant Holds(kv.db, after, exact) && (exact ==> OneChain(src, after))
      invariant Grown(src, blocks, after, gaps[..i])
    {
      ghost var before := after;
      GapStillOpen(src, gaps, i, blocks, before);
      var _, next := SyncGap(kv, src, gaps[i], before, exact);
      after := next;
      assert gaps[..i + 1] == gaps[..i] + [gaps[i]];
      GrownMore(src, blocks, before, after, gaps[..i], gaps[i]);
      if exact {
        ChainGrows(src, before, after);
      }
    }
    assert gaps[..|gaps|] == gaps;
  }

  lemma {:induction false} GapStillOpen(src: Source, gaps: seq<BlockRange>, i: nat, blocks: Blocks, current: Blocks)
    requires i < |gaps| && Pieces(gaps) && (forall x: Height :: InAny(gaps, x) ==> x !in blocks)
    requires Grown(src, blocks, current, gaps[..i])
    ensures forall x: Height :: Ranges.Within(gaps[i], x) ==> x !in current
  {
    hide Served, BlockAt;
    forall x: Height | Ranges.Within(gaps[i], x) ensures x !in current {
      assert InAny(gaps, x);
      forall j | 0 <= j < i ensures !Reached(src, gaps[..i][j], x) {
        assert gaps[j].end + 1 < gaps[i].start;
      }
    }
  }

  lemma {:induction false} GrownMore(
      src: Source, blocks: Blocks, before: Blocks, after: Blocks, gaps: seq<BlockRange>, gap: BlockRange)
    requires Grown(src, blocks, before, gaps)
    requires GrownGap(src, before, after, gap)
    ensures Grown(src, blocks, after, gaps + [gap])
  {
    hide Served, BlockAt, Reached, Filled;
    forall x: Height
      ensures Filled(src, gaps + [gap], x) <==> Filled(src, gaps, x) || (Served(src, x) && Reached(src, gap, x))
    {
      FilledMore(src, gaps, gap, x);
    }
  }

  lemma {:induction false} ChainGrows(src: Source, blocks: Blocks, after: Blocks)
    requires OneChain(src, blocks) && FromChain(src, blocks, after)
    ensures OneChain(src, after)
  {
    hide IndexedBlock, DistinctHashes, Apart, Served, BlockAt;
    forall h: Height, h' | Served(src, h) && h' in after && h != h' ensures Apart(BlockAt(src, h), after[h']) {
    }
  }

  /** Every missing height is filled if and only if the node serves an acceptable block for each of them. */
  lemma {:induction false} CompleteExactly(
      src: Source, blocks: Blocks, after: Blocks, plan: Plan, earliest: int, head: int)
    requires 0 <= earliest <= head <= MAX_INT64 && PlanFor(blocks, earliest, head, plan)
    requires Grown(src, blocks, after, plan.gaps)
    ensures (forall x: Height :: earliest <= x <= head ==> x in after) <==>
            forall x: Height :: earliest <= x <= head && x !in blocks ==> Served(src, x)
  {
    hide Served, BlockAt;
    if forall x: Height :: earliest <= x <= head && x !in blocks ==> Served(src, x) {
      forall x: Height | earliest <= x <= head && x !in blocks ensures x in after {
        assert InAny(plan.gaps, x);
        var i :| 0 <= i < |plan.gaps| && Ranges.Within(plan.gaps[i], x);
        forall h: Height | plan.gaps[i].start <= h < x ensures !Stops(src, h) {
          assert Ranges.Within(plan.gaps[i], h) && InAny(plan.gaps, h);
          ServedGoesOn(src, h);
        }
        assert Reached(src, plan.gaps[i], x);
        assert Filled(src, plan.gaps, x);
      }
    }
  }

  lemma {:induction false} ServedGoesOn(src: Source, h: Height)
    requires Served(src, h)
    ensures !Stops(src, h)
  {
  }

  /**
   Planning and syncing the gaps. Below the earliest height nothing happens.
   Otherwise the store ends up with what it had and the served blocks of the
   gaps up to where each was abandoned, nothing else changes, and no height
   from `earliest` to `head` is missing exactly when every one missing before
   is served by a block that can be indexed.
   */
  method InitialSync(kv: KVIndexer, src: Source, earliest: int, head: int, ghost blocks: Blocks, ghost exact: bool)
    returns (plan: Plan, ghost after: Blocks)
    requires Holds(kv.db, blocks, exact) && Answers(src) && (exact ==> OneChain(src, blocks))
    requires 0 <= earliest && head <= MAX_INT64
    modifies kv
    ensures PlanFor(blocks, earliest, head, plan)
    ensures head < earliest ==> kv.db == old(kv.db) && after == blocks
    ensures Holds(kv.db, after, exact)
    ensures earliest <= head ==>
              && Grown(src, blocks, after, plan.gaps)
              && ((forall x: Height :: earliest <= x <= head ==> x in after) <==>
                  forall x: Height :: earliest <= x <= head && x !in blocks ==> Served(src, x))
  {
    hide Located, Served, Answers, OneChain, Filled, BlockAt, Grown;
    after := blocks;
    plan := PlanSync(kv.db, earliest, head);
    if head < earliest {
      return;
    }
    WithinPlan(blocks, earliest, head, plan);
    after := SyncGaps(kv, src, plan.gaps, blocks, exact);
    CompleteExactly(src, blocks, after, plan, earliest, head);
  }

  lemma {:induction false} WithinPlan(blocks: Blocks, earliest: int, head: int, plan: Plan)
    requires 0 <= earliest <= head <= MAX_INT64 && PlanFor(blocks, earliest, head, plan)
    ensures forall i :: 0 <= i < |plan.gaps| ==> 0 <= plan.gaps[i].start && plan.gaps[i].end <= MAX_INT64
    ensures forall x: Height :: InAny(plan.gaps, x) ==> x !in blocks
  {
    forall i | 0 <= i < |plan.gaps| ensures 0 <= plan.gaps[i].start && plan.gaps[i].end <= MAX_INT64 {
      assert Ranges.Within(plan.gaps[i], plan.gaps[i].start) && Ranges.Within(plan.gaps[i], plan.gaps[i].end);
      assert InAny(plan.gaps, plan.gaps[i].start) && InAny(plan.gaps, plan.gaps[i].end);
    }
  }

  /** Planning again after a complete sync finds no gap. */
  lemma {:induction false} NothingLeft(after: Blocks, earliest: int, head: int, again: Plan)
    requires 0 <= earliest <= head <= MAX_INT64 && PlanFor(after, earliest, head, again)
    requires forall x: Height :: earliest <= x <= head ==> x in after
    ensures again == Queues([], head + 1)
  {
    if again.gaps != [] {
      assert Ranges.Within(again.gaps[0], again.gaps[0].start);
      assert InAny(again.gaps, again.gaps[0].start);
    }
  }
}
