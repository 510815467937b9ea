/**
 Log queries answered from the index: over any store that locates blocks
 the blooms cover the logs and the filtered logs are their matches, so a range
 query gives exactly the matching stored logs.
 */
module CachedQuery {
  import opened Common
  import opened ByteOrder
  import opened VirtualLogs
  import opened BlockModel
  import opened Keys
  import opened IndexFold
  import opened Numbering
  import opened IndexRefinement
  import opened IndexRuns
  import opened LogFilter
  import opened LogQuery
  import opened SyncPlan

  // ---------- filtering what is stored ----------

  function EncodeLogs(logs: seq<RpcLog>): seq<Record> {
    if logs == [] then [] else EncodeLogs(logs[..|logs| - 1]) + [Encode(logs[|logs| - 1])]
  }

  function EncodeGroups(groups: seq<seq<RpcLog>>): seq<Option<seq<Record>>> {
    if groups == [] then [] else EncodeGroups(groups[..|groups| - 1]) + [Some(EncodeLogs(groups[|groups| - 1]))]
  }

  lemma {:induction false} EncodeAppend(a: seq<RpcLog>, b: seq<RpcLog>)
    ensures EncodeLogs(a + b) == EncodeLogs(a) + EncodeLogs(b)
  {
    hide Encode;
    if b == [] {
      assert a + b == a;
    } else {
      var n := |b| - 1;
      EncodeAppend(a, b[..n]);
      assert (a + b)[..|a| + n] == a + b[..n];
    }
  }

  lemma {:induction false} GroupsFlatten(groups: seq<seq<RpcLog>>)
    ensures FlattenPresent(EncodeGroups(groups)) == EncodeLogs(Flatten(groups))
  {
    hide EncodeLogs;
    if groups == [] {
      NoLogs();
    } else {
      var n := |groups| - 1;
      GroupsFlatten(groups[..n]);
      EncodeAppend(Flatten(groups[..n]), groups[n]);
      var init := EncodeGroups(groups[..n]);
      assert (init + [Some(EncodeLogs(groups[n]))])[..|init|] == init;
    }
  }

  lemma {:induction false} NoLogs()
    ensures EncodeLogs([]) == []
  {
  }

  lemma {:induction false} DecodeEncoded(logs: seq<RpcLog>)
    ensures DecodeAll(EncodeLogs(logs)) == logs
  {
    hide Encode, Decode;
    if logs != [] {
      var n := |logs| - 1;
      DecodeEncoded(logs[..n]);
      LogRoundTrip(logs[n]);
      var init := EncodeLogs(logs[..n]);
      assert (init + [Encode(logs[n])])[..|init|] == init;
    }
  }

  lemma {:induction false} EncodedNotOverlooked(logs: seq<RpcLog>, c: Criteria)
    ensures OverlookedCount(EncodeLogs(logs), c) == 0
  {
    hide Encode, Overlooked;
    if logs != [] {
      var n := |logs| - 1;
      EncodedNotOverlooked(logs[..n], c);
      OverlookedSnoc(EncodeLogs(logs[..n]), Encode(logs[n]), c);
      SlotOverlooked(Some(logs[n]), c);
    }
  }

  /** Filtering a stored block while decoding it gives exactly the matching logs that were stored, in order. */
  lemma {:induction false} StoredBlockFilter(groups: seq<seq<RpcLog>>, c: Criteria)
    ensures Fused(RecordsOf(Some(EncodeGroups(groups))), c) == Matching(Flatten(groups), c)
  {
    hide EncodeLogs, EncodeGroups, Fused, Matching, DecodeAll, FlattenPresent;
    var logs := Flatten(groups);
    GroupsFlatten(groups);
    DecodeEncoded(logs);
    EncodedNotOverlooked(logs, c);
    FusedIsBruteForce(EncodeLogs(logs), c);
  }

  // ---------- the index as a backend ----------

  /** How stored bloom bytes are read, and the bits of one address or topic. */
  datatype Blooms = Blooms(read: Bytes -> Bloom, bits: Bytes -> Bloom)

  predicate IsHeight(h: int) {
    0 <= h <= MAX_INT64
  }

  /** Whether virtual transactions are shown, and whether the node may be asked for live data. */
  datatype Mode = Mode(virtualization: bool, offline: bool)

  /** What live block results give for a height: a bloom, and logs grouped by transaction. */
  datatype Live = Live(bloomAt: int -> Result<Bloom, ()>, logsAt: int -> Result<seq<seq<RpcLog>>, ()>)

  function MetaAt(store: Store, h: int): Option<BlockMeta> {
    if IsHeight(h) && BlockMetaKey(h) in store && store[BlockMetaKey(h)].MetaValue?
    then Some(store[BlockMetaKey(h)].meta)
    else None
  }

  function LogsStoredAt(store: Store, h: int): Option<seq<seq<RpcLog>>> {
    if IsHeight(h) && BlockLogsKey(h) in store && store[BlockLogsKey(h)].LogsValue?
    then Some(store[BlockLogsKey(h)].groups)
    else None
  }

  /** The bloom of a height: cached if the block was indexed in the mode asked for, live otherwise. */
  function BloomFor(store: Store, blooms: Blooms, mode: Mode, live: Live, h: int): Result<Bloom, ()> {
    var meta := MetaAt(store, h);
    if meta.Some? && meta.value.virtualized == mode.virtualization then Ok(blooms.read(meta.value.bloom))
    else live.bloomAt(h)
  }

  function LiveLogs(live: Live, c: Criteria, h: int): Result<seq<RpcLog>, ()> {
    match live.logsAt(h)
    case Ok(groups) => Ok(Matching(Flatten(groups), c))
    case Err(_) => Err(())
  }

  /** The filtered logs of a height, likewise; offline, a block indexed in the other mode is an error. */
  function LogsFor(store: Store, mode: Mode, live: Live, c: Criteria, h: int): Result<seq<RpcLog>, ()> {
    var meta, groups := MetaAt(store, h), LogsStoredAt(store, h);
    if meta.Some? && meta.value.virtualized != mode.virtualization && mode.offline then Err(())
    else if meta.Some? && meta.value.virtualized == mode.virtualization && groups.Some? then
      Ok(Fused(RecordsOf(Some(EncodeGroups(groups.value))), c))
    else LiveLogs(live, c, h)
  }

  function CacheFirst(
      store: Store, blooms: Blooms, mode: Mode, live: Live, c: Criteria, head: Result<Option<int>, ()>): Backend
  {
    Backend(head, h => BloomFor(store, blooms, mode, live, h), h => LogsFor(store, mode, live, c, h))
  }

  /** A block that the cache can answer for: present, and indexed in the mode asked for. */
  predicate Usable(blocks: Blocks, mode: Mode, h: int) {
    HasBlock(blocks, h) && blocks[h].meta.virtualized == mode.virtualization
  }

  /** The chain's logs are those of usable blocks and, elsewhere, what live data gives, with covering blooms. */
  ghost predicate Describes(chain: int -> seq<RpcLog>, blocks: Blocks, mode: Mode, live: Live, bits: Bytes -> Bloom) {
    forall h :: DescribesAt(chain, blocks, mode, live, bits, h)
  }

  ghost predicate DescribesAt(
      chain: int -> seq<RpcLog>, blocks: Blocks, mode: Mode, live: Live, bits: Bytes -> Bloom, h: int)
  {
    && (Usable(blocks, mode, h) ==> chain(h) == Flatten(blocks[h].groups))
    && (live.bloomAt(h).Ok? ==> BloomOf(bits, chain(h)) <= live.bloomAt(h).value)
    && (live.logsAt(h).Ok? ==> Flatten(live.logsAt(h).value) == chain(h))
  }

  /** A height that can be answered: from the cache, or from live data that is there and may be used. */
  predicate Answered(blocks: Blocks, mode: Mode, live: Live, bits: Bytes -> Bloom, c: Criteria, h: int) {
    || Usable(blocks, mode, h)
    || (&& live.bloomAt(h).Ok?
        && (Admits(bits, live.bloomAt(h).value, c) ==> live.logsAt(h).Ok? && !(HasBlock(blocks, h) && mode.offline)))
  }

  /** Reading back a bloom made of logs gives the bits of their addresses and topics. */
  ghost predicate BloomsMatch(blooms: Blooms, bloomOf: seq<RpcLog> -> Bytes) {
    forall logs :: blooms.read(bloomOf(logs)) == BloomOf(blooms.bits, logs)
  }

  /** Every block's stored bloom was made of all its logs. */
  ghost predicate BloomsStored(blocks: Blocks, bloomOf: seq<RpcLog> -> Bytes) {
    forall h :: h in blocks ==> blocks[h].meta.bloom == bloomOf(Flatten(blocks[h].groups))
  }

  /**
   Whatever a run does, if all its blocks are indexed with one bloom function
   their stored blooms are made of all their logs.
   */
  lemma {:induction false} RunKeepsBlooms(run: seq<Action>, bloomOf: seq<RpcLog> -> Bytes)
    requires forall a :: a in run && (a.Index? || a.Sync?) ==> a.cfg.bloomOf == bloomOf
    ensures BloomsStored(RunBlocks(map[], run), bloomOf)
  {
    hide IndexedBlock;
    if run != [] {
      var init, a := run[..|run| - 1], run[|run| - 1];
      assert run == init + [a];
      RunKeepsBlooms(init, bloomOf);
      if (a.Index? || a.Sync?) && IndexedBlock(a.cfg, a.block, a.results).Ok? {
        StoredBlockWellNumbered(a.cfg, a.block, a.results);
      }
    }
  }

  lemma {:induction false} StoredAt(store: Store, blocks: Blocks, h: int)
    requires Located(store, blocks)
    ensures MetaAt(store, h) == if HasBlock(blocks, h) then Some(blocks[h].meta) else None
    ensures LogsStoredAt(store, h) == if HasBlock(blocks, h) then Some(blocks[h].groups) else None
  {
    hide Located, BlockMetaKey, BlockLogsKey;
    if HasBlock(blocks, h) {
      MetaStored(store, blocks, h);
    } else if IsHeight(h) {
      NoPlace(store, blocks, h);
    }
  }

  /**
   At every height the cache answers for usable blocks, with covering blooms and
   the matching logs, and live data for others.
   */
  lemma {:induction false} CacheAnswers(
      store: Store, blocks: Blocks, blooms: Blooms, bloomOf: seq<RpcLog> -> Bytes, mode: Mode, live: Live,
      c: Criteria, h: int)
    requires Located(store, blocks) && BloomsStored(blocks, bloomOf) && BloomsMatch(blooms, bloomOf)
    ensures BloomFor(store, blooms, mode, live, h) ==
            if HasBlock(blocks, h) && blocks[h].meta.virtualized == mode.virtualization
            then Ok(BloomOf(blooms.bits, Flatten(blocks[h].groups)))
            else live.bloomAt(h)
    ensures LogsFor(store, mode, live, c, h) ==
            if HasBlock(blocks, h) && blocks[h].meta.virtualized == mode.virtualization
            then Ok(Matching(Flatten(blocks[h].groups), c))
            else if (HasBlock(blocks, h) && mode.offline) || live.logsAt(h).Err? then Err(())
            else Ok(Matching(Flatten(live.logsAt(h).value), c))
  {
    hide Located, MetaAt, LogsStoredAt, Fused, EncodeGroups, Matching, BloomOf;
    StoredAt(store, blocks, h);
    if HasBlock(blocks, h) {
      StoredBlockFilter(blocks[h].groups, c);
    }
  }

  /** The cache with live data behind it meets what the range query asks of a backend. */
  lemma {:induction false} IndexIsHonest(
      store: Store, blocks: Blocks, blooms: Blooms, bloomOf: seq<RpcLog> -> Bytes, mode: Mode, live: Live, c: Criteria,
      head: Result<Option<int>, ()>, chain: int -> seq<RpcLog>)
    requires Located(store, blocks) && BloomsStored(blocks, bloomOf) && BloomsMatch(blooms, bloomOf)
    requires Describes(chain, blocks, mode, live, blooms.bits)
    ensures Honest(CacheFirst(store, blooms, mode, live, c, head), blooms.bits, chain, c)
    ensures forall h :: Served(CacheFirst(store, blooms, mode, live, c, head), blooms.bits, c, h) <==>
                        Answered(blocks, mode, live, blooms.bits, c, h)
  {
    hide Located, BloomsStored, BloomsMatch, BloomFor, LogsFor, BloomOf, Matching, HasBlock, Admits;
    var backend := CacheFirst(store, blooms, mode, live, c, head);
    forall h ensures HonestAt(backend, blooms.bits, chain, c, h)
             ensures Served(backend, blooms.bits, c, h) <==> Answered(blocks, mode, live, blooms.bits, c, h)
    {
      assert DescribesAt(chain, blocks, mode, live, blooms.bits, h);
      CacheAnswers(store, blocks, blooms, bloomOf, mode, live, c, h);
      if Usable(blocks, mode, h) {
        assert backend.bloomAt(h).Ok? && backend.logsAt(h).Ok?;
      }
    }
  }

  /**
   A range query over the index with live data behind it. With a head, bounds
   that resolve to a range of acceptable width, and every height of it indexed
   in the mode asked for or answered live, the answer is exactly the chain's
   matching logs in block order unless they exceed the limit; a height that
   cannot be answered makes it an error.
   */
  method CachedRangeLogs(
      store: Store, blooms: Blooms, mode: Mode, live: Live, c: Criteria, head: Result<Option<int>, ()>,
      fromBlock: int, toBlock: int, logLimit: int, blockLimit: int,
      ghost blocks: Blocks, ghost bloomOf: seq<RpcLog> -> Bytes, ghost chain: int -> seq<RpcLog>)
    returns (r: Result<seq<RpcLog>, QueryError>)
    requires Located(store, blocks) && BloomsStored(blocks, bloomOf) && BloomsMatch(blooms, bloomOf)
    requires Describes(chain, blocks, mode, live, blooms.bits)
    ensures head.Ok? && head.value.Some? ==>
              var top := head.value.value;
              var from := if fromBlock < 0 then top else if fromBlock == 0 then 1 else fromBlock;
              var to := if toBlock < 0 then top else if toBlock == 0 then 1 else toBlock;
              var last := if to > top + 600 then top + 600 else to;
              to - from <= blockLimit && from <= top && logLimit >= 0 ==>
                var found := Matches(chain, c, from, last + 1);
                if (forall h :: from <= h <= last ==> Answered(blocks, mode, live, blooms.bits, c, h)) &&
                   |found| <= logLimit
                then r == Ok(found) else r.Err?
  {
    hide Located, BloomsStored, BloomsMatch, Describes, Honest, Served, Admitted, Matches, BloomFor, LogsFor, Answered;
    var backend := CacheFirst(store, blooms, mode, live, c, head);
    IndexIsHonest(store, blocks, blooms, bloomOf, mode, live, c, head, chain);
    forall lo: int, hi: int |
      forall h :: lo <= h < hi ==> Served(backend, blooms.bits, c, h) && !Admitted(backend, blooms.bits, c, h)
      ensures Matches(chain, c, lo, hi) == []
    {
      NothingAdmitted(backend, blooms.bits, c, chain, lo, hi);
    }
    r := RangeLogs(backend, blooms.bits, c, fromBlock, toBlock, logLimit, blockLimit, chain);
  }
}
