/** The indexer object: its database, the write path and the cache readers. */
module Indexer {
  import opened Common
  import opened ByteOrder
  import opened VirtualLogs
  import opened BlockModel
  import opened Keys
  import opened KeyScan
  import opened KeyOwnership
  import opened IndexFold
  import opened IndexRefinement
  import opened FiledForms
  import opened IndexRuns
  import opened IndexOrder
  import opened Numbering
  import BlockBuilder

  // ---------- what a reset's loops delete ----------

  function EthEntry(store: Store, t: Bytes): set<Bytes> {
    {t, TxHashKey(HashAt(store, t)), ReceiptKey(HashAt(store, t)), RpcTxHashKey(HashAt(store, t)),
     VirtualRpcTxKey(HashAt(store, t))}
  }

  function RpcEntryKeys(store: Store, t: Bytes): set<Bytes> {
    {ReceiptKey(HashAt(store, t)), RpcTxHashKey(HashAt(store, t)), VirtualRpcTxKey(HashAt(store, t)), t}
  }

  function Prefixed(store: Store, prefix: Bytes): set<Bytes> {
    set k | k in store && prefix <= k
  }

  function TraceEntry(store: Store, t: Bytes): set<Bytes> {
    Prefixed(store, TraceTxPrefix(HashAt(store, t)))
  }

  function Union(store: Store, keys: seq<Bytes>, entry: (Store, Bytes) -> set<Bytes>): set<Bytes> {
    if keys == [] then {} else Union(store, keys[..|keys| - 1], entry) + entry(store, keys[|keys| - 1])
  }

  lemma {:induction false} InUnion(store: Store, keys: seq<Bytes>, entry: (Store, Bytes) -> set<Bytes>, x: Bytes)
    ensures x in Union(store, keys, entry) <==> exists t :: t in keys && x in entry(store, t)
  {
    if keys != [] {
      var init, last := keys[..|keys| - 1], keys[|keys| - 1];
      InUnion(store, init, entry, x);
      assert keys == init + [last];
      if x in entry(store, last) {
        assert last in keys;
      }
    }
  }

  function MetaPart(store: Store, h: Height): set<Bytes> {
    if BlockMetaKey(h) in store && store[BlockMetaKey(h)].MetaValue? then
       {BlockHashKey(store[BlockMetaKey(h)].meta.hash)} else {}
  }

  lemma {:induction false} EthPart(store: Store, h: Height, eth: seq<Bytes>, x: Bytes)
    requires forall k :: k in eth <==> k in Window(store, TX_INDEX, h)
    ensures x in Union(store, eth, EthEntry) ==> x in ResetKeys(store, h)
    ensures x in Window(store, TX_INDEX, h) || x in FamilyOf(store, Window(store, TX_INDEX, h), TX_HASH) ==>
              x in Union(store, eth, EthEntry)
    ensures x in Union(store, eth, TraceEntry) <==>
            x in store && exists t :: t in Window(store, TX_INDEX, h) && TraceTxPrefix(HashAt(store, t)) <= x
  {
    InUnion(store, eth, EthEntry, x);
    InUnion(store, eth, TraceEntry, x);
    var window, both := Window(store, TX_INDEX, h), Window(store, TX_INDEX, h) + Window(store, RPC_TX_INDEX, h);
    if x in Union(store, eth, EthEntry) {
      var t :| t in eth && x in EthEntry(store, t);
      assert t in window && t in both;
      InFamily(store, window, t, TX_HASH);
      InFamily(store, both, t, RECEIPT);
      InFamily(store, both, t, RPC_TX_HASH);
      InFamily(store, both, t, VIRTUAL_RPC_TX);
    }
    if x in window {
      assert x in eth && x in EthEntry(store, x);
    }
    if x in FamilyOf(store, window, TX_HASH) {
      var t :| t in window && x == HashKey(TX_HASH, HashAt(store, t));
      assert t in eth && x in EthEntry(store, t);
    }
  }

  lemma {:induction false} BothPart(store: Store, h: Height, eth: seq<Bytes>, rpc: seq<Bytes>, family: byte, x: Bytes)
    requires forall k :: k in eth <==> k in Window(store, TX_INDEX, h)
    requires forall k :: k in rpc <==> k in Window(store, RPC_TX_INDEX, h)
    requires family == RECEIPT || family == RPC_TX_HASH || family == VIRTUAL_RPC_TX
    requires x in FamilyOf(store, Window(store, TX_INDEX, h) + Window(store, RPC_TX_INDEX, h), family)
    ensures x in Union(store, eth, EthEntry) || x in Union(store, rpc, RpcEntryKeys)
  {
    InUnion(store, eth, EthEntry, x);
    InUnion(store, rpc, RpcEntryKeys, x);
    var t :| t in Window(store, TX_INDEX, h) + Window(store, RPC_TX_INDEX, h) && x == HashKey(family, HashAt(store, t));
    if t in Window(store, TX_INDEX, h) {
      assert t in eth && x in EthEntry(store, t);
    } else {
      assert t in rpc && x in RpcEntryKeys(store, t);
    }
  }

  lemma {:induction false} RpcPart(store: Store, h: Height, rpc: seq<Bytes>, x: Bytes)
    requires forall k :: k in rpc <==> k in Window(store, RPC_TX_INDEX, h)
    ensures x in Union(store, rpc, RpcEntryKeys) ==> x in ResetKeys(store, h)
    ensures x in Window(store, RPC_TX_INDEX, h) ==> x in Union(store, rpc, RpcEntryKeys)
  {
    InUnion(store, rpc, RpcEntryKeys, x);
    if x in Union(store, rpc, RpcEntryKeys) {
      var t :| t in rpc && x in RpcEntryKeys(store, t);
      EntryDooms(store, h, t);
    }
    if x in Window(store, RPC_TX_INDEX, h) {
      assert x in rpc && x in RpcEntryKeys(store, x);
    }
  }

  function LoopKeys(store: Store, h: Height, eth: seq<Bytes>, rpc: seq<Bytes>): set<Bytes> {
    MetaPart(store, h) + Union(store, eth, EthEntry) + Union(store, eth, TraceEntry) +
      Prefixed(store, TraceBlockPrefix(h))
    + Union(store, rpc, RpcEntryKeys) + {BlockLogsKey(h), BlockMetaKey(h)}
  }

  lemma {:induction false} LoopKeyReset(store: Store, h: Height, eth: seq<Bytes>, rpc: seq<Bytes>, x: Bytes)
    requires forall k :: k in eth <==> k in Window(store, TX_INDEX, h)
    requires forall k :: k in rpc <==> k in Window(store, RPC_TX_INDEX, h)
    requires x in LoopKeys(store, h, eth, rpc)
    ensures x in ResetKeys(store, h)
  {
    EthPart(store, h, eth, x);
    RpcPart(store, h, rpc, x);
  }

  lemma {:induction false} ResetKeyLooped(store: Store, h: Height, eth: seq<Bytes>, rpc: seq<Bytes>, x: Bytes)
    requires forall k :: k in eth <==> k in Window(store, TX_INDEX, h)
    requires forall k :: k in rpc <==> k in Window(store, RPC_TX_INDEX, h)
    requires x in ResetKeys(store, h)
    ensures x in LoopKeys(store, h, eth, rpc)
  {
    EthPart(store, h, eth, x);
    RpcPart(store, h, rpc, x);
    var both := Window(store, TX_INDEX, h) + Window(store, RPC_TX_INDEX, h);
    if x in FamilyOf(store, both, RECEIPT) {
      BothPart(store, h, eth, rpc, RECEIPT, x);
    } else if x in FamilyOf(store, both, RPC_TX_HASH) {
      BothPart(store, h, eth, rpc, RPC_TX_HASH, x);
    } else if x in FamilyOf(store, both, VIRTUAL_RPC_TX) {
      BothPart(store, h, eth, rpc, VIRTUAL_RPC_TX, x);
    }
  }

  lemma {:induction false} LoopsResetExactly(store: Store, h: Height, eth: seq<Bytes>, rpc: seq<Bytes>)
    requires forall k :: k in eth <==> k in Window(store, TX_INDEX, h)
    requires forall k :: k in rpc <==> k in Window(store, RPC_TX_INDEX, h)
    ensures LoopKeys(store, h, eth, rpc) == ResetKeys(store, h)
  {
    forall x ensures x in LoopKeys(store, h, eth, rpc) <==> x in ResetKeys(store, h) {
      if x in ResetKeys(store, h) {
        ResetKeyLooped(store, h, eth, rpc, x);
      } else if x in LoopKeys(store, h, eth, rpc) {
        LoopKeyReset(store, h, eth, rpc, x);
      }
    }
  }

  function Deletes(keys: seq<Bytes>): seq<Op> {
    seq(|keys|, i requires 0 <= i < |keys| => Delete(keys[i]))
  }

  lemma {:induction false} KeysOfAppend(batch: seq<Op>, keys: seq<Bytes>)
    ensures KeysOf(batch + Deletes(keys)) == KeysOf(batch) + (set k | k in keys)
    ensures DeletesOnly(batch) ==> DeletesOnly(batch + Deletes(keys))
  {
    var all := batch + Deletes(keys);
    forall k ensures k in KeysOf(all) <==> k in KeysOf(batch) || k in keys {
      if k in KeysOf(all) {
        var op :| op in all && op.key == k;
        assert op in batch || op in Deletes(keys);
      }
      if k in KeysOf(batch) {
        var op :| op in batch && op.key == k;
        assert op in all;
      }
      if k in keys {
        var i :| 0 <= i < |keys| && keys[i] == k;
        assert Deletes(keys)[i] in all;
      }
    }
  }

  datatype WriteError = MetaUnreadable | Rejected(error: IndexError)

  /** What the block fetcher hands to the sync handler. */
  datatype Synced = Skipped | Data(block: Block, results: Option<BlockResults>)

  class KVIndexer {
    var db: Store

    constructor ()
      ensures db == map[]
    {
      db := map[];
    }

    method DeletePrefix(batch: seq<Op>, prefix: Bytes) returns (out: seq<Op>)
      requires DeletesOnly(batch)
      ensures DeletesOnly(out) && KeysOf(out) == KeysOf(batch) + Prefixed(db, prefix)
    {
      var end := PrefixRangeEnd(prefix);
      var keys := Scan(db, prefix, end);
      KeysOfAppend(batch, keys);
      out := batch + Deletes(keys);
    }

    method DeleteTraceKeys(batch: seq<Op>, h: Height, hashes: seq<Hash>, ghost eth: seq<Bytes>) returns (out: seq<Op>)
      requires DeletesOnly(batch) && |hashes| == |eth| && forall i :: 0 <= i < |eth| ==> hashes[i] == HashAt(db, eth[i])
      ensures DeletesOnly(out)
      ensures KeysOf(out) == KeysOf(batch) + Union(db, eth, TraceEntry) + Prefixed(db, TraceBlockPrefix(h))
    {
      out := batch;
      for i := 0 to |hashes|
        invariant DeletesOnly(out) && KeysOf(out) == KeysOf(batch) + Union(db, eth[..i], TraceEntry)
      {
        assert eth[..i + 1][..i] == eth[..i];
        out := DeletePrefix(out, TraceTxPrefix(hashes[i]));
      }
      assert eth[..|eth|] == eth;
      out := DeletePrefix(out, TraceBlockPrefix(h));
    }

    method DeleteEthEntries(batch: seq<Op>, eth: seq<Bytes>) returns (out: seq<Op>, hashes: seq<Hash>)
      requires DeletesOnly(batch)
      ensures DeletesOnly(out) && KeysOf(out) == KeysOf(batch) + Union(db, eth, EthEntry)
      ensures |hashes| == |eth| && forall i :: 0 <= i < |eth| ==> hashes[i] == HashAt(db, eth[i])
    {
      hide KeysOf, DeletesOnly, Deletes, HashAt, TxHashKey, ReceiptKey, RpcTxHashKey, VirtualRpcTxKey;
      out, hashes := batch, [];
      for i := 0 to |eth|
        invariant DeletesOnly(out) && KeysOf(out) == KeysOf(batch) + Union(db, eth[..i], EthEntry)
        invariant |hashes| == i && forall j :: 0 <= j < i ==> hashes[j] == HashAt(db, eth[j])
      {
        assert eth[..i + 1][..i] == eth[..i];
        var hash := HashAt(db, eth[i]);
        hashes := hashes + [hash];
        var keys := [eth[i], TxHashKey(hash), ReceiptKey(hash), RpcTxHashKey(hash), VirtualRpcTxKey(hash)];
        KeysOfAppend(out, keys);
        assert (set k | k in keys) == EthEntry(db, eth[i]);
        out := out + Deletes(keys);
      }
      assert eth[..|eth|] == eth;
    }

    method DeleteRpcEntries(batch: seq<Op>, rpc: seq<Bytes>) returns (out: seq<Op>)
      requires DeletesOnly(batch)
      ensures DeletesOnly(out) && KeysOf(out) == KeysOf(batch) + Union(db, rpc, RpcEntryKeys)
    {
      hide KeysOf, DeletesOnly, Deletes, HashAt, TxHashKey, ReceiptKey, RpcTxHashKey, VirtualRpcTxKey;
      out := batch;
      for i := 0 to |rpc|
        invariant DeletesOnly(out) && KeysOf(out) == KeysOf(batch) + Union(db, rpc[..i], RpcEntryKeys)
      {
        assert rpc[..i + 1][..i] == rpc[..i];
        var hash := HashAt(db, rpc[i]);
        var keys := [ReceiptKey(hash), RpcTxHashKey(hash), VirtualRpcTxKey(hash), rpc[i]];
        KeysOfAppend(out, keys);
        assert (set k | k in keys) == RpcEntryKeys(db, rpc[i]);
        out := out + Deletes(keys);
      }
      assert rpc[..|rpc|] == rpc;
    }

    /** Queues the deletion of everything indexed at a height; fails only on metadata it cannot read. */
    method ResetBlock(h: Height) returns (batch: Option<seq<Op>>)
      ensures batch.None? <==> BlockMetaKey(h) in db && !db[BlockMetaKey(h)].MetaValue?
      ensures batch.Some? ==> DeletesOnly(batch.value) && KeysOf(batch.value) == ResetKeys(db, h)
    {
      hide Union, ResetKeys, Prefixed, Deletes, HeightPrefix, BlockHashKey;
      var ops: seq<Op> := [];
      assert KeysOf(ops) == {};
      if BlockMetaKey(h) in db {
        if !db[BlockMetaKey(h)].MetaValue? {
          return None;
        }
        ops := [Delete(BlockHashKey(db[BlockMetaKey(h)].meta.hash))];
      }
      assert KeysOf(ops) == MetaPart(db, h);
      var eth := Scan(db, HeightPrefix(TX_INDEX, h), Some(HeightPrefix(TX_INDEX, NextInt64(h))));
      var hashes;
      ops, hashes := DeleteEthEntries(ops, eth);
      ops := DeleteTraceKeys(ops, h, hashes, eth);
      var rpc := Scan(db, HeightPrefix(RPC_TX_INDEX, h), Some(HeightPrefix(RPC_TX_INDEX, NextInt64(h))));
      ops := DeleteRpcEntries(ops, rpc);
      var last := [BlockLogsKey(h), BlockMetaKey(h)];
      KeysOfAppend(ops, last);
      ops := ops + Deletes(last);
      LoopsResetExactly(db, h, eth, rpc);
      batch := Some(ops);
    }

    method WriteBatch(batch: seq<Op>)
      modifies this
      ensures db == Apply(old(db), batch)
    {
      for i := 0 to |batch|
        invariant db == Apply(old(db), batch[..i])
      {
        assert batch[..i + 1][..i] == batch[..i];
        match batch[i]
        case Set(k, v) => db := db[k := v];
        case Delete(k) => db := db - {k};
      }
      assert batch[..|batch|] == batch;
    }

    /** Replaces a height by a freshly built block in one batch, or changes nothing. */
    method IndexBlock(cfg: Config, block: Block, results: Option<BlockResults>) returns (error: Option<WriteError>)
      modifies this
      ensures error == Some(MetaUnreadable) <==>
              BlockMetaKey(block.height) in old(db) && !old(db)[BlockMetaKey(block.height)].MetaValue?
      ensures error.None? ==> IndexedBlock(cfg, block, results).Ok? &&
                              db == Reindexed(old(db), block.height, IndexedBlock(cfg, block, results).value)
      ensures error.Some? && error.value.Rejected? ==> IndexedBlock(cfg, block, results) == Err(error.value.error)
      ensures error.Some? ==> db == old(db)
    {
      var reset := ResetBlock(block.height);
      if reset.None? {
        return Some(MetaUnreadable);
      }
      var builder := new BlockBuilder.Builder(cfg, block, reset.value);
      ghost var stored;
      var failure;
      failure, stored := builder.IndexAll(results);
      if failure.Some? {
        return Some(Rejected(failure.value));
      }
      ApplyAppend(db, reset.value, BlockOps(block.height, stored));
      ApplyDeletes(db, reset.value);
      WriteBatch(builder.batch);
      return None;
    }

    method DeleteBlock(h: Height) returns (ok: bool)
      modifies this
      ensures ok <==> !(BlockMetaKey(h) in old(db) && !old(db)[BlockMetaKey(h)].MetaValue?)
      ensures db == if ok then Deleted(old(db), h) else old(db)
    {
      var reset := ResetBlock(h);
      if reset.None? {
        return false;
      }
      ApplyDeletes(db, reset.value);
      WriteBatch(reset.value);
      return true;
    }

    /**
     The sync handler: a skipped height changes nothing; otherwise index, and
     clean up after a failure. On a store that locates some blocks that is
     exactly the abstract `Sync` step. An error is returned unless gaps are
     allowed, and only a stored block is published as the tip.
     */
    method HandleSyncedBlock(cfg: Config, data: Synced, allowGaps: bool, publishTip: bool, ghost blocks: Blocks)
      returns (error: Option<WriteError>, publishes: bool)
      requires Located(db, blocks)
      modifies this
      ensures db == if data.Skipped? then old(db) else StepStore(old(db), Sync(cfg, data.block, data.results))
      ensures error.Some? <==> data.Data? && IndexedBlock(cfg, data.block, data.results).Err? && !allowGaps
      ensures publishes <==> data.Data? && IndexedBlock(cfg, data.block, data.results).Ok? && publishTip
    {
      hide Located, IndexedBlock, Reindexed, Deleted, BlockMetaKey;
      if data.Skipped? {
        return None, false;
      }
      if BlockMetaKey(data.block.height) in db {
        MetaBehind(db, blocks, data.block.height);
      }
      error := IndexBlock(cfg, data.block, data.results);
      publishes := error.None? && publishTip;
      if error.Some? {
        var cleaned := DeleteBlock(data.block.height);
        assert cleaned;
        if error.value.Rejected? && allowGaps {
          error := None;
        }
      }
    }

    // ---------- readers ----------

    method IsBlockIndexed(h: Height) returns (indexed: bool)
      ensures forall blocks: Blocks :: Located(db, blocks) ==> (indexed <==> h in blocks)
    {
      hide Located, BlockMetaKey;
      indexed := BlockMetaKey(h) in db;
      forall blocks: Blocks | Located(db, blocks) ensures indexed <==> h in blocks {
        if h in blocks {
          MetaStored(db, blocks, h);
        } else {
          NoPlace(db, blocks, h);
        }
      }
    }

    method GetBlockMetaByHash(hash: Hash) returns (meta: Option<BlockMeta>)
      ensures forall blocks: Blocks :: Represents(db, blocks) && Separate(blocks) ==>
        && (meta.Some? <==> exists h :: h in blocks && blocks[h].meta.hash == hash)
        && (meta.Some? ==>
              && meta.value.height in blocks && meta.value == blocks[meta.value.height].meta
              && meta.value.hash == hash)
    {
      meta := None;
      if BlockHashKey(hash) in db && db[BlockHashKey(hash)].HeightValue? {
        var n := db[BlockHashKey(hash)].height;
        if n <= MAX_INT64 && BlockMetaKey(n) in db && db[BlockMetaKey(n)].MetaValue? {
          meta := Some(db[BlockMetaKey(n)].meta);
        }
      }
      forall blocks: Blocks | Represents(db, blocks) && Separate(blocks)
        ensures meta.Some? <==> exists h :: h in blocks && blocks[h].meta.hash == hash
        ensures meta.Some? ==>
                  && meta.value.height in blocks && meta.value == blocks[meta.value.height].meta
                  && meta.value.hash == hash
      {
        MetaByHash(db, blocks, hash);
      }
    }

    method GetReceiptByTxHash(hash: Hash) returns (receipt: Option<Receipt>)
      ensures forall blocks: Blocks :: Represents(db, blocks) && Separate(blocks) ==>
        && (receipt.Some? ==> Known(blocks, hash))
        && forall h, i :: Present(blocks, h, i) && blocks[h].items[i].tx.transaction.hash == hash ==>
             receipt == Some(blocks[h].items[i].tx.receipt)
    {
      receipt := if ReceiptKey(hash) in db && db[ReceiptKey(hash)].ReceiptValue?
                 then Some(db[ReceiptKey(hash)].receipt) else None;
      hide Represents, Separate;
      forall blocks: Blocks | Represents(db, blocks) && Separate(blocks)
        ensures FiledUnder(db, blocks, RECEIPT, hash)
      {
        FormsFiled(db, blocks, RECEIPT, hash);
      }
    }

    method GetRPCTransactionByHash(hash: Hash) returns (tx: Option<RpcTx>)
      ensures forall blocks: Blocks :: Represents(db, blocks) && Separate(blocks) ==>
        && (tx.Some? ==> Known(blocks, hash))
        && forall h, i :: Present(blocks, h, i) && blocks[h].items[i].tx.transaction.hash == hash ==>
             tx == Some(blocks[h].items[i].tx.transaction)
    {
      tx := if RpcTxHashKey(hash) in db && db[RpcTxHashKey(hash)].RpcTxValue?
            then Some(db[RpcTxHashKey(hash)].tx) else None;
      hide Represents, Separate;
      forall blocks: Blocks | Represents(db, blocks) && Separate(blocks)
        ensures FiledUnder(db, blocks, RPC_TX_HASH, hash)
      {
        FormsFiled(db, blocks, RPC_TX_HASH, hash);
      }
    }

    /** The index entry of the position, then the transaction under the hash it holds. */
    method GetRPCTransactionByBlockAndIndex(h: Height, i: int) returns (tx: Option<RpcTx>)
      requires -MAX_INT32 - 1 <= i <= MAX_INT32
      ensures forall blocks: Blocks :: Represents(db, blocks) && Separate(blocks) ==>
        tx == if Present(blocks, h, i) then Some(blocks[h].items[i].tx.transaction) else None
    {
      if RpcTxIndexKey(h, i) !in db {
        tx := None;
      } else {
        tx := GetRPCTransactionByHash(HashAt(db, RpcTxIndexKey(h, i)));
      }
      hide Represents, Separate;
      forall blocks: Blocks | Represents(db, blocks) && Separate(blocks)
        ensures RpcTxIndexKey(h, i) in db <==> Present(blocks, h, i)
        ensures Present(blocks, h, i) ==> HashAt(db, RpcTxIndexKey(h, i)) == blocks[h].items[i].tx.transaction.hash
      {
        PositionFiled(db, blocks, h, i);
      }
    }

    method IsVirtualRPCTransaction(hash: Hash) returns (marked: bool)
      ensures forall blocks: Blocks :: Represents(db, blocks) && Separate(blocks) ==>
        && (marked ==> Known(blocks, hash))
        && forall h, i :: Present(blocks, h, i) && blocks[h].items[i].tx.transaction.hash == hash ==>
             (marked <==> blocks[h].items[i].record.None?)
    {
      marked := VirtualRpcTxKey(hash) in db;
      hide Represents, Separate;
      forall blocks: Blocks | Represents(db, blocks) && Separate(blocks)
        ensures FiledUnder(db, blocks, VIRTUAL_RPC_TX, hash)
      {
        FormsFiled(db, blocks, VIRTUAL_RPC_TX, hash);
      }
    }

    method GetByTxHash(hash: Hash) returns (record: Option<EthRecord>)
      ensures forall blocks: Blocks :: Represents(db, blocks) && Separate(blocks) ==>
        && (record.Some? ==> Known(blocks, hash))
        && forall h, i :: Present(blocks, h, i) && blocks[h].items[i].tx.transaction.hash == hash ==>
             record == blocks[h].items[i].record
    {
      record := if TxHashKey(hash) in db && db[TxHashKey(hash)].RecordValue?
                then Some(db[TxHashKey(hash)].record) else None;
      hide *;
      forall blocks: Blocks | Represents(db, blocks) && Separate(blocks)
        ensures record.Some? ==> Known(blocks, hash)
        ensures forall h, i :: Present(blocks, h, i) && blocks[h].items[i].tx.transaction.hash == hash ==>
          record == blocks[h].items[i].record
      {
        RecordFiled(db, blocks, hash);
      }
    }

    /** Hashes of a height's transactions, in the order of their index keys, which is their order in the block. */
    method TransactionHashes(h: Height) returns (hashes: seq<Hash>, ghost keys: seq<Bytes>)
      ensures forall blocks: Blocks :: Located(db, blocks) ==>
        hashes == if h in blocks then HashesOf(blocks[h].items) else []
      ensures Lists(keys, Window(db, RPC_TX_INDEX, h))
      ensures |hashes| == |keys| && forall i :: 0 <= i < |keys| ==> hashes[i] == HashAt(db, keys[i])
    {
      var found := Scan(db, HeightPrefix(RPC_TX_INDEX, h), Some(HeightPrefix(RPC_TX_INDEX, NextInt64(h))));
      keys := found;
      hashes := [];
      for i := 0 to |found|
        invariant |hashes| == i && forall j :: 0 <= j < i ==> hashes[j] == HashAt(db, found[j])
      {
        hashes := hashes + [HashAt(db, found[i])];
      }
      forall blocks: Blocks | Located(db, blocks)
        ensures hashes == if h in blocks then HashesOf(blocks[h].items) else []
      {
        if h in blocks {
          HashesInOrder(db, blocks, h, keys, hashes);
        } else {
          NoPlace(db, blocks, h);
          ListsUnique(keys, [], {});
        }
      }
    }
  }

  lemma {:induction false} MetaByHash(store: Store, blocks: Blocks, hash: Hash)
    requires Represents(store, blocks) && Separate(blocks)
    ensures BlockHashKey(hash) in store <==> exists h :: h in blocks && blocks[h].meta.hash == hash
    ensures BlockHashKey(hash) in store ==>
            exists h :: && h in blocks && blocks[h].meta.hash == hash && blocks[h].meta.height == h
                        && store[BlockHashKey(hash)] == HeightValue(h)
                        && BlockMetaKey(h) in store && store[BlockMetaKey(h)] == MetaValue(blocks[h].meta)
  {
    if BlockHashKey(hash) in store {
      var h := BlockHashOwner(store, blocks, hash);
      MetaOpsIncluded(h, blocks[h]);
      assert Written(store, h, blocks[h]) && Well(h, blocks[h]);
    }
    if h :| h in blocks && blocks[h].meta.hash == hash {
      MetaOpsIncluded(h, blocks[h]);
      assert Written(store, h, blocks[h]);
    }
  }
}
