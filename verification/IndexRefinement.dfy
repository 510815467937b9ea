/** The key/value index refines a map from heights to stored blocks, over every run. */
module IndexRefinement {
  import opened Common
  import opened ByteOrder
  import opened BlockModel
  import opened Keys
  import opened KeyOwnership

  type Blocks = map<Height, StoredBlock>

  /** A key is there because some present block wrote it with this value. */
  ghost predicate ByBlock(store: Store, blocks: Blocks, k: Bytes)
    requires k in store
  {
    exists h :: h in blocks && Set(k, store[k]) in BlockOps(h, blocks[h])
  }

  ghost predicate Accounted(store: Store, blocks: Blocks, k: Bytes)
    requires k in store
  {
    if IsTraceKey(k) then |k| >= 9 else ByBlock(store, blocks, k)
  }

  /** Every write of a block is in the store, value for value. */
  ghost predicate Written(store: Store, h: Height, b: StoredBlock) {
    forall op :: op in BlockOps(h, b) ==> op.Set? && op.key in store && store[op.key] == op.value
  }

  /** The non-trace keys are exactly the writes of the blocks present. */
  ghost predicate Represents(store: Store, blocks: Blocks) {
    && (forall k :: k in store ==> Accounted(store, blocks, k))
    && (forall h :: h in blocks ==> Written(store, h, blocks[h]))
  }

  /** Well-formed blocks, no two of which share a block or transaction hash. */
  ghost predicate Separate(blocks: Blocks) {
    && (forall h :: h in blocks ==> Well(h, blocks[h]))
    && forall h, h' :: h in blocks && h' in blocks && h != h' ==> Apart(blocks[h], blocks[h'])
  }

  ghost predicate Apart(b: StoredBlock, b': StoredBlock) {
    TxHashes(b) !! TxHashes(b') && b.meta.hash != b'.meta.hash
  }

  /** Every write of a block under a height key is in the store, value for value. */
  ghost predicate InPlace(store: Store, h: Height, b: StoredBlock) {
    forall op :: op in BlockOps(h, b) && HeightKeyed(op.key) ==> op.Set? && op.key in store && store[op.key] == op.value
  }

  /**
   The keys found by height are exactly those of the blocks present. Nothing is
   asked of hashes, which may recur at other heights or within a block.
   */
  ghost predicate Located(store: Store, blocks: Blocks) {
    && (forall k :: k in store ==> |k| >= 9 && (HeightKeyed(k) ==> ByBlock(store, blocks, k)))
    && (forall h :: h in blocks ==> WellPlaced(h, blocks[h]) && InPlace(store, h, blocks[h]))
  }

  lemma {:induction false} OwnerOf(store: Store, blocks: Blocks, k: Bytes) returns (h: Height)
    requires Represents(store, blocks) && k in store && !IsTraceKey(k)
    ensures h in blocks && Set(k, store[k]) in BlockOps(h, blocks[h]) && OwnKey(h, blocks[h], k)
  {
    assert Accounted(store, blocks, k);
    h :| h in blocks && Set(k, store[k]) in BlockOps(h, blocks[h]);
    BlockOpsOwned(h, blocks[h], Set(k, store[k]));
  }

  lemma {:induction false} RepresentsLocated(store: Store, blocks: Blocks)
    requires Represents(store, blocks) && Separate(blocks)
    ensures Located(store, blocks)
  {
    hide BlockOps, OwnKey, WellPlaced, Apart, DistinctHashes, HeightKeyed, IsTraceKey;
    forall k | k in store ensures |k| >= 9 && (HeightKeyed(k) ==> ByBlock(store, blocks, k)) {
      assert Accounted(store, blocks, k);
      if HeightKeyed(k) {
        HeightKeyNotTrace(k);
      }
      if !IsTraceKey(k) {
        var h := OwnerOf(store, blocks, k);
        OwnKeyLong(h, blocks[h], k);
      }
    }
    forall h | h in blocks ensures WellPlaced(h, blocks[h]) && InPlace(store, h, blocks[h]) {
      assert Well(h, blocks[h]) && Written(store, h, blocks[h]);
    }
  }

  lemma {:induction false} OwnKeyLong(h: Height, b: StoredBlock, k: Bytes)
    requires OwnKey(h, b, k)
    ensures |k| >= 9
  {
  }

  /** A height key was written by the block at the height it carries. */
  lemma {:induction false} PlacedBy(store: Store, blocks: Blocks, k: Bytes) returns (h: Height)
    requires Located(store, blocks) && k in store && HeightKeyed(k)
    ensures |k| >= 9 && h in blocks && k[1..9] == Word(U64(h))
    ensures Set(k, store[k]) in BlockOps(h, blocks[h]) && OwnKey(h, blocks[h], k)
  {
    hide BlockOps, OwnKey, WellPlaced, InPlace, Word;
    assert ByBlock(store, blocks, k);
    h :| h in blocks && Set(k, store[k]) in BlockOps(h, blocks[h]);
    BlockOpsOwned(h, blocks[h], Set(k, store[k]));
    OwnKeyLong(h, blocks[h], k);
    OwnHeight(h, blocks[h], k);
  }

  lemma {:induction false} PlacedAt(store: Store, blocks: Blocks, h: Height, k: Bytes)
    requires Located(store, blocks) && k in store && HeightKeyed(k) && |k| >= 9 && k[1..9] == Word(U64(h))
    ensures h in blocks && Set(k, store[k]) in BlockOps(h, blocks[h]) && OwnKey(h, blocks[h], k)
  {
    hide Located, BlockOps, OwnKey, HeightKeyed, Word;
    var h' := PlacedBy(store, blocks, k);
    WordInjective(U64(h), U64(h'));
  }

  // ---------- what a reset deletes ----------

  /** Keys of one index family that the iterator yields for one height. */
  function Window(store: Store, family: byte, h: Height): set<Bytes> {
    set k | k in store && InRange(k, HeightPrefix(family, h), Some(HeightPrefix(family, NextInt64(h))))
  }

  /** The hash stored behind an index key. */
  function HashAt(store: Store, k: Bytes): Hash {
    if k in store && store[k].HashValue? then store[k].hash else ZERO_HASH
  }

  predicate TraceDoomed(store: Store, h: Height, k: Bytes) {
    TraceBlockPrefix(h) <= k || exists t :: t in Window(store, TX_INDEX, h) && TraceTxPrefix(HashAt(store, t)) <= k
  }

  function FamilyOf(store: Store, window: set<Bytes>, family: byte): set<Bytes> {
    set t | t in window :: HashKey(family, HashAt(store, t))
  }

  function ResetKeys(store: Store, h: Height): set<Bytes> {
    var eth, rpc := Window(store, TX_INDEX, h), Window(store, RPC_TX_INDEX, h);
    (if BlockMetaKey(h) in store && store[BlockMetaKey(h)].MetaValue? then
     {BlockHashKey(store[BlockMetaKey(h)].meta.hash)} else {})
    + eth + rpc + FamilyOf(store, eth, TX_HASH)
    + FamilyOf(store, eth + rpc, RECEIPT) + FamilyOf(store, eth + rpc, RPC_TX_HASH) +
      FamilyOf(store, eth + rpc, VIRTUAL_RPC_TX)
    + (set k | k in store && TraceDoomed(store, h, k))
    + {BlockLogsKey(h), BlockMetaKey(h)}
  }

  function Deleted(store: Store, h: Height): Store {
    store - ResetKeys(store, h)
  }

  function Reindexed(store: Store, h: Height, b: StoredBlock): Store {
    Apply(Deleted(store, h), BlockOps(h, b))
  }

  lemma {:induction false} PrefixParts(k: Bytes, family: byte, h: Height)
    requires |k| >= 9
    ensures HeightPrefix(family, h) <= k <==> k[0] == family && k[1..9] == Word(U64(h))
  {
    HeightKeyShape(family, h);
    if HeightPrefix(family, h) <= k {
      assert k[..9] == HeightPrefix(family, h);
      assert k[1..9] == k[..9][1..];
    }
    if k[0] == family && k[1..9] == Word(U64(h)) {
      assert k[..9] == [k[0]] + k[1..9];
    }
  }

  lemma {:induction false} WindowExact(store: Store, blocks: Blocks, family: byte, h: Height, k: Bytes)
    requires Located(store, blocks) && k in store
    ensures |k| >= 9
    ensures k in Window(store, family, h) <==> k[0] == family && k[1..9] == Word(U64(h))
  {
    hide HeightPrefix, Word, HeightKeyed, ByBlock;
    LongKeyWindow(k, family, h);
    PrefixParts(k, family, h);
  }

  /** A write under an index key is the entry of one of the block's items. */
  lemma {:induction false} IndexEntry(h: Height, b: StoredBlock, op: Op) returns (i: nat)
    requires op in BlockOps(h, b) && op.key != [] && IndexFamily(op.key[0])
    ensures i < |b.items| && op in ItemOps(h, b.items[i])
  {
    hide BlockOps, ItemsOps, MetaOps;
    BlockOpsParts(h, b);
    if op in MetaOps(h, b) {
      MetaKeyShape(h, b, op);
    }
    i := OpOrigin(h, b.items, op);
  }

  /** An index key in the window of `h` was written by the block at `h`, for one of its items. */
  lemma {:induction false} WindowItem(store: Store, blocks: Blocks, family: byte, h: Height, k: Bytes) returns (i: nat)
    requires Located(store, blocks) && IndexFamily(family) && k in Window(store, family, h)
    ensures h in blocks && i < |blocks[h].items| && Set(k, store[k]) in ItemOps(h, blocks[h].items[i])
    ensures store[k] == HashValue(blocks[h].items[i].tx.transaction.hash)
    ensures HashAt(store, k) == blocks[h].items[i].tx.transaction.hash && HashAt(store, k) in TxHashes(blocks[h])
    ensures k == if family == TX_INDEX && blocks[h].items[i].record.Some?
                 then TxIndexKey(h, blocks[h].items[i].record.value.ethTxIndex)
                 else RpcTxIndexKey(h, blocks[h].items[i].tx.receipt.index)
    ensures family == TX_INDEX ==> blocks[h].items[i].record.Some?
  {
    hide Located, BlockOps, ItemOps, OwnKey, Word, TxIndexKey, RpcTxIndexKey;
    WindowExact(store, blocks, family, h, k);
    PlacedAt(store, blocks, h, k);
    i := IndexEntry(h, blocks[h], Set(k, store[k]));
    ItemKeyShape(h, blocks[h].items[i], Set(k, store[k]));
  }

  lemma {:induction false} MetaStored(store: Store, blocks: Blocks, h: Height)
    requires Located(store, blocks) && h in blocks
    ensures BlockMetaKey(h) in store && store[BlockMetaKey(h)] == MetaValue(blocks[h].meta)
    ensures BlockLogsKey(h) in store && store[BlockLogsKey(h)] == LogsValue(blocks[h].groups)
  {
    hide BlockOps, WellPlaced, ByBlock;
    MetaOpsIncluded(h, blocks[h]);
    HeightKeyShape(BLOCK_META, h);
    HeightKeyShape(BLOCK_LOGS, h);
    assert InPlace(store, h, blocks[h]);
  }

  /** Metadata or logs stored for a height are those of the block there. */
  lemma {:induction false} MetaBehind(store: Store, blocks: Blocks, h: Height)
    requires Located(store, blocks) && (BlockMetaKey(h) in store || BlockLogsKey(h) in store)
    ensures h in blocks && BlockMetaKey(h) in store && store[BlockMetaKey(h)] == MetaValue(blocks[h].meta)
  {
    hide Located, BlockOps, OwnKey, Word, HeightPrefix;
    HeightKeyShape(BLOCK_META, h);
    HeightKeyShape(BLOCK_LOGS, h);
    var k := if BlockMetaKey(h) in store then BlockMetaKey(h) else BlockLogsKey(h);
    assert k[1..9] == k[1..];
    PlacedAt(store, blocks, h, k);
    MetaStored(store, blocks, h);
  }

  lemma {:induction false} ResetHasMeta(store: Store, h: Height, meta: BlockMeta)
    requires BlockMetaKey(h) in store && store[BlockMetaKey(h)] == MetaValue(meta)
    ensures {BlockMetaKey(h), BlockHashKey(meta.hash), BlockLogsKey(h)} <= ResetKeys(store, h)
  {
    hide Window, FamilyOf, TraceDoomed, BlockMetaKey, BlockHashKey, BlockLogsKey;
  }

  lemma {:induction false} IndexKeyInWindow(store: Store, blocks: Blocks, h: Height, i: nat, family: byte, index: nat)
    requires Located(store, blocks) && h in blocks && i < |blocks[h].items| && IndexFamily(family)
    requires Set(IndexKey(family, h, index), HashValue(blocks[h].items[i].tx.transaction.hash)) in
             ItemOps(h, blocks[h].items[i])
    ensures IndexKey(family, h, index) in Window(store, family, h)
    ensures HashAt(store, IndexKey(family, h, index)) == blocks[h].items[i].tx.transaction.hash
  {
    hide BlockOps, ItemOps, WellPlaced, ByBlock, Window, IndexKey, Word;
    var k := IndexKey(family, h, index);
    IndexKeyShape(family, h, index);
    ItemOpsIncluded(h, blocks[h], i, Set(k, HashValue(blocks[h].items[i].tx.transaction.hash)));
    assert InPlace(store, h, blocks[h]);
    WindowExact(store, blocks, family, h, k);
  }

  lemma {:induction false} RpcEntry(h: Height, item: Item)
    ensures Set(RpcTxIndexKey(h, item.tx.receipt.index), HashValue(item.tx.transaction.hash)) in ItemOps(h, item)
    ensures item.record.Some? ==>
              Set(TxIndexKey(h, item.record.value.ethTxIndex), HashValue(item.tx.transaction.hash)) in ItemOps(h, item)
  {
    if item.record.Some? {
      assert ItemOps(h, item)[4] in ItemOps(h, item) && ItemOps(h, item)[1] in ItemOps(h, item);
    } else {
      assert ItemOps(h, item)[3] in ItemOps(h, item);
    }
  }

  lemma {:induction false} InFamily(store: Store, window: set<Bytes>, t: Bytes, family: byte)
    requires t in window
    ensures HashKey(family, HashAt(store, t)) in FamilyOf(store, window, family)
  {
  }

  /** An index entry in a window dooms everything filed under its hash. */
  lemma {:induction false} EntryDooms(store: Store, h: Height, t: Bytes)
    ensures t in Window(store, TX_INDEX, h) ==>
            t in ResetKeys(store, h) && HashKey(TX_HASH, HashAt(store, t)) in ResetKeys(store, h)
    ensures t in Window(store, RPC_TX_INDEX, h) ==>
            && t in ResetKeys(store, h)
            && HashKey(RECEIPT, HashAt(store, t)) in ResetKeys(store, h)
            && HashKey(RPC_TX_HASH, HashAt(store, t)) in ResetKeys(store, h)
            && HashKey(VIRTUAL_RPC_TX, HashAt(store, t)) in ResetKeys(store, h)
  {
    var eth, rpc := Window(store, TX_INDEX, h), Window(store, RPC_TX_INDEX, h);
    if t in eth {
      InFamily(store, eth, t, TX_HASH);
    }
    if t in rpc {
      InFamily(store, eth + rpc, t, RECEIPT);
      InFamily(store, eth + rpc, t, RPC_TX_HASH);
      InFamily(store, eth + rpc, t, VIRTUAL_RPC_TX);
    }
  }

  /** A reset touches no key outside these groups. */
  lemma {:induction false} ResetCases(store: Store, h: Height, k: Bytes)
    requires k in ResetKeys(store, h)
    ensures var eth, rpc := Window(store, TX_INDEX, h), Window(store, RPC_TX_INDEX, h);
            || (BlockMetaKey(h) in store && store[BlockMetaKey(h)].MetaValue? &&
                k == BlockHashKey(store[BlockMetaKey(h)].meta.hash))
            || k in eth || k in rpc || k in FamilyOf(store, eth, TX_HASH)
            || k in FamilyOf(store, eth + rpc, RECEIPT) || k in FamilyOf(store, eth + rpc, RPC_TX_HASH)
            || k in FamilyOf(store, eth + rpc, VIRTUAL_RPC_TX)
            || (k in store && TraceDoomed(store, h, k))
            || k == BlockLogsKey(h) || k == BlockMetaKey(h)
  {
    hide Window, FamilyOf, TraceDoomed, BlockMetaKey, BlockHashKey, BlockLogsKey;
  }

  lemma {:induction false} TraceDoomedIsTrace(store: Store, h: Height, k: Bytes)
    requires TraceDoomed(store, h, k)
    ensures IsTraceKey(k)
  {
    HeightKeyShape(TRACE_BLOCK, h);
    if !(TraceBlockPrefix(h) <= k) {
      var t :| t in Window(store, TX_INDEX, h) && TraceTxPrefix(HashAt(store, t)) <= k;
      HashKeyShape(TRACE_TX, HashAt(store, t));
    }
  }

  // ---------- exactly what a reset deletes ----------

  /** The hash is that of an Ethereum transaction of the block. */
  ghost predicate EthHash(b: StoredBlock, x: Bytes) {
    exists i :: 0 <= i < |b.items| && b.items[i].record.Some? && b.items[i].tx.transaction.hash == x
  }

  /** What resetting a block drops: all its keys, and records only of its Ethereum transactions. */
  ghost predicate Drops(h: Height, b: StoredBlock, k: Bytes) {
    OwnKey(h, b, k) && (k[0] == TX_HASH ==> EthHash(b, k[1..]))
  }

  lemma {:induction false} HashFamilyKeys(store: Store, window: set<Bytes>, family: byte, k: Bytes) returns (t: Bytes)
    requires k in FamilyOf(store, window, family)
    ensures t in window && k == HashKey(family, HashAt(store, t))
    ensures |k| == 33 && k[0] == family && k[1..] == HashAt(store, t)
  {
    t :| t in window && k == HashKey(family, HashAt(store, t));
    HashKeyShape(family, HashAt(store, t));
  }

  /** Of the keys filed under hashes a reset deletes only those of the block at its height. */
  lemma {:induction false} EntryDropped(store: Store, blocks: Blocks, h: Height, family: byte, k: Bytes)
    requires Located(store, blocks) && (family == RECEIPT || family == RPC_TX_HASH || family == VIRTUAL_RPC_TX)
    requires k in FamilyOf(store, Window(store, TX_INDEX, h) + Window(store, RPC_TX_INDEX, h), family)
    ensures h in blocks && Drops(h, blocks[h], k)
  {
    hide Located, Window, FamilyOf, HashAt, ItemOps, TxHashes, TxIndexKey, RpcTxIndexKey;
    var eth, rpc := Window(store, TX_INDEX, h), Window(store, RPC_TX_INDEX, h);
    var t := HashFamilyKeys(store, eth + rpc, family, k);
    if t in eth {
      var i := WindowItem(store, blocks, TX_INDEX, h, t);
    } else {
      var i := WindowItem(store, blocks, RPC_TX_INDEX, h, t);
    }
  }

  lemma {:induction false} RecordDropped(store: Store, blocks: Blocks, h: Height, k: Bytes)
    requires Located(store, blocks) && k in FamilyOf(store, Window(store, TX_INDEX, h), TX_HASH)
    ensures h in blocks && Drops(h, blocks[h], k)
  {
    hide Located, Window, FamilyOf, HashAt, ItemOps, TxHashes, TxIndexKey, RpcTxIndexKey;
    var t := HashFamilyKeys(store, Window(store, TX_INDEX, h), TX_HASH, k);
    var i := WindowItem(store, blocks, TX_INDEX, h, t);
  }

  lemma {:induction false} BlockHashDropped(store: Store, blocks: Blocks, h: Height, k: Bytes)
    requires Located(store, blocks) && BlockMetaKey(h) in store && store[BlockMetaKey(h)].MetaValue?
    requires k == BlockHashKey(store[BlockMetaKey(h)].meta.hash)
    ensures h in blocks && Drops(h, blocks[h], k)
  {
    hide Located, BlockMetaKey;
    MetaBehind(store, blocks, h);
    HashKeyShape(BLOCK_HASH, blocks[h].meta.hash);
  }

  lemma {:induction false} HeightKeyDropped(store: Store, blocks: Blocks, h: Height, k: Bytes)
    requires Located(store, blocks) && k in store
    requires k in Window(store, TX_INDEX, h) || k in Window(store, RPC_TX_INDEX, h) || k == BlockLogsKey(h) ||
             k == BlockMetaKey(h)
    ensures h in blocks && Drops(h, blocks[h], k)
  {
    hide Located, Window, OwnKey, Word, BlockOps;
    WindowExact(store, blocks, TX_INDEX, h, k);
    WindowExact(store, blocks, RPC_TX_INDEX, h, k);
    HeightKeyShape(BLOCK_META, h);
    HeightKeyShape(BLOCK_LOGS, h);
    assert k == BlockLogsKey(h) || k == BlockMetaKey(h) ==> k[1..9] == k[1..];
    PlacedAt(store, blocks, h, k);
  }

  /** A deleted key that is present and no trace belongs to the block at the height. */
  lemma {:induction false} OnlyOwnDeleted(store: Store, blocks: Blocks, h: Height, k: Bytes)
    requires Located(store, blocks) && k in store && !IsTraceKey(k) && k in ResetKeys(store, h)
    ensures h in blocks && Drops(h, blocks[h], k)
  {
    hide Located, Window, FamilyOf, TraceDoomed, ResetKeys, Drops, BlockMetaKey, BlockLogsKey, BlockHashKey, IsTraceKey;
    ResetCases(store, h, k);
    var eth, rpc := Window(store, TX_INDEX, h), Window(store, RPC_TX_INDEX, h);
    if TraceDoomed(store, h, k) {
      TraceDoomedIsTrace(store, h, k);
    } else if k in eth || k in rpc || k == BlockLogsKey(h) || k == BlockMetaKey(h) {
      HeightKeyDropped(store, blocks, h, k);
    } else if k in FamilyOf(store, eth, TX_HASH) {
      RecordDropped(store, blocks, h, k);
    } else if k in FamilyOf(store, eth + rpc, RECEIPT) {
      EntryDropped(store, blocks, h, RECEIPT, k);
    } else if k in FamilyOf(store, eth + rpc, RPC_TX_HASH) {
      EntryDropped(store, blocks, h, RPC_TX_HASH, k);
    } else if k in FamilyOf(store, eth + rpc, VIRTUAL_RPC_TX) {
      EntryDropped(store, blocks, h, VIRTUAL_RPC_TX, k);
    } else {
      BlockHashDropped(store, blocks, h, k);
    }
  }

  lemma {:induction false} ItemDoomed(store: Store, blocks: Blocks, h: Height, i: nat)
    requires Located(store, blocks) && h in blocks && i < |blocks[h].items|
    ensures var x := blocks[h].items[i].tx.transaction.hash;
            && HashKey(RECEIPT, x) in ResetKeys(store, h) && HashKey(RPC_TX_HASH, x) in ResetKeys(store, h)
            && HashKey(VIRTUAL_RPC_TX, x) in ResetKeys(store, h)
            && (blocks[h].items[i].record.Some? ==> HashKey(TX_HASH, x) in ResetKeys(store, h))
  {
    hide Located, Window, HashAt, ItemOps, IndexKey, ResetKeys, HashKey;
    var item := blocks[h].items[i];
    RpcEntry(h, item);
    IndexKeyInWindow(store, blocks, h, i, RPC_TX_INDEX, item.tx.receipt.index);
    EntryDooms(store, h, RpcTxIndexKey(h, item.tx.receipt.index));
    if item.record.Some? {
      IndexKeyInWindow(store, blocks, h, i, TX_INDEX, item.record.value.ethTxIndex);
      EntryDooms(store, h, TxIndexKey(h, item.record.value.ethTxIndex));
    }
  }

  lemma {:induction false} FiledKeyDoomed(store: Store, blocks: Blocks, h: Height, k: Bytes)
    requires Located(store, blocks) && h in blocks && Drops(h, blocks[h], k) && HashFamily(k[0])
    ensures k in ResetKeys(store, h)
  {
    hide Located, ResetKeys;
    var x := k[1..];
    assert k == [k[0]] + x;
    var i :| 0 <= i < |blocks[h].items| && blocks[h].items[i].tx.transaction.hash == x &&
             (k[0] == TX_HASH ==> blocks[h].items[i].record.Some?);
    ItemDoomed(store, blocks, h, i);
  }

  lemma {:induction false} HeightKeyDoomed(store: Store, blocks: Blocks, h: Height, k: Bytes)
    requires Located(store, blocks) && k in store && h in blocks && OwnKey(h, blocks[h], k) && HeightKeyed(k)
    ensures k in ResetKeys(store, h)
  {
    hide Located, OwnKey, Word, ResetKeys, Window;
    OwnKeyLong(h, blocks[h], k);
    OwnHeight(h, blocks[h], k);
    if IndexFamily(k[0]) {
      WindowExact(store, blocks, k[0], h, k);
      EntryDooms(store, h, k);
    } else {
      MetaStored(store, blocks, h);
      ResetHasMeta(store, h, blocks[h].meta);
    }
  }

  /** Exactly which keys other than traces a reset deletes, whatever hashes recur. */
  lemma {:induction false} ResetExact(store: Store, blocks: Blocks, h: Height, k: Bytes)
    requires Located(store, blocks) && k in store && !IsTraceKey(k)
    ensures k in ResetKeys(store, h) <==> h in blocks && Drops(h, blocks[h], k)
  {
    hide Located, ResetKeys;
    assert k != [] ==> k == [k[0]] + k[1..];
    if k in ResetKeys(store, h) {
      OnlyOwnDeleted(store, blocks, h, k);
    } else if h in blocks && Drops(h, blocks[h], k) {
      if HashFamily(k[0]) {
        FiledKeyDoomed(store, blocks, h, k);
      } else if HeightKeyed(k) {
        HeightKeyDoomed(store, blocks, h, k);
      } else {
        MetaStored(store, blocks, h);
        ResetHasMeta(store, h, blocks[h].meta);
      }
    }
  }

  lemma {:induction false} RecordWritten(h: Height, item: Item, op: Op)
    requires op in ItemOps(h, item) && op.key[..1] == [TX_HASH]
    ensures item.record.Some?
  {
    HashKeyShape(RECEIPT, item.tx.transaction.hash);
    HashKeyShape(RPC_TX_HASH, item.tx.transaction.hash);
    HashKeyShape(VIRTUAL_RPC_TX, item.tx.transaction.hash);
    IndexKeyShape(RPC_TX_INDEX, h, item.tx.receipt.index);
  }

  /** A block drops whatever it writes. */
  lemma {:induction false} WritesDropped(h: Height, b: StoredBlock, op: Op)
    requires op in BlockOps(h, b)
    ensures op.Set? && Drops(h, b, op.key)
  {
    hide BlockOps, ItemsOps, MetaOps, ItemOps, OwnKey;
    BlockOpsOwned(h, b, op);
    OwnKeyLong(h, b, op.key);
    if op.key[0] == TX_HASH {
      BlockOpsParts(h, b);
      if op in MetaOps(h, b) {
        MetaKeyShape(h, b, op);
      }
      var i := OpOrigin(h, b.items, op);
      RecordWritten(h, b.items[i], op);
      ItemKeyShape(h, b.items[i], op);
    }
  }

  // ---------- one operation ----------

  function Without(blocks: Blocks, h: Height): Blocks {
    blocks - {h}
  }

  /** Deleting a height takes its entries off the keys found by height and no others. */
  lemma {:induction false} DeleteLocates(store: Store, blocks: Blocks, h: Height)
    requires Located(store, blocks)
    ensures Located(Deleted(store, h), Without(blocks, h))
  {
    hide BlockOps, ResetKeys, Drops, WellPlaced, HeightKeyed, OwnKey;
    var after, rest := Deleted(store, h), Without(blocks, h);
    forall k | k in after && HeightKeyed(k) ensures ByBlock(after, rest, k) {
      var h' := StillPlaced(store, blocks, h, k);
      assert h' in rest && Set(k, after[k]) in BlockOps(h', rest[h']);
    }
    forall h' | h' in rest ensures WellPlaced(h', rest[h']) && InPlace(after, h', rest[h']) {
      forall op | op in BlockOps(h', rest[h']) && HeightKeyed(op.key)
        ensures op.Set? && op.key in after && after[op.key] == op.value
      {
        assert InPlace(store, h', blocks[h']);
        OtherPlaceKept(store, blocks, h, h', op);
      }
    }
  }

  lemma {:induction false} StillPlaced(store: Store, blocks: Blocks, h: Height, k: Bytes) returns (h': Height)
    requires Located(store, blocks) && k in Deleted(store, h) && HeightKeyed(k)
    ensures h' in blocks && h' != h && Set(k, store[k]) in BlockOps(h', blocks[h'])
  {
    hide Located, BlockOps, ResetKeys, Drops, HeightKeyed, OwnKey, IsTraceKey;
    h' := PlacedBy(store, blocks, k);
    if h' == h {
      HeightKeyNotTrace(k);
      WritesDropped(h, blocks[h], Set(k, store[k]));
      ResetExact(store, blocks, h, k);
    }
  }

  lemma {:induction false} OtherPlaceKept(store: Store, blocks: Blocks, h: Height, h': Height, op: Op)
    requires Located(store, blocks) && h' in blocks && h' != h && op in BlockOps(h', blocks[h']) && HeightKeyed(op.key)
    requires op.key in store
    ensures op.key in Deleted(store, h)
  {
    hide Located, BlockOps, ResetKeys, HeightKeyed, OwnKey, IsTraceKey, Word;
    BlockOpsOwned(h', blocks[h'], op);
    OwnHeight(h', blocks[h'], op.key);
    HeightKeyNotTrace(op.key);
    if op.key in ResetKeys(store, h) {
      OnlyOwnDeleted(store, blocks, h, op.key);
      OwnHeight(h, blocks[h], op.key);
      WordInjective(U64(h), U64(h'));
    }
  }

  lemma {:induction false} SurvivorOwned(store: Store, blocks: Blocks, h: Height, k: Bytes) returns (h': Height)
    requires Represents(store, blocks) && Located(store, blocks) && k in Deleted(store, h) && !IsTraceKey(k)
    ensures h' in Without(blocks, h) && Set(k, store[k]) in BlockOps(h', blocks[h'])
  {
    hide Represents, Located, BlockOps, ResetKeys, Drops, IsTraceKey, OwnKey;
    h' := OwnerOf(store, blocks, k);
    if h' == h {
      WritesDropped(h, blocks[h], Set(k, store[k]));
      ResetExact(store, blocks, h, k);
    }
  }

  lemma {:induction false} OthersSurvive(store: Store, blocks: Blocks, h: Height, h': Height, op: Op)
    requires Located(store, blocks) && Separate(blocks) && h' in blocks && h' != h && op in BlockOps(h', blocks[h'])
    requires op.key in store
    ensures op.key in Deleted(store, h)
  {
    hide Located, BlockOps, ResetKeys, OwnKey, IsTraceKey, Well;
    BlockOpsOwned(h', blocks[h'], op);
    OwnKeyNotTrace(h', blocks[h'], op.key);
    if op.key in ResetKeys(store, h) {
      OnlyOwnDeleted(store, blocks, h, op.key);
      assert Apart(blocks[h], blocks[h']);
      OwnKeysDisjoint(h, blocks[h], h', blocks[h'], op.key);
    }
  }

  lemma {:induction false} DeleteRepresents(store: Store, blocks: Blocks, h: Height)
    requires Represents(store, blocks) && Separate(blocks)
    ensures Represents(Deleted(store, h), Without(blocks, h)) && Separate(Without(blocks, h))
  {
    hide BlockOps, ResetKeys, Located, Separate, IsTraceKey;
    RepresentsLocated(store, blocks);
    var after, rest := Deleted(store, h), Without(blocks, h);
    forall k | k in after ensures Accounted(after, rest, k) {
      assert Accounted(store, blocks, k);
      if !IsTraceKey(k) {
        var h' := SurvivorOwned(store, blocks, h, k);
        assert h' in rest && Set(k, after[k]) in BlockOps(h', rest[h']);
      }
    }
    forall h' | h' in rest ensures Written(after, h', rest[h']) {
      assert Written(store, h', blocks[h']);
      forall op | op in BlockOps(h', rest[h']) ensures op.Set? && op.key in after && after[op.key] == op.value {
        OthersSurvive(store, blocks, h, h', op);
      }
    }
    SeparateRest(blocks, h);
  }

  lemma {:induction false} SeparateRest(blocks: Blocks, h: Height)
    requires Separate(blocks)
    ensures Separate(Without(blocks, h))
  {
  }

  /**
   Deleting a height removes that block from the keys found by height, and
   where no hashes recur it removes that block and nothing else at all.
   */
  lemma {:induction false} DeleteRefines(store: Store, blocks: Blocks, h: Height)
    requires Located(store, blocks)
    ensures Located(Deleted(store, h), Without(blocks, h))
    ensures Represents(store, blocks) && Separate(blocks) ==>
              Represents(Deleted(store, h), Without(blocks, h)) && Separate(Without(blocks, h))
  {
    hide Located, Represents, Separate, Deleted, Without;
    DeleteLocates(store, blocks, h);
    if Represents(store, blocks) && Separate(blocks) {
      DeleteRepresents(store, blocks, h);
    }
  }

  lemma {:induction false} SeparateMore(blocks: Blocks, h: Height, b: StoredBlock)
    requires Separate(blocks) && h !in blocks && Well(h, b) && forall h' :: h' in blocks ==> Apart(b, blocks[h'])
    ensures Separate(blocks[h := b])
  {
    hide Well;
  }

  lemma {:induction false} NewKeyAccounted(store: Store, blocks: Blocks, h: Height, b: StoredBlock, k: Bytes)
    requires h !in blocks && k in Apply(store, BlockOps(h, b))
    ensures k in KeysOf(BlockOps(h, b)) ==> OwnKey(h, b, k) && ByBlock(Apply(store, BlockOps(h, b)), blocks[h := b], k)
    ensures k !in KeysOf(BlockOps(h, b)) ==>
              && k in store
              && (ByBlock(store, blocks, k) ==> ByBlock(Apply(store, BlockOps(h, b)), blocks[h := b], k))
  {
    hide BlockOps, Apply, KeysOf, OwnKey;
    var ops, after, all := BlockOps(h, b), Apply(store, BlockOps(h, b)), blocks[h := b];
    BlockOpsSet(h, b);
    ApplySets(store, ops, k);
    if k in KeysOf(ops) {
      BlockOpsOwned(h, b, Set(k, after[k]));
      assert h in all && Set(k, after[k]) in BlockOps(h, all[h]);
    } else if ByBlock(store, blocks, k) {
      var h' :| h' in blocks && Set(k, store[k]) in BlockOps(h', blocks[h']);
      assert h' in all && Set(k, after[k]) in BlockOps(h', all[h']);
    }
  }

  lemma {:induction false} NewWritten(store: Store, h: Height, b: StoredBlock, op: Op)
    requires WellPlaced(h, b) && op in BlockOps(h, b) && (HeightKeyed(op.key) || DistinctHashes(b.items))
    ensures var after := Apply(store, BlockOps(h, b)); op.Set? && op.key in after && after[op.key] == op.value
  {
    hide BlockOps, Apply, WellPlaced, DistinctHashes, HeightKeyed, OwnKey;
    var ops, after := BlockOps(h, b), Apply(store, BlockOps(h, b));
    BlockOpsSet(h, b);
    BlockOpsOwned(h, b, op);
    assert op.key in KeysOf(ops);
    ApplySets(store, ops, op.key);
    OpsAgree(h, b, op, Set(op.key, after[op.key]));
  }

  lemma {:induction false} OldWritten(store: Store, h: Height, b: StoredBlock, h': Height, b': StoredBlock, op: Op)
    requires h' != h && (HeightKeyed(op.key) || Apart(b, b')) && op in BlockOps(h', b') && op.key in store
    ensures op.key in Apply(store, BlockOps(h, b)) && Apply(store, BlockOps(h, b))[op.key] == store[op.key]
  {
    hide BlockOps, Apply, OwnKey, HeightKeyed, Word, LastWrite;
    var ops := BlockOps(h, b);
    BlockOpsSet(h, b);
    ApplySets(store, ops, op.key);
    BlockOpsOwned(h', b', op);
    if op.key in KeysOf(ops) {
      BlockOpsOwned(h, b, Set(op.key, Apply(store, ops)[op.key]));
      if HeightKeyed(op.key) {
        OwnHeight(h, b, op.key);
        OwnHeight(h', b', op.key);
        WordInjective(U64(h), U64(h'));
      } else {
        OwnKeysDisjoint(h, b, h', b', op.key);
      }
    }
  }

  lemma {:induction false} WriteLocates(store: Store, blocks: Blocks, h: Height, b: StoredBlock)
    requires Located(store, blocks) && h !in blocks && WellPlaced(h, b)
    ensures Located(Apply(store, BlockOps(h, b)), blocks[h := b])
  {
    hide BlockOps, Apply, KeysOf, WellPlaced, HeightKeyed, ByBlock, OwnKey;
    var after, all := Apply(store, BlockOps(h, b)), blocks[h := b];
    forall k | k in after ensures |k| >= 9 && (HeightKeyed(k) ==> ByBlock(after, all, k)) {
      NewKeyAccounted(store, blocks, h, b, k);
      if k in KeysOf(BlockOps(h, b)) {
        OwnKeyLong(h, b, k);
      }
    }
    forall h' | h' in all ensures WellPlaced(h', all[h']) && InPlace(after, h', all[h']) {
      forall op | op in BlockOps(h', all[h']) && HeightKeyed(op.key)
        ensures op.Set? && op.key in after && after[op.key] == op.value
      {
        if h' == h {
          NewWritten(store, h, b, op);
        } else {
          assert InPlace(store, h', blocks[h']);
          OldWritten(store, h, b, h', blocks[h'], op);
        }
      }
    }
  }

  lemma {:induction false} WriteRepresents(store: Store, blocks: Blocks, h: Height, b: StoredBlock)
    requires Represents(store, blocks) && Separate(blocks) && h !in blocks && Well(h, b)
    requires forall h' :: h' in blocks ==> Apart(b, blocks[h'])
    ensures Represents(Apply(store, BlockOps(h, b)), blocks[h := b]) && Separate(blocks[h := b])
  {
    hide BlockOps, Apply, KeysOf, WellPlaced, DistinctHashes, ByBlock, OwnKey, Apart, IsTraceKey, Separate;
    var after, all := Apply(store, BlockOps(h, b)), blocks[h := b];
    forall k | k in after ensures Accounted(after, all, k) {
      NewKeyAccounted(store, blocks, h, b, k);
      if k in KeysOf(BlockOps(h, b)) {
        OwnKeyNotTrace(h, b, k);
      } else {
        assert Accounted(store, blocks, k);
      }
    }
    forall h' | h' in all ensures Written(after, h', all[h']) {
      forall op | op in BlockOps(h', all[h']) ensures op.Set? && op.key in after && after[op.key] == op.value {
        if h' == h {
          NewWritten(store, h, b, op);
        } else {
          assert Written(store, h', blocks[h']);
          OldWritten(store, h, b, h', blocks[h'], op);
        }
      }
    }
    SeparateMore(blocks, h, b);
  }

  ghost predicate Fresh(blocks: Blocks, h: Height, b: StoredBlock) {
    Well(h, b) && forall h' :: h' in blocks && h' != h ==> Apart(b, blocks[h'])
  }

  /**
   Writing a block over a store without its height adds it to the keys found by
   height; if its hashes are new it adds exactly that block.
   */
  lemma {:induction false} WriteRefines(store: Store, blocks: Blocks, h: Height, b: StoredBlock)
    requires Located(store, blocks) && h !in blocks && WellPlaced(h, b)
    ensures Located(Apply(store, BlockOps(h, b)), blocks[h := b])
    ensures Represents(store, blocks) && Separate(blocks) && Fresh(blocks, h, b) ==>
              Represents(Apply(store, BlockOps(h, b)), blocks[h := b]) && Separate(blocks[h := b])
  {
    hide Located, Represents, Separate, BlockOps, Apply, WellPlaced, Well, Apart;
    WriteLocates(store, blocks, h, b);
    if Represents(store, blocks) && Separate(blocks) && Fresh(blocks, h, b) {
      WriteRepresents(store, blocks, h, b);
    }
  }

  lemma {:induction false} FreshWithout(blocks: Blocks, h: Height, b: StoredBlock)
    requires Fresh(blocks, h, b)
    ensures Fresh(Without(blocks, h), h, b)
  {
    hide Well, Apart;
  }

  /** Indexing replaces the block at its height, in the same two senses. */
  lemma {:induction false} ReindexRefines(store: Store, blocks: Blocks, h: Height, b: StoredBlock)
    requires Located(store, blocks) && WellPlaced(h, b)
    ensures Located(Reindexed(store, h, b), blocks[h := b])
    ensures Represents(store, blocks) && Separate(blocks) && Fresh(blocks, h, b) ==>
              Represents(Reindexed(store, h, b), blocks[h := b]) && Separate(blocks[h := b])
  {
    hide Located, Represents, Separate, Fresh, BlockOps, Apply, Deleted, WellPlaced;
    DeleteRefines(store, blocks, h);
    assert Without(blocks, h)[h := b] == blocks[h := b];
    WriteRefines(Deleted(store, h), Without(blocks, h), h, b);
    if Fresh(blocks, h, b) {
      FreshWithout(blocks, h, b);
    }
  }
}
