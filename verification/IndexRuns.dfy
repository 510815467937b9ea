/** Re-indexing, failed attempts and whole runs over the index. */
module IndexRuns {
  import opened Common
  import opened BlockModel
  import opened Keys
  import opened IndexFold
  import opened Numbering
  import opened KeyOwnership
  import opened IndexRefinement
  import opened FiledForms

  // ---------- traces ----------

  /** A cached trace of one of the block's Ethereum transactions. */
  ghost predicate EthTraceKey(b: StoredBlock, k: Bytes) {
    exists i :: 0 <= i < |b.items| && b.items[i].record.Some? && TraceTxPrefix(b.items[i].tx.transaction.hash) <= k
  }

  /** A reset drops the traces of its height and of the Ethereum transactions recorded there. */
  lemma {:induction false} TraceDoomedExact(store: Store, blocks: Blocks, h: Height, k: Bytes)
    requires Located(store, blocks)
    ensures TraceDoomed(store, h, k) <==> TraceBlockPrefix(h) <= k || (h in blocks && EthTraceKey(blocks[h], k))
  {
    hide Located, Window, HashAt, ItemOps, IndexKey, TxHashes, TraceTxPrefix, TraceBlockPrefix;
    if exists t :: t in Window(store, TX_INDEX, h) && TraceTxPrefix(HashAt(store, t)) <= k {
      var t :| t in Window(store, TX_INDEX, h) && TraceTxPrefix(HashAt(store, t)) <= k;
      var i := WindowItem(store, blocks, TX_INDEX, h, t);
    }
    if h in blocks && EthTraceKey(blocks[h], k) {
      var items := blocks[h].items;
      var i :| 0 <= i < |items| && items[i].record.Some? && TraceTxPrefix(items[i].tx.transaction.hash) <= k;
      RpcEntry(h, items[i]);
      IndexKeyInWindow(store, blocks, h, i, TX_INDEX, items[i].record.value.ethTxIndex);
    }
  }

  lemma {:induction false} TraceKeyReset(store: Store, h: Height, k: Bytes)
    requires IsTraceKey(k) && k in store
    ensures k in ResetKeys(store, h) <==>
              k in Window(store, TX_INDEX, h) || k in Window(store, RPC_TX_INDEX, h) || TraceDoomed(store, h, k)
  {
    if k in ResetKeys(store, h) {
      ResetCases(store, h, k);
      HeightKeyShape(BLOCK_META, h);
      HeightKeyShape(BLOCK_LOGS, h);
    }
  }

  /** What deleting a height drops: its traces and the block there. */
  ghost predicate Dropped(blocks: Blocks, h: Height, k: Bytes) {
    if IsTraceKey(k) then TraceBlockPrefix(h) <= k || (h in blocks && EthTraceKey(blocks[h], k))
    else h in blocks && Drops(h, blocks[h], k)
  }

  /** Exactly which present keys a reset deletes. */
  lemma {:induction false} DeletedExact(store: Store, blocks: Blocks, h: Height, k: Bytes)
    requires Located(store, blocks) && k in store
    ensures k !in Deleted(store, h) <==> Dropped(blocks, h, k)
  {
    hide Located, Window, TraceDoomed, ResetKeys, Drops, EthTraceKey, TraceBlockPrefix;
    if IsTraceKey(k) {
      TraceKeyReset(store, h, k);
      TraceDoomedExact(store, blocks, h, k);
      WindowExact(store, blocks, TX_INDEX, h, k);
      WindowExact(store, blocks, RPC_TX_INDEX, h, k);
    } else {
      ResetExact(store, blocks, h, k);
    }
  }

  /** Key by key, what deleting a height leaves behind. */
  lemma {:induction false} DeletedLookup(store: Store, blocks: Blocks, h: Height, k: Bytes)
    requires Located(store, blocks)
    ensures Lookup(Deleted(store, h), k) == if Dropped(blocks, h, k) then None else Lookup(store, k)
  {
    hide Located, ResetKeys, Dropped;
    if k in store {
      DeletedExact(store, blocks, h, k);
    }
  }

  /**
   Exactly what indexing a block leaves behind: its own last write to every key
   it writes; and every other key except the block previously at the height,
   the traces of the height and those of the Ethereum transactions recorded
   there.
   */
  lemma {:induction false} ReindexExact(store: Store, blocks: Blocks, h: Height, b: StoredBlock, k: Bytes)
    requires Located(store, blocks)
    ensures Lookup(Reindexed(store, h, b), k) ==
            if k in KeysOf(BlockOps(h, b)) then LastWrite(BlockOps(h, b), k)
            else if Dropped(blocks, h, k) then None else Lookup(store, k)
    ensures k in KeysOf(BlockOps(h, b)) ==>
              k in Reindexed(store, h, b) && Set(k, Reindexed(store, h, b)[k]) in BlockOps(h, b)
  {
    hide Located, Deleted, Dropped, BlockOps, Apply, KeysOf, LastWrite;
    BlockOpsSet(h, b);
    ApplySets(Deleted(store, h), BlockOps(h, b), k);
    DeletedLookup(store, blocks, h, k);
  }

  // ---------- re-indexing ----------

  lemma {:induction false} DeleteTwice(store: Store, blocks: Blocks, h: Height)
    requires Located(store, blocks)
    ensures Deleted(Deleted(store, h), h) == Deleted(store, h)
  {
    hide Located, ResetKeys, Drops, EthTraceKey, TraceBlockPrefix;
    var once, rest := Deleted(store, h), Without(blocks, h);
    DeleteLocates(store, blocks, h);
    forall k | k in once ensures k in Deleted(once, h) {
      DeletedExact(store, blocks, h, k);
      DeletedExact(once, rest, h, k);
    }
  }

  /** Indexing over any reachable store is the same as deleting the height first. */
  lemma {:induction false} ReindexIsDeleteThenIndex(store: Store, blocks: Blocks, h: Height, b: StoredBlock)
    requires Located(store, blocks)
    ensures Reindexed(store, h, b) == Reindexed(Deleted(store, h), h, b)
  {
    DeleteTwice(store, blocks, h);
  }

  lemma {:induction false} OpsNotTrace(h: Height, b: StoredBlock, k: Bytes)
    requires k in KeysOf(BlockOps(h, b))
    ensures !IsTraceKey(k)
  {
    var op :| op in BlockOps(h, b) && op.key == k;
    BlockOpsOwned(h, b, op);
  }

  /** A transaction that the block has as an Ethereum transaction only. */
  ghost predicate OnlyEthereum(b: StoredBlock, x: Bytes) {
    && x in TxHashes(b)
    && forall i :: 0 <= i < |b.items| && b.items[i].tx.transaction.hash == x ==> b.items[i].record.Some?
  }

  lemma {:induction false} ItemFiles(h: Height, b: StoredBlock, i: nat)
    requires i < |b.items|
    ensures var x := b.items[i].tx.transaction.hash;
            && ReceiptKey(x) in KeysOf(BlockOps(h, b)) && RpcTxHashKey(x) in KeysOf(BlockOps(h, b))
            && (if b.items[i].record.Some? then TxHashKey(x) in KeysOf(BlockOps(h, b))
                else VirtualRpcTxKey(x) in KeysOf(BlockOps(h, b)))
  {
    hide BlockOps, ReceiptKey, RpcTxHashKey, TxHashKey, VirtualRpcTxKey;
    var ops := ItemOps(h, b.items[i]);
    var places := if b.items[i].record.Some? then {0, 2, 3} else {0, 1, 2};
    forall n | n in places ensures ops[n].key in KeysOf(BlockOps(h, b)) {
      ItemOpsIncluded(h, b, i, ops[n]);
    }
    assert 0 in places && 2 in places;
    assert b.items[i].record.Some? ==> 3 in places;
    assert b.items[i].record.None? ==> 1 in places;
  }

  /** A block writes again whatever it would drop under a hash, except markers of Ethereum transactions. */
  lemma {:induction false} FiledAgain(h: Height, b: StoredBlock, k: Bytes)
    requires Drops(h, b, k) && HashFamily(k[0]) && k !in KeysOf(BlockOps(h, b))
    ensures k[0] == VIRTUAL_RPC_TX && OnlyEthereum(b, k[1..])
  {
    hide BlockOps, KeysOf, HashAt;
    var x := k[1..];
    assert k == [k[0]] + x;
    var i :| 0 <= i < |b.items| && b.items[i].tx.transaction.hash == x && (k[0] == TX_HASH ==> b.items[i].record.Some?);
    ItemFiles(h, b, i);
    forall j | 0 <= j < |b.items| && b.items[j].tx.transaction.hash == x ensures b.items[j].record.Some? {
      ItemFiles(h, b, j);
    }
  }

  lemma {:induction false} MarkerOfItem(h: Height, b: StoredBlock, k: Bytes) returns (i: nat)
    requires k in KeysOf(BlockOps(h, b)) && k != [] && k[0] == VIRTUAL_RPC_TX
    ensures i < |b.items| && b.items[i].record.None? && k[1..] == b.items[i].tx.transaction.hash
  {
    hide BlockOps, ItemsOps, MetaOps;
    BlockOpsParts(h, b);
    var op :| op in BlockOps(h, b) && op.key == k;
    if op in MetaOps(h, b) {
      MetaKeyShape(h, b, op);
    }
    i := OpOrigin(h, b.items, op);
    ItemForm(h, b.items[i], op);
  }

  lemma {:induction false} BlockHashWritten(h: Height, b: StoredBlock)
    ensures BlockHashKey(b.meta.hash) in KeysOf(BlockOps(h, b))
  {
    hide BlockOps;
    MetaOpsIncluded(h, b);
  }

  /** What a block would drop of a store that has it: its own writes, or a marker left by another block. */
  lemma {:induction false} LeftoverIsMarker(store: Store, blocks: Blocks, h: Height, k: Bytes)
    requires Located(store, blocks) && h in blocks && k in store && Drops(h, blocks[h], k)
    requires k !in KeysOf(BlockOps(h, blocks[h]))
    ensures k[0] == VIRTUAL_RPC_TX && OnlyEthereum(blocks[h], k[1..])
  {
    hide Located, BlockOps, OnlyEthereum, EthHash;
    var b := blocks[h];
    assert k == [k[0]] + k[1..];
    if HashFamily(k[0]) {
      FiledAgain(h, b, k);
    } else if HeightKeyed(k) {
      OwnHeight(h, b, k);
      PlacedAt(store, blocks, h, k);
    } else {
      BlockHashWritten(h, b);
    }
  }

  /** A cached trace of the block's Ethereum transactions, or a virtual marker under one of their hashes. */
  ghost predicate Stale(b: StoredBlock, k: Bytes) {
    EthTraceKey(b, k) || (|k| == 33 && k[0] == VIRTUAL_RPC_TX && OnlyEthereum(b, k[1..]))
  }

  lemma {:induction false} StaleNotWritten(h: Height, b: StoredBlock, k: Bytes)
    requires Stale(b, k)
    ensures k !in KeysOf(BlockOps(h, b)) && Dropped(map[h := b], h, k)
  {
    hide BlockOps, KeysOf, HashAt;
    if k in KeysOf(BlockOps(h, b)) {
      if EthTraceKey(b, k) {
        EthTraceIsTrace(b, k);
        OpsNotTrace(h, b, k);
      } else {
        var i := MarkerOfItem(h, b, k);
      }
    }
    if EthTraceKey(b, k) {
      EthTraceIsTrace(b, k);
    }
  }

  lemma {:induction false} SecondReset(store: Store, blocks: Blocks, h: Height, b: StoredBlock, k: Bytes)
    requires Located(store, blocks) && Located(Reindexed(store, h, b), blocks[h := b]) && k in Reindexed(store, h, b)
    ensures k !in KeysOf(BlockOps(h, b)) && Dropped(blocks[h := b], h, k) <==> Stale(b, k)
  {
    hide Located, Reindexed, BlockOps, KeysOf, Drops, EthTraceKey, OnlyEthereum, TraceBlockPrefix;
    var once := Reindexed(store, h, b);
    if Stale(b, k) {
      StaleNotWritten(h, b, k);
    } else if k !in KeysOf(BlockOps(h, b)) && Dropped(blocks[h := b], h, k) {
      ReindexExact(store, blocks, h, b, k);
      if !IsTraceKey(k) {
        LeftoverIsMarker(once, blocks[h := b], h, k);
        DropsLong(h, b, k);
      }
    }
  }

  lemma {:induction false} DropsLong(h: Height, b: StoredBlock, k: Bytes)
    requires Drops(h, b, k)
    ensures |k| >= 9 && (HashFamily(k[0]) ==> |k| == 33 && k[1..] in TxHashes(b))
  {
  }

  /** A second indexing drops what is stale after the first and changes nothing else. */
  lemma {:induction false} TwiceExact(store: Store, blocks: Blocks, h: Height, b: StoredBlock, k: Bytes)
    requires Located(store, blocks) && WellPlaced(h, b)
    ensures Lookup(Reindexed(Reindexed(store, h, b), h, b), k) ==
            if Stale(b, k) then None else Lookup(Reindexed(store, h, b), k)
  {
    hide Located, Reindexed, BlockOps, KeysOf, Dropped, Stale, LastWrite, WellPlaced;
    var once := Reindexed(store, h, b);
    ReindexRefines(store, blocks, h, b);
    ReindexExact(store, blocks, h, b, k);
    ReindexExact(once, blocks[h := b], h, b, k);
    if k in once {
      SecondReset(store, blocks, h, b, k);
    } else if Stale(b, k) {
      StaleNotWritten(h, b, k);
    }
  }

  /** What is stale after the first indexing was there before, and not dropped by it. */
  lemma {:induction false} StaleAfterFirst(store: Store, blocks: Blocks, h: Height, b: StoredBlock, k: Bytes)
    requires Located(store, blocks) && Stale(b, k)
    ensures k in Reindexed(store, h, b) <==> k in store && !(h in blocks && Forgets(blocks[h], k))
  {
    hide Located, Reindexed, BlockOps, KeysOf, LastWrite, EthTraceKey, OnlyEthereum, TraceBlockPrefix, TxHashes;
    StaleNotWritten(h, b, k);
    ReindexExact(store, blocks, h, b, k);
    HeightKeyShape(TRACE_BLOCK, h);
    if EthTraceKey(b, k) {
      EthTraceIsTrace(b, k);
      TracePrefixFamily(h, k);
    } else if h in blocks {
      assert Drops(h, blocks[h], k) <==> k[1..] in TxHashes(blocks[h]);
      if EthTraceKey(blocks[h], k) {
        EthTraceIsTrace(blocks[h], k);
      }
    }
  }

  lemma {:induction false} TracePrefixFamily(h: Height, k: Bytes)
    requires k != [] && k[0] == TRACE_TX
    ensures !(TraceBlockPrefix(h) <= k)
  {
    HeightKeyShape(TRACE_BLOCK, h);
  }

  /** The reset of a block drops this trace or marker, as one under a hash of its own. */
  ghost predicate Forgets(b: StoredBlock, k: Bytes) {
    EthTraceKey(b, k) || (k != [] && k[0] == VIRTUAL_RPC_TX && k[1..] in TxHashes(b))
  }

  /**
   Indexing a block twice gives the same store as indexing it once if and only
   if every cached trace and virtual marker under the hash of one of its
   Ethereum transactions is under that of a transaction already recorded at the
   height: the first reset knows only those, the second one knows the block's
   own.
   */
  lemma {:induction false} IndexTwice(store: Store, blocks: Blocks, h: Height, b: StoredBlock)
    requires Located(store, blocks) && WellPlaced(h, b)
    ensures Reindexed(Reindexed(store, h, b), h, b) == Reindexed(store, h, b) <==>
            forall k :: k in store && Stale(b, k) ==> h in blocks && Forgets(blocks[h], k)
  {
    hide Located, Reindexed, Stale, Forgets, WellPlaced;
    var once, twice := Reindexed(store, h, b), Reindexed(Reindexed(store, h, b), h, b);
    forall k ensures Lookup(twice, k) == if Stale(b, k) then None else Lookup(once, k)
             ensures Stale(b, k) ==> (k in once <==> k in store && !(h in blocks && Forgets(blocks[h], k)))
    {
      TwiceExact(store, blocks, h, b, k);
      if Stale(b, k) {
        StaleAfterFirst(store, blocks, h, b, k);
      }
    }
    if forall k :: k in store && Stale(b, k) ==> h in blocks && Forgets(blocks[h], k) {
      assert forall k :: Lookup(twice, k) == Lookup(once, k);
      SameLookups(twice, once);
    } else {
      var k :| k in store && Stale(b, k) && !(h in blocks && Forgets(blocks[h], k));
      assert Lookup(twice, k) != Lookup(once, k);
    }
  }

  lemma {:induction false} SameLookups(s: Store, s': Store)
    requires forall k :: Lookup(s, k) == Lookup(s', k)
    ensures s == s'
  {
    forall k ensures k in s <==> k in s'
             ensures k in s ==> s[k] == s'[k]
    {
      assert Lookup(s, k) == Lookup(s', k);
    }
    assert s.Keys == s'.Keys;
  }

  lemma {:induction false} EthTraceIsTrace(b: StoredBlock, k: Bytes)
    requires EthTraceKey(b, k)
    ensures IsTraceKey(k) && k[0] == TRACE_TX
  {
    var i :| 0 <= i < |b.items| && b.items[i].record.Some? && TraceTxPrefix(b.items[i].tx.transaction.hash) <= k;
    HashKeyShape(TRACE_TX, b.items[i].tx.transaction.hash);
  }

  /** The key of a transaction's trace under one trace configuration, given by the configuration's digest. */
  function TraceTxKey(hash: Hash, config: Hash): Bytes {
    TraceTxPrefix(hash) + config
  }

  /** A trace cached before its block is indexed survives the first indexing and not the second. */
  lemma {:induction false} EarlyTraceIsDroppedLate(h: Height, b: StoredBlock, i: nat, config: Hash, raw: Bytes)
    requires WellPlaced(h, b) && i < |b.items| && b.items[i].record.Some?
    ensures var k := TraceTxKey(b.items[i].tx.transaction.hash, config);
            var store: Store := map[k := TraceValue(raw)];
            && Represents(store, map[])
            && k in Reindexed(store, h, b) && k !in Reindexed(Reindexed(store, h, b), h, b)
  {
    var k := TraceTxKey(b.items[i].tx.transaction.hash, config);
    var store: Store := map[k := TraceValue(raw)];
    HashKeyShape(TRACE_TX, b.items[i].tx.transaction.hash);
    assert Represents(store, map[]) by {
      forall x | x in store ensures Accounted(store, map[], x) {}
    }
    assert Separate(map[]);
    assert Stale(b, k);
    hide Represents, Separate, Located, Reindexed, Stale;
    RepresentsLocated(store, map[]);
    StaleAfterFirst(store, map[], h, b, k);
    TwiceExact(store, map[], h, b, k);
  }

  /** And a trace cached after it is dropped by the first re-indexing already. */
  lemma {:induction false} LaterTraceIsDroppedAtOnce(
      store: Store, blocks: Blocks, h: Height, b: StoredBlock, i: nat, config: Hash)
    requires Located(store, blocks) && h in blocks
    requires i < |blocks[h].items| && blocks[h].items[i].record.Some?
    ensures TraceTxKey(blocks[h].items[i].tx.transaction.hash, config) !in Reindexed(store, h, b)
  {
    hide Located, Reindexed, BlockOps, KeysOf;
    var k := TraceTxKey(blocks[h].items[i].tx.transaction.hash, config);
    assert EthTraceKey(blocks[h], k);
    EthTraceIsTrace(blocks[h], k);
    ReindexExact(store, blocks, h, b, k);
    if k in KeysOf(BlockOps(h, b)) {
      OpsNotTrace(h, b, k);
    }
  }

  // ---------- absence ----------

  /** Whether a stored value says that it belongs to a height. */
  predicate Names(v: Value, h: Height) {
    match v
    case MetaValue(meta) => meta.height == h
    case HeightValue(n) => n == h
    case RecordValue(record) => record.height == h
    case ReceiptValue(receipt) => receipt.blockNumber == h
    case RpcTxValue(tx) => tx.blockNumber == h
    case _ => false
  }

  lemma {:induction false} ItemNames(h: Height, b: StoredBlock, i: nat, op: Op, other: Height)
    requires WellPlaced(h, b) && i < |b.items| && op in ItemOps(h, b.items[i]) && op.Set? && Names(op.value, other)
    ensures other == h
  {
    assert ItemWell(h, b, i);
  }

  lemma {:induction false} MetaNames(h: Height, b: StoredBlock, op: Op, other: Height)
    requires WellPlaced(h, b) && op in MetaOps(h, b) && op.Set? && Names(op.value, other)
    ensures other == h
  {
  }

  /** Whatever a block writes names that block's height or none. */
  lemma {:induction false} WritesNameOwner(h: Height, b: StoredBlock, op: Op, other: Height)
    requires WellPlaced(h, b) && op in BlockOps(h, b) && op.Set? && Names(op.value, other)
    ensures other == h
  {
    hide BlockOps, ItemsOps, WellPlaced, ItemOps;
    BlockOpsParts(h, b);
    if op in ItemsOps(h, b.items) {
      var i := OpOrigin(h, b.items, op);
      ItemNames(h, b, i, op, other);
    } else {
      MetaNames(h, b, op, other);
    }
  }

  /**
   A value that names a height is filed under a key that the block there would
   drop, and a virtual marker always stands beside its transaction.
   */
  ghost predicate Attributed(store: Store, blocks: Blocks) {
    && (forall k, h: Height :: k in store && !IsTraceKey(k) && Names(store[k], h) ==>
        h in blocks && Drops(h, blocks[h], k))
    && (forall x: Hash :: VirtualRpcTxKey(x) in store ==>
        RpcTxHashKey(x) in store && store[RpcTxHashKey(x)].RpcTxValue?)
  }

  lemma {:induction false} NamesSurvive(store: Store, blocks: Blocks, h: Height, k: Bytes, other: Height)
    requires Located(store, blocks) && Attributed(store, blocks)
    requires k in Deleted(store, h) && !IsTraceKey(k) && Names(store[k], other)
    ensures other in blocks && other != h && Drops(other, blocks[other], k)
  {
    hide Located, Drops, Names, ResetKeys, IsTraceKey, VirtualRpcTxKey, RpcTxHashKey;
    ResetExact(store, blocks, h, k);
  }

  lemma {:induction false} MarkerDropsTogether(h: Height, b: StoredBlock, x: Hash)
    ensures Drops(h, b, RpcTxHashKey(x)) <==> Drops(h, b, VirtualRpcTxKey(x))
    ensures !IsTraceKey(RpcTxHashKey(x)) && !IsTraceKey(VirtualRpcTxKey(x))
  {
    HashKeyShape(RPC_TX_HASH, x);
    HashKeyShape(VIRTUAL_RPC_TX, x);
  }

  lemma {:induction false} MarkerSurvives(store: Store, blocks: Blocks, h: Height, x: Hash)
    requires Located(store, blocks) && VirtualRpcTxKey(x) in Deleted(store, h) && RpcTxHashKey(x) in store
    ensures RpcTxHashKey(x) in Deleted(store, h)
  {
    hide Located, Drops, ResetKeys, IsTraceKey, VirtualRpcTxKey, RpcTxHashKey;
    if h in blocks {
      MarkerDropsTogether(h, blocks[h], x);
    } else {
      NotTraceKeys(x);
    }
    ResetExact(store, blocks, h, VirtualRpcTxKey(x));
    ResetExact(store, blocks, h, RpcTxHashKey(x));
  }

  lemma {:induction false} NotTraceKeys(x: Hash)
    ensures !IsTraceKey(RpcTxHashKey(x)) && !IsTraceKey(VirtualRpcTxKey(x))
  {
  }

  lemma {:induction false} DeleteAttributes(store: Store, blocks: Blocks, h: Height)
    requires Located(store, blocks) && Attributed(store, blocks)
    ensures Attributed(Deleted(store, h), Without(blocks, h))
  {
    hide Located, Drops, Names, ResetKeys, IsTraceKey, VirtualRpcTxKey, RpcTxHashKey;
    var after, rest := Deleted(store, h), Without(blocks, h);
    forall k, other: Height | k in after && !IsTraceKey(k) && Names(after[k], other)
      ensures other in rest && Drops(other, rest[other], k)
    {
      NamesSurvive(store, blocks, h, k, other);
    }
    forall x: Hash | VirtualRpcTxKey(x) in after
      ensures RpcTxHashKey(x) in after && after[RpcTxHashKey(x)].RpcTxValue?
    {
      MarkerSurvives(store, blocks, h, x);
    }
  }

  /** Under a transaction's key a block files the RPC form of one of its transactions with that hash. */
  lemma {:induction false} RpcFormFiled(h: Height, b: StoredBlock, x: Hash, v: Value) returns (i: nat)
    requires Set(RpcTxHashKey(x), v) in BlockOps(h, b)
    ensures i < |b.items| && b.items[i].tx.transaction.hash == x && v == RpcTxValue(b.items[i].tx.transaction)
  {
    hide BlockOps, HashKey;
    i := WrittenForm(h, b, RPC_TX_HASH, x, v);
  }

  lemma {:induction false} MarkerWithForm(h: Height, b: StoredBlock, x: Hash)
    requires VirtualRpcTxKey(x) in KeysOf(BlockOps(h, b))
    ensures RpcTxHashKey(x) in KeysOf(BlockOps(h, b))
  {
    hide BlockOps, KeysOf;
    HashKeyShape(VIRTUAL_RPC_TX, x);
    var i := MarkerOfItem(h, b, VirtualRpcTxKey(x));
    ItemFiles(h, b, i);
  }

  lemma {:induction false} WriteAttributes(store: Store, blocks: Blocks, h: Height, b: StoredBlock)
    requires Attributed(store, blocks) && h !in blocks && WellPlaced(h, b)
    ensures Attributed(Apply(store, BlockOps(h, b)), blocks[h := b])
  {
    hide BlockOps, Apply, KeysOf, LastWrite, Drops, Names, IsTraceKey, VirtualRpcTxKey, RpcTxHashKey, WellPlaced;
    var ops, after, all := BlockOps(h, b), Apply(store, BlockOps(h, b)), blocks[h := b];
    BlockOpsSet(h, b);
    forall k, other: Height | k in after && !IsTraceKey(k) && Names(after[k], other)
      ensures other in all && Drops(other, all[other], k)
    {
      ApplySets(store, ops, k);
      if k in KeysOf(ops) {
        WritesNameOwner(h, b, Set(k, after[k]), other);
        WritesDropped(h, b, Set(k, after[k]));
      }
    }
    forall x: Hash | VirtualRpcTxKey(x) in after
      ensures RpcTxHashKey(x) in after && after[RpcTxHashKey(x)].RpcTxValue?
    {
      ApplySets(store, ops, VirtualRpcTxKey(x));
      ApplySets(store, ops, RpcTxHashKey(x));
      if VirtualRpcTxKey(x) in KeysOf(ops) {
        MarkerWithForm(h, b, x);
      }
      if RpcTxHashKey(x) in KeysOf(ops) {
        var i := RpcFormFiled(h, b, x, after[RpcTxHashKey(x)]);
      }
    }
  }

  lemma {:induction false} ReindexAttributes(store: Store, blocks: Blocks, h: Height, b: StoredBlock)
    requires Located(store, blocks) && Attributed(store, blocks) && WellPlaced(h, b)
    ensures Attributed(Reindexed(store, h, b), blocks[h := b])
  {
    hide Located, Attributed, BlockOps, Apply, Deleted, WellPlaced;
    DeleteAttributes(store, blocks, h);
    assert Without(blocks, h)[h := b] == blocks[h := b];
    WriteAttributes(Deleted(store, h), Without(blocks, h), h, b);
  }

  /** A store that represents separate blocks names no other height either. */
  lemma {:induction false} RepresentsAttributed(store: Store, blocks: Blocks)
    requires Represents(store, blocks) && Separate(blocks)
    ensures Attributed(store, blocks)
  {
    hide BlockOps, KeysOf, Drops, Names, IsTraceKey, VirtualRpcTxKey, RpcTxHashKey, OwnKey, WellPlaced,
         DistinctHashes, Apart;
    forall k, h: Height | k in store && !IsTraceKey(k) && Names(store[k], h)
      ensures h in blocks && Drops(h, blocks[h], k)
    {
      var owner := OwnerOf(store, blocks, k);
      assert Well(owner, blocks[owner]);
      WritesNameOwner(owner, blocks[owner], Set(k, store[k]), h);
      WritesDropped(owner, blocks[owner], Set(k, store[k]));
    }
    forall x: Hash | VirtualRpcTxKey(x) in store
      ensures RpcTxHashKey(x) in store && store[RpcTxHashKey(x)].RpcTxValue?
    {
      NotTraceKeys(x);
      var owner := OwnerOf(store, blocks, VirtualRpcTxKey(x));
      FormBesideMarker(store, owner, blocks[owner], x);
    }
  }

  lemma {:induction false} FormBesideMarker(store: Store, h: Height, b: StoredBlock, x: Hash)
    requires Written(store, h, b) && OwnKey(h, b, VirtualRpcTxKey(x))
    ensures RpcTxHashKey(x) in store && store[RpcTxHashKey(x)].RpcTxValue?
  {
    hide BlockOps, RpcTxHashKey;
    HashKeyShape(VIRTUAL_RPC_TX, x);
    var i :| 0 <= i < |b.items| && b.items[i].tx.transaction.hash == x;
    ItemFiles(h, b, i);
    var op :| op in BlockOps(h, b) && op.key == RpcTxHashKey(x);
    BlockOpsOwned(h, b, op);
    var j := RpcFormFiled(h, b, x, op.value);
  }

  /** Nothing in the store belongs to a height: no key of it, no value that names it, no marker of its transactions. */
  ghost predicate Absent(store: Store, h: Height) {
    && BlockMetaKey(h) !in store && BlockLogsKey(h) !in store
    && Window(store, TX_INDEX, h) == {} && Window(store, RPC_TX_INDEX, h) == {}
    && (forall k :: k in store && !IsTraceKey(k) ==> !Names(store[k], h))
    && (forall x: Hash :: VirtualRpcTxKey(x) in store ==>
          RpcTxHashKey(x) in store && store[RpcTxHashKey(x)].RpcTxValue? && store[RpcTxHashKey(x)].tx.blockNumber != h)
  }

  lemma {:induction false} NoPlace(store: Store, blocks: Blocks, h: Height)
    requires Located(store, blocks) && h !in blocks
    ensures BlockMetaKey(h) !in store && BlockLogsKey(h) !in store
    ensures Window(store, TX_INDEX, h) == {} && Window(store, RPC_TX_INDEX, h) == {}
  {
    hide Located, Window, BlockMetaKey, BlockLogsKey, ItemOps, TxHashes, HashAt, IndexKey;
    if BlockMetaKey(h) in store || BlockLogsKey(h) in store {
      MetaBehind(store, blocks, h);
    }
    if k :| k in Window(store, TX_INDEX, h) {
      var i := WindowItem(store, blocks, TX_INDEX, h, k);
    }
    if k :| k in Window(store, RPC_TX_INDEX, h) {
      var i := WindowItem(store, blocks, RPC_TX_INDEX, h, k);
    }
  }

  /** A height that is not among the blocks has left nothing in the store. */
  lemma {:induction false} AbsentHeight(store: Store, blocks: Blocks, h: Height)
    requires Located(store, blocks) && Attributed(store, blocks) && h !in blocks
    ensures Absent(store, h)
  {
    hide Located, Drops, Window, IsTraceKey, BlockMetaKey, BlockLogsKey;
    NoPlace(store, blocks, h);
    forall x: Hash | VirtualRpcTxKey(x) in store
      ensures RpcTxHashKey(x) in store && store[RpcTxHashKey(x)].RpcTxValue? &&
              store[RpcTxHashKey(x)].tx.blockNumber != h
    {
      NotTraceKeys(x);
      assert !Names(store[RpcTxHashKey(x)], h);
    }
  }

  lemma {:induction false} BlockHashOwner(store: Store, blocks: Blocks, hash: Hash) returns (h: Height)
    requires Represents(store, blocks) && Separate(blocks) && BlockHashKey(hash) in store
    ensures h in blocks && blocks[h].meta.hash == hash && store[BlockHashKey(hash)] == HeightValue(U64(h))
  {
    var k := BlockHashKey(hash);
    HashKeyShape(BLOCK_HASH, hash);
    h := OwnerOf(store, blocks, k);
    assert Well(h, blocks[h]);
    MetaOpsIncluded(h, blocks[h]);
    OpsAgree(h, blocks[h], Set(k, store[k]), Set(BlockHashKey(blocks[h].meta.hash), HeightValue(U64(h))));
  }

  // ---------- runs ----------

  /** `Sync` is the service's handler: a failed attempt is followed by a delete. */
  datatype Action =
    | Index(cfg: Config, block: Block, results: Option<BlockResults>)
    | Sync(cfg: Config, block: Block, results: Option<BlockResults>)
    | DeleteAt(height: Height)
    | PutTrace(key: Bytes, raw: Bytes)

  function StepStore(store: Store, a: Action): Store {
    match a
    case Index(cfg, block, results) =>
      (match IndexedBlock(cfg, block, results)
       case Ok(b) => Reindexed(store, block.height, b)
       case Err(_) => store)
    case Sync(cfg, block, results) =>
      (match IndexedBlock(cfg, block, results)
       case Ok(b) => Reindexed(store, block.height, b)
       case Err(_) => Deleted(store, block.height))
    case DeleteAt(h) => Deleted(store, h)
    case PutTrace(k, raw) => store[k := TraceValue(raw)]
  }

  function StepBlocks(blocks: Blocks, a: Action): Blocks {
    match a
    case Index(cfg, block, results) =>
      (match IndexedBlock(cfg, block, results)
       case Ok(b) => blocks[block.height := b]
       case Err(_) => blocks)
    case Sync(cfg, block, results) =>
      (match IndexedBlock(cfg, block, results)
       case Ok(b) => blocks[block.height := b]
       case Err(_) => Without(blocks, block.height))
    case DeleteAt(h) => Without(blocks, h)
    case PutTrace(_, _) => blocks
  }

  /** Counts fit 32 bits, and trace keys are long enough to be trace keys. */
  ghost predicate Sized(a: Action) {
    match a
    case DeleteAt(_) => true
    case PutTrace(k, _) => IsTraceKey(k) && |k| >= 9
    case _ =>
      var r := IndexedBlock(a.cfg, a.block, a.results);
      r.Ok? ==> |r.value.items| <= MAX_INT32
  }

  ghost predicate SizedRun(run: seq<Action>) {
    forall i :: 0 <= i < |run| ==> Sized(run[i])
  }

  /** The block's hashes are new among the other heights and distinct among themselves. */
  ghost predicate NewHashes(blocks: Blocks, h: Height, b: StoredBlock) {
    && DistinctHashes(b.items)
    && forall h' :: h' in blocks && h' != h ==> Apart(b, blocks[h'])
  }

  /** No hash recurs. */
  ghost predicate BringsNewHashes(blocks: Blocks, a: Action) {
    a.Index? || a.Sync? ==>
      var r := IndexedBlock(a.cfg, a.block, a.results);
      r.Ok? ==> NewHashes(blocks, a.block.height, r.value)
  }

  function RunStore(store: Store, run: seq<Action>): Store {
    if run == [] then store else StepStore(RunStore(store, run[..|run| - 1]), run[|run| - 1])
  }

  function RunBlocks(blocks: Blocks, run: seq<Action>): Blocks {
    if run == [] then blocks else StepBlocks(RunBlocks(blocks, run[..|run| - 1]), run[|run| - 1])
  }

  ghost predicate NoHashRecurs(blocks: Blocks, run: seq<Action>) {
    run == [] ||
      (NoHashRecurs(blocks, run[..|run| - 1]) && BringsNewHashes(RunBlocks(blocks, run[..|run| - 1]), run[|run| - 1]))
  }

  lemma {:induction false} AcceptedIsNumbered(cfg: Config, block: Block, results: Option<BlockResults>)
    requires IndexedBlock(cfg, block, results).Ok? && |IndexedBlock(cfg, block, results).value.items| <= MAX_INT32
    ensures WellPlaced(block.height, IndexedBlock(cfg, block, results).value)
  {
    hide IndexedBlock;
    var b := IndexedBlock(cfg, block, results).value;
    StoredBlockWellNumbered(cfg, block, results);
    forall i | 0 <= i < |b.items| ensures ItemWell(block.height, b, i) {
      assert ItemAt(block, b.items, b.groups, i);
    }
  }

  /** Numbering makes every accepted block meet the refinement's demands, and new hashes make it fresh. */
  lemma {:induction false} AcceptedIsFresh(cfg: Config, block: Block, results: Option<BlockResults>, blocks: Blocks)
    requires IndexedBlock(cfg, block, results).Ok? && |IndexedBlock(cfg, block, results).value.items| <= MAX_INT32
    ensures WellPlaced(block.height, IndexedBlock(cfg, block, results).value)
    ensures NewHashes(blocks, block.height, IndexedBlock(cfg, block, results).value) <==>
            Fresh(blocks, block.height, IndexedBlock(cfg, block, results).value)
  {
    hide IndexedBlock, WellPlaced, DistinctHashes, Apart;
    AcceptedIsNumbered(cfg, block, results);
  }

  lemma {:induction false} TraceRepresents(store: Store, blocks: Blocks, k: Bytes, raw: Bytes)
    requires Represents(store, blocks) && IsTraceKey(k) && |k| >= 9
    ensures Represents(store[k := TraceValue(raw)], blocks)
  {
    hide BlockOps;
    var after := store[k := TraceValue(raw)];
    forall x | x in after ensures Accounted(after, blocks, x) {
      if x != k {
        assert Accounted(store, blocks, x);
      }
    }
    forall h | h in blocks ensures Written(after, h, blocks[h]) {
      assert Written(store, h, blocks[h]);
      forall op | op in BlockOps(h, blocks[h]) ensures op.Set? && op.key in after && after[op.key] == op.value {
        BlockOpsOwned(h, blocks[h], op);
      }
    }
  }

  lemma {:induction false} TraceLocates(store: Store, blocks: Blocks, k: Bytes, raw: Bytes)
    requires Located(store, blocks) && IsTraceKey(k) && |k| >= 9
    ensures Located(store[k := TraceValue(raw)], blocks)
  {
    hide BlockOps, WellPlaced;
    var after := store[k := TraceValue(raw)];
    forall x | x in after && HeightKeyed(x) ensures ByBlock(after, blocks, x) {
      assert ByBlock(store, blocks, x);
      var h :| h in blocks && Set(x, store[x]) in BlockOps(h, blocks[h]);
      assert Set(x, after[x]) in BlockOps(h, blocks[h]);
    }
    forall h | h in blocks ensures InPlace(after, h, blocks[h]) {
      assert InPlace(store, h, blocks[h]);
    }
  }

  lemma {:induction false} TraceAttributes(store: Store, blocks: Blocks, k: Bytes, raw: Bytes)
    requires Attributed(store, blocks) && IsTraceKey(k)
    ensures Attributed(store[k := TraceValue(raw)], blocks)
  {
    hide Drops, Names, IsTraceKey, VirtualRpcTxKey, RpcTxHashKey;
    var after := store[k := TraceValue(raw)];
    forall x: Hash | VirtualRpcTxKey(x) in after
      ensures RpcTxHashKey(x) in after && after[RpcTxHashKey(x)].RpcTxValue?
    {
      NotTraceKeys(x);
    }
  }

  /** What every action keeps, and what it keeps besides if it brings no known hash. */
  lemma {:induction false} StepRefines(store: Store, blocks: Blocks, a: Action)
    requires Located(store, blocks) && Sized(a)
    ensures Located(StepStore(store, a), StepBlocks(blocks, a))
    ensures Attributed(store, blocks) ==> Attributed(StepStore(store, a), StepBlocks(blocks, a))
    ensures Represents(store, blocks) && Separate(blocks) && BringsNewHashes(blocks, a) ==>
              Represents(StepStore(store, a), StepBlocks(blocks, a)) && Separate(StepBlocks(blocks, a))
  {
    hide Located, Attributed, Represents, Separate, Deleted, Reindexed, Without, IndexedBlock, NewHashes, WellPlaced,
         Fresh, IsTraceKey;
    match a
    case DeleteAt(h) => DeleteKeeps(store, blocks, h);
    case PutTrace(k, raw) =>
      TraceLocates(store, blocks, k, raw);
      if Attributed(store, blocks) {
        TraceAttributes(store, blocks, k, raw);
      }
      if Represents(store, blocks) {
        TraceRepresents(store, blocks, k, raw);
      }
    case Index(cfg, block, results) =>
      if IndexedBlock(cfg, block, results).Ok? {
        AcceptedIsFresh(cfg, block, results, blocks);
        ReindexKeeps(store, blocks, block.height, IndexedBlock(cfg, block, results).value);
      }
    case Sync(cfg, block, results) =>
      if IndexedBlock(cfg, block, results).Ok? {
        AcceptedIsFresh(cfg, block, results, blocks);
        ReindexKeeps(store, blocks, block.height, IndexedBlock(cfg, block, results).value);
      } else {
        DeleteKeeps(store, blocks, block.height);
      }
  }

  lemma {:induction false} DeleteKeeps(store: Store, blocks: Blocks, h: Height)
    requires Located(store, blocks)
    ensures Located(Deleted(store, h), Without(blocks, h))
    ensures Attributed(store, blocks) ==> Attributed(Deleted(store, h), Without(blocks, h))
    ensures Represents(store, blocks) && Separate(blocks) ==>
              Represents(Deleted(store, h), Without(blocks, h)) && Separate(Without(blocks, h))
  {
    hide Located, Attributed, Represents, Separate, Deleted, Without;
    DeleteRefines(store, blocks, h);
    if Attributed(store, blocks) {
      DeleteAttributes(store, blocks, h);
    }
  }

  lemma {:induction false} ReindexKeeps(store: Store, blocks: Blocks, h: Height, b: StoredBlock)
    requires Located(store, blocks) && WellPlaced(h, b)
    ensures Located(Reindexed(store, h, b), blocks[h := b])
    ensures Attributed(store, blocks) ==> Attributed(Reindexed(store, h, b), blocks[h := b])
    ensures Represents(store, blocks) && Separate(blocks) && Fresh(blocks, h, b) ==>
              Represents(Reindexed(store, h, b), blocks[h := b]) && Separate(blocks[h := b])
  {
    hide Located, Attributed, Represents, Separate, Reindexed, WellPlaced, Fresh;
    ReindexRefines(store, blocks, h, b);
    if Attributed(store, blocks) {
      ReindexAttributes(store, blocks, h, b);
    }
  }

  /**
   After any sequence of indexing, syncing, deleting and trace caching, from
   any store that locates some blocks (in particular the empty one), the keys
   found by height are exactly those of the blocks the sequence leaves, and no
   value is left that names any other height. If no hash recurs, all keys but
   traces are exactly the writes of those blocks.
   */
  lemma {:induction false} RunRefines(store: Store, blocks: Blocks, run: seq<Action>)
    requires Located(store, blocks) && Attributed(store, blocks) && SizedRun(run)
    ensures Located(RunStore(store, run), RunBlocks(blocks, run)) &&
            Attributed(RunStore(store, run), RunBlocks(blocks, run))
    ensures Represents(store, blocks) && Separate(blocks) && NoHashRecurs(blocks, run) ==>
              Represents(RunStore(store, run), RunBlocks(blocks, run)) && Separate(RunBlocks(blocks, run))
  {
    hide Located, Attributed, Represents, Separate, Sized, BringsNewHashes, StepStore, StepBlocks;
    if run != [] {
      var init := run[..|run| - 1];
      RunRefines(store, blocks, init);
      StepRefines(RunStore(store, init), RunBlocks(blocks, init), run[|run| - 1]);
    }
  }

  lemma {:induction false} EmptyRepresents()
    ensures Located(map[], map[]) && Attributed(map[], map[])
    ensures Represents(map[], map[]) && Separate(map[])
  {
  }

  /**
   A failed sync attempt leaves its height wholly absent, whatever was there:
   the block, its traces, and the traces of the Ethereum transactions recorded
   at it.
   */
  lemma {:induction false} FailedSyncLeavesNothing(run: seq<Action>)
    requires SizedRun(run) && run != []
    requires var a := run[|run| - 1]; a.Sync? && IndexedBlock(a.cfg, a.block, a.results).Err?
    ensures var h, store, before := run[|run| - 1].block.height, RunStore(map[], run),
            RunBlocks(map[], run[..|run| - 1]);
            && Absent(store, h)
            && forall k :: k in store ==> !(TraceBlockPrefix(h) <= k) && !(h in before && EthTraceKey(before[h], k))
  {
    hide Absent, EthTraceKey, IndexedBlock, Located, Attributed, Sized, Drops, Deleted, TraceBlockPrefix;
    var init, h := run[..|run| - 1], run[|run| - 1].block.height;
    EmptyRepresents();
    RunRefines(map[], map[], init);
    RunRefines(map[], map[], run);
    AbsentHeight(RunStore(map[], run), RunBlocks(map[], run), h);
    var before, blocks := RunStore(map[], init), RunBlocks(map[], init);
    forall k | k in RunStore(map[], run)
      ensures !(TraceBlockPrefix(h) <= k) && !(h in blocks && EthTraceKey(blocks[h], k))
    {
      DeletedLookup(before, blocks, h, k);
      if TraceBlockPrefix(h) <= k {
        TraceBlockIsTrace(h, k);
      }
      if h in blocks && EthTraceKey(blocks[h], k) {
        EthTraceIsTrace(blocks[h], k);
      }
    }
  }

  lemma {:induction false} TraceBlockIsTrace(h: Height, k: Bytes)
    requires TraceBlockPrefix(h) <= k
    ensures IsTraceKey(k)
  {
    HeightKeyShape(TRACE_BLOCK, h);
  }
}
