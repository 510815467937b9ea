/** Which block a key belongs to, and what batches do to a store. */
module KeyOwnership {
  import opened Common
  import opened ByteOrder
  import opened BlockModel
  import opened Keys
  import opened Numbering

  // ---------- batches ----------

  lemma {:induction false} ApplyAppend(store: Store, a: seq<Op>, b: seq<Op>)
    ensures Apply(store, a + b) == Apply(Apply(store, a), b)
  {
    if b == [] {
      assert a + b == a;
    } else {
      ApplyAppend(store, a, b[..|b| - 1]);
      assert (a + b)[..|a + b| - 1] == a + b[..|b| - 1];
    }
  }

  predicate DeletesOnly(batch: seq<Op>) {
    forall i :: 0 <= i < |batch| ==> batch[i].Delete?
  }

  function KeysOf(batch: seq<Op>): set<Bytes> {
    set op | op in batch :: op.key
  }

  lemma {:induction false} ApplyDeletes(store: Store, batch: seq<Op>)
    requires DeletesOnly(batch)
    ensures Apply(store, batch) == store - KeysOf(batch)
  {
    if batch == [] {
      assert KeysOf(batch) == {};
    } else {
      var init, last := batch[..|batch| - 1], batch[|batch| - 1];
      ApplyDeletes(store, init);
      assert batch == init + [last];
      assert KeysOf(batch) == KeysOf(init) + {last.key};
    }
  }

  predicate SetsOnly(batch: seq<Op>) {
    forall i :: 0 <= i < |batch| ==> batch[i].Set?
  }

  /** What a batch leaves under a key, if it writes it last. */
  function LastWrite(batch: seq<Op>, k: Bytes): Option<Value> {
    if batch == [] then None
    else
      match batch[|batch| - 1]
      case Set(key, v) => if key == k then Some(v) else LastWrite(batch[..|batch| - 1], k)
      case Delete(key) => if key == k then None else LastWrite(batch[..|batch| - 1], k)
  }

  lemma {:induction false} LastWriteInBatch(batch: seq<Op>, k: Bytes)
    requires SetsOnly(batch)
    ensures LastWrite(batch, k).Some? <==> k in KeysOf(batch)
    ensures LastWrite(batch, k).Some? ==> Set(k, LastWrite(batch, k).value) in batch
  {
    if batch != [] {
      var init, last := batch[..|batch| - 1], batch[|batch| - 1];
      LastWriteInBatch(init, k);
      assert batch == init + [last] && last in batch;
      assert KeysOf(batch) == KeysOf(init) + {last.key};
    }
  }

  function Lookup(store: Store, k: Bytes): Option<Value> {
    if k in store then Some(store[k]) else None
  }

  /** A batch of writes leaves the last write to a key and, elsewhere, what was there. */
  lemma {:induction false} ApplySets(store: Store, batch: seq<Op>, k: Bytes)
    requires SetsOnly(batch)
    ensures Lookup(Apply(store, batch), k) == if k in KeysOf(batch) then LastWrite(batch, k) else Lookup(store, k)
    ensures k in KeysOf(batch) ==> k in Apply(store, batch) && Set(k, Apply(store, batch)[k]) in batch
  {
    ApplyLastWrite(store, batch, k);
    LastWriteInBatch(batch, k);
  }

  lemma {:induction false} ApplyLastWrite(store: Store, batch: seq<Op>, k: Bytes)
    requires SetsOnly(batch)
    ensures Lookup(Apply(store, batch), k) ==
            if LastWrite(batch, k).Some? then LastWrite(batch, k) else Lookup(store, k)
  {
    if batch != [] {
      ApplyLastWrite(store, batch[..|batch| - 1], k);
    }
  }

  /** Writes that agree wherever they meet. */
  ghost predicate Coherent(batch: seq<Op>) {
    && SetsOnly(batch)
    && forall i, j :: 0 <= i < |batch| && 0 <= j < |batch| && batch[i].key == batch[j].key ==> batch[i] == batch[j]
  }

  // ---------- what a stored block must look like ----------

  const MAX_INT32: int := 0x7fff_ffff

  function TxHashes(b: StoredBlock): set<Hash> {
    set i | 0 <= i < |b.items| :: b.items[i].tx.transaction.hash
  }

  ghost predicate DistinctHashes(items: seq<Item>) {
    forall i, j :: 0 <= i < j < |items| ==> items[i].tx.transaction.hash != items[j].tx.transaction.hash
  }

  ghost predicate ItemWell(h: Height, b: StoredBlock, i: nat)
    requires i < |b.items|
  {
    && Placed(b.items[i].tx, b.meta.hash, h, i)
    && (b.items[i].record.Some? ==>
          b.items[i].record.value.height == h && b.items[i].record.value.ethTxIndex == EthCount(b.items[..i]))
  }

  /** A well-numbered block whose counters fit the source's 32-bit indexes. */
  ghost predicate WellPlaced(h: Height, b: StoredBlock) {
    && b.meta.height == h && b.meta.ethTxCount == |b.items| <= MAX_INT32
    && forall i :: 0 <= i < |b.items| ==> ItemWell(h, b, i)
  }

  /** A well-numbered block no two of whose transactions share a hash. */
  ghost predicate Well(h: Height, b: StoredBlock) {
    WellPlaced(h, b) && DistinctHashes(b.items)
  }

  // ---------- key shapes ----------

  predicate HashFamily(f: byte) {
    f == TX_HASH || f == RPC_TX_HASH || f == RECEIPT || f == VIRTUAL_RPC_TX
  }

  predicate IndexFamily(f: byte) {
    f == TX_INDEX || f == RPC_TX_INDEX
  }

  predicate HeightFamily(f: byte) {
    f == BLOCK_LOGS || f == BLOCK_META
  }

  /** Keys found by height: metadata, logs and the two indexes. The others are filed under a hash. */
  predicate HeightKeyed(k: Bytes) {
    k != [] && (IndexFamily(k[0]) || HeightFamily(k[0]))
  }

  /** The keys that block `b` at height `h` may own. */
  predicate OwnKey(h: Height, b: StoredBlock, k: Bytes) {
    && |k| >= 9
    && if HashFamily(k[0]) then |k| == 33 && k[1..] in TxHashes(b)
       else if k[0] == BLOCK_HASH then k[1..] == b.meta.hash
       else if IndexFamily(k[0]) then |k| == 17 && k[1..9] == Word(U64(h))
       else HeightFamily(k[0]) && k[1..] == Word(U64(h))
  }

  lemma {:induction false} OwnKeyNotTrace(h: Height, b: StoredBlock, k: Bytes)
    requires OwnKey(h, b, k)
    ensures !IsTraceKey(k)
  {
  }

  lemma {:induction false} HeightKeyNotTrace(k: Bytes)
    requires HeightKeyed(k)
    ensures !IsTraceKey(k)
  {
  }

  lemma {:induction false} OwnHeight(h: Height, b: StoredBlock, k: Bytes)
    requires OwnKey(h, b, k) && HeightKeyed(k)
    ensures k[1..9] == Word(U64(h))
    ensures HeightFamily(k[0]) ==> k == HeightPrefix(k[0], h)
  {
    if HeightFamily(k[0]) {
      assert k[1..9] == k[1..];
      assert k == [k[0]] + k[1..];
    }
  }

  /** Blocks at different heights without common hashes share no keys. */
  lemma {:induction false} OwnKeysDisjoint(h: Height, b: StoredBlock, h': Height, b': StoredBlock, k: Bytes)
    requires OwnKey(h, b, k) && OwnKey(h', b', k)
    requires TxHashes(b) !! TxHashes(b') && b.meta.hash != b'.meta.hash
    ensures h == h'
  {
    if IndexFamily(k[0]) || HeightFamily(k[0]) {
      WordInjective(U64(h), U64(h'));
    }
  }

  lemma {:induction false} HashKeyShape(f: byte, hash: Hash)
    ensures HashKey(f, hash)[0] == f && HashKey(f, hash)[1..] == hash && |HashKey(f, hash)| == 33
  {
  }

  lemma {:induction false} IndexKeyShape(f: byte, h: Height, i: int)
    ensures var k := IndexKey(f, h, i); |k| == 17 && k[0] == f && k[1..9] == Word(U64(h)) && k[9..] == Word(U64(i))
  {
  }

  lemma {:induction false} HeightKeyShape(f: byte, h: Height)
    ensures HeightPrefix(f, h)[0] == f && HeightPrefix(f, h)[1..] == Word(U64(h)) && |HeightPrefix(f, h)| == 9
  {
  }

  lemma {:induction false} ItemOpsOwned(h: Height, b: StoredBlock, i: nat, op: Op)
    requires i < |b.items| && op in ItemOps(h, b.items[i])
    ensures op.Set? && OwnKey(h, b, op.key)
  {
    var item := b.items[i];
    var hash := item.tx.transaction.hash;
    assert hash in TxHashes(b);
    HashKeyShape(TX_HASH, hash);
    HashKeyShape(RECEIPT, hash);
    HashKeyShape(RPC_TX_HASH, hash);
    HashKeyShape(VIRTUAL_RPC_TX, hash);
    IndexKeyShape(RPC_TX_INDEX, h, item.tx.receipt.index);
    if item.record.Some? {
      IndexKeyShape(TX_INDEX, h, item.record.value.ethTxIndex);
    }
  }

  lemma {:induction false} OpOrigin(h: Height, items: seq<Item>, op: Op) returns (i: nat)
    requires op in ItemsOps(h, items)
    ensures i < |items| && op in ItemOps(h, items[i])
  {
    var init := items[..|items| - 1];
    if op in ItemsOps(h, init) {
      i := OpOrigin(h, init, op);
    } else {
      i := |items| - 1;
    }
  }

  lemma {:induction false} OpIncluded(h: Height, items: seq<Item>, i: nat, op: Op)
    requires i < |items| && op in ItemOps(h, items[i])
    ensures op in ItemsOps(h, items)
  {
    if i < |items| - 1 {
      OpIncluded(h, items[..|items| - 1], i, op);
    }
  }

  function MetaOps(h: Height, b: StoredBlock): seq<Op> {
    [Set(BlockMetaKey(h), MetaValue(b.meta)),
     Set(BlockHashKey(b.meta.hash), HeightValue(U64(h))),
     Set(BlockLogsKey(h), LogsValue(b.groups))]
  }

  lemma {:induction false} BlockOpsOwned(h: Height, b: StoredBlock, op: Op)
    requires op in BlockOps(h, b)
    ensures op.Set? && OwnKey(h, b, op.key)
  {
    assert BlockOps(h, b) == ItemsOps(h, b.items) + MetaOps(h, b);
    if op in ItemsOps(h, b.items) {
      var i := OpOrigin(h, b.items, op);
      ItemOpsOwned(h, b, i, op);
    } else {
      assert op in MetaOps(h, b);
      HeightKeyShape(BLOCK_META, h);
      HeightKeyShape(BLOCK_LOGS, h);
      HashKeyShape(BLOCK_HASH, b.meta.hash);
    }
  }

  lemma {:induction false} MetaOpsIncluded(h: Height, b: StoredBlock)
    ensures Set(BlockMetaKey(h), MetaValue(b.meta)) in BlockOps(h, b)
    ensures Set(BlockHashKey(b.meta.hash), HeightValue(U64(h))) in BlockOps(h, b)
    ensures Set(BlockLogsKey(h), LogsValue(b.groups)) in BlockOps(h, b)
  {
    assert MetaOps(h, b)[0] in MetaOps(h, b) && MetaOps(h, b)[1] in MetaOps(h, b) && MetaOps(h, b)[2] in MetaOps(h, b);
    assert BlockOps(h, b) == ItemsOps(h, b.items) + MetaOps(h, b);
  }

  lemma {:induction false} ItemOpsIncluded(h: Height, b: StoredBlock, i: nat, op: Op)
    requires i < |b.items| && op in ItemOps(h, b.items[i])
    ensures op in BlockOps(h, b)
  {
    OpIncluded(h, b.items, i, op);
  }

  // ---------- coherence of the writes of one block ----------

  lemma {:induction false} EthCountGrows(items: seq<Item>, i: nat, j: nat)
    requires i < j <= |items|
    ensures EthCount(items[..i]) <= EthCount(items[..j]) <= j
    ensures items[i].record.Some? ==> EthCount(items[..i]) < EthCount(items[..j])
    decreases j
  {
    assert items[..j][..j - 1] == items[..j - 1];
    CountBound(items[..j]);
    if i < j - 1 {
      EthCountGrows(items, i, j - 1);
    }
  }

  lemma {:induction false} CountBound(items: seq<Item>)
    ensures EthCount(items) <= |items|
  {
    if items != [] {
      CountBound(items[..|items| - 1]);
    }
  }

  lemma {:induction false} SmallWordInjective(m: int, n: nat)
    requires -MAX_INT32 - 1 <= m <= MAX_INT32 && n <= MAX_INT32 && Word(U64(m)) == Word(U64(n))
    ensures m == n
  {
    WordInjective(U64(m), U64(n));
  }

  /** Two items of a numbered block never write the same index key, nor any key if their hashes differ. */
  lemma {:induction false} ItemsApart(h: Height, b: StoredBlock, i: nat, j: nat, op: Op, op': Op)
    requires WellPlaced(h, b) && i < j < |b.items| && (HeightKeyed(op.key) || DistinctHashes(b.items))
    requires op in ItemOps(h, b.items[i]) && op' in ItemOps(h, b.items[j])
    ensures op.key != op'.key
  {
    assert ItemWell(h, b, i) && ItemWell(h, b, j);
    var x, y := b.items[i], b.items[j];
    ItemKeyShape(h, x, op);
    ItemKeyShape(h, y, op');
    EthCountGrows(b.items, i, j);
    CountBound(b.items[..j]);
    if op.key == op'.key {
      if op.key[0] == TX_INDEX {
        SmallWordInjective(EthCount(b.items[..i]), EthCount(b.items[..j]));
      } else if op.key[0] == RPC_TX_INDEX {
        SmallWordInjective(i, j);
      }
    }
  }

  /** An item's key carries either its hash or its own index. */
  lemma {:induction false} ItemKeyShape(h: Height, item: Item, op: Op)
    requires op in ItemOps(h, item)
    ensures op.Set? && |op.key| >= 17
    ensures HashFamily(op.key[0]) || IndexFamily(op.key[0])
    ensures HashFamily(op.key[0]) ==>
              op.key == HashKey(op.key[0], item.tx.transaction.hash) && op.key[1..] == item.tx.transaction.hash
    ensures op.key[0] == TX_INDEX ==>
            item.record.Some? && op.key == TxIndexKey(h, item.record.value.ethTxIndex) &&
              op.key[9..] == Word(U64(item.record.value.ethTxIndex))
    ensures op.key[0] == RPC_TX_INDEX ==>
              op.key == RpcTxIndexKey(h, item.tx.receipt.index) && op.key[9..] == Word(U64(item.tx.receipt.index))
    ensures IndexFamily(op.key[0]) ==> op.value == HashValue(item.tx.transaction.hash)
  {
    var hash := item.tx.transaction.hash;
    HashKeyShape(TX_HASH, hash);
    HashKeyShape(RECEIPT, hash);
    HashKeyShape(RPC_TX_HASH, hash);
    HashKeyShape(VIRTUAL_RPC_TX, hash);
    IndexKeyShape(RPC_TX_INDEX, h, item.tx.receipt.index);
    if item.record.Some? {
      IndexKeyShape(TX_INDEX, h, item.record.value.ethTxIndex);
    }
  }

  /** Within one item, the first byte tells the writes apart. */
  lemma {:induction false} ItemCoherent(h: Height, item: Item, op: Op, op': Op)
    requires op in ItemOps(h, item) && op' in ItemOps(h, item) && op.key == op'.key
    ensures op == op'
  {
    var hash := item.tx.transaction.hash;
    HashKeyShape(TX_HASH, hash);
    HashKeyShape(RECEIPT, hash);
    HashKeyShape(RPC_TX_HASH, hash);
    HashKeyShape(VIRTUAL_RPC_TX, hash);
    IndexKeyShape(RPC_TX_INDEX, h, item.tx.receipt.index);
    if item.record.Some? {
      IndexKeyShape(TX_INDEX, h, item.record.value.ethTxIndex);
    }
  }

  lemma {:induction false} MetaCoherent(h: Height, b: StoredBlock, op: Op, op': Op)
    requires op in MetaOps(h, b) && op' in MetaOps(h, b) && op.key == op'.key
    ensures op == op'
  {
    HeightKeyShape(BLOCK_META, h);
    HeightKeyShape(BLOCK_LOGS, h);
    HashKeyShape(BLOCK_HASH, b.meta.hash);
  }

  lemma {:induction false} MetaKeyShape(h: Height, b: StoredBlock, op: Op)
    requires op in MetaOps(h, b)
    ensures op.Set? && |op.key| >= 9 && (HeightFamily(op.key[0]) || op.key[0] == BLOCK_HASH)
  {
    HeightKeyShape(BLOCK_META, h);
    HeightKeyShape(BLOCK_LOGS, h);
    HashKeyShape(BLOCK_HASH, b.meta.hash);
  }

  lemma {:induction false} BlockOpsParts(h: Height, b: StoredBlock)
    ensures BlockOps(h, b) == ItemsOps(h, b.items) + MetaOps(h, b)
  {
  }

  lemma {:induction false} OpsAgree(h: Height, b: StoredBlock, op: Op, op': Op)
    requires WellPlaced(h, b) && op in BlockOps(h, b) && op' in BlockOps(h, b) && op.key == op'.key
    requires HeightKeyed(op.key) || DistinctHashes(b.items)
    ensures op == op'
  {
    hide BlockOps, ItemsOps, MetaOps, HeightPrefix, Word, WellPlaced;
    var items, metas := ItemsOps(h, b.items), MetaOps(h, b);
    BlockOpsParts(h, b);
    if op in items {
      var i := OpOrigin(h, b.items, op);
      ItemKeyShape(h, b.items[i], op);
      if op' in items {
        var j := OpOrigin(h, b.items, op');
        if i < j {
          ItemsApart(h, b, i, j, op, op');
        } else if j < i {
          ItemsApart(h, b, j, i, op', op);
        } else {
          ItemCoherent(h, b.items[i], op, op');
        }
      } else {
        MetaKeyShape(h, b, op');
      }
    } else {
      MetaKeyShape(h, b, op);
      if op' in items {
        var j := OpOrigin(h, b.items, op');
        ItemKeyShape(h, b.items[j], op');
      } else {
        MetaCoherent(h, b, op, op');
      }
    }
  }

  lemma {:induction false} BlockOpsSet(h: Height, b: StoredBlock)
    ensures SetsOnly(BlockOps(h, b))
  {
    var ops := BlockOps(h, b);
    forall i | 0 <= i < |ops| ensures ops[i].Set? {
      BlockOpsOwned(h, b, ops[i]);
    }
  }

  lemma {:induction false} BlockOpsCoherent(h: Height, b: StoredBlock)
    requires Well(h, b)
    ensures Coherent(BlockOps(h, b))
  {
    hide BlockOps, WellPlaced, DistinctHashes;
    var ops := BlockOps(h, b);
    BlockOpsSet(h, b);
    forall i, j | 0 <= i < |ops| && 0 <= j < |ops| && ops[i].key == ops[j].key ensures ops[i] == ops[j] {
      OpsAgree(h, b, ops[i], ops[j]);
    }
  }
}
