/** What is filed under the hash of a transaction: its record, RPC form, receipt and marker, item by item. */
module FiledForms {
  import opened Common
  import opened ByteOrder
  import opened BlockModel
  import opened Keys
  import opened KeyOwnership
  import opened IndexRefinement

  /** What an item files in a family: receipt and RPC form always, a record or else a virtual marker. */
  function Form(item: Item, family: byte): Option<Value> {
    if family == RECEIPT then Some(ReceiptValue(item.tx.receipt))
    else if family == RPC_TX_HASH then Some(RpcTxValue(item.tx.transaction))
    else if family == TX_HASH && item.record.Some? then Some(RecordValue(item.record.value))
    else if family == VIRTUAL_RPC_TX && item.record.None? then Some(Marker)
    else None
  }

  /** A transaction of the block has the hash and files something in the family. */
  ghost predicate Files(b: StoredBlock, family: byte, x: Hash) {
    exists i :: 0 <= i < |b.items| && b.items[i].tx.transaction.hash == x && Form(b.items[i], family).Some?
  }

  lemma {:induction false} ItemForm(h: Height, item: Item, op: Op)
    requires op in ItemOps(h, item) && op.key != [] && HashFamily(op.key[0])
    ensures op.Set? && op.key[1..] == item.tx.transaction.hash && Form(item, op.key[0]) == Some(op.value)
  {
    var hash := item.tx.transaction.hash;
    HashKeyShape(TX_HASH, hash);
    HashKeyShape(RECEIPT, hash);
    HashKeyShape(RPC_TX_HASH, hash);
    HashKeyShape(VIRTUAL_RPC_TX, hash);
    IndexKeyShape(RPC_TX_INDEX, h, item.tx.receipt.index);
    if item.record.Some? {
      IndexKeyShape(TX_INDEX, h, item.record.value.ethTxIndex);
    }
  }

  /** Whatever a block writes under a hash is the form of one of its transactions with that hash. */
  lemma {:induction false} WrittenForm(h: Height, b: StoredBlock, family: byte, x: Hash, v: Value) returns (i: nat)
    requires HashFamily(family) && Set(HashKey(family, x), v) in BlockOps(h, b)
    ensures i < |b.items| && b.items[i].tx.transaction.hash == x && Form(b.items[i], family) == Some(v)
  {
    hide BlockOps, ItemsOps, MetaOps, Form;
    var op := Set(HashKey(family, x), v);
    BlockOpsParts(h, b);
    HashKeyShape(family, x);
    if op in MetaOps(h, b) {
      MetaKeyShape(h, b, op);
    }
    i := OpOrigin(h, b.items, op);
    ItemForm(h, b.items[i], op);
  }

  lemma {:induction false} FormWrittenByItem(h: Height, item: Item, family: byte)
    requires HashFamily(family) && Form(item, family).Some?
    ensures Set(HashKey(family, item.tx.transaction.hash), Form(item, family).value) in ItemOps(h, item)
  {
    var ops := ItemOps(h, item);
    var n := if family == TX_HASH then 0
             else if item.record.Some? then if family == RECEIPT then 2 else 3
             else if family == RECEIPT then 0 else if family == RPC_TX_HASH then 1 else 2;
    assert ops[n] in ops;
  }

  lemma {:induction false} FormWritten(h: Height, b: StoredBlock, i: nat, family: byte)
    requires i < |b.items| && HashFamily(family) && Form(b.items[i], family).Some?
    ensures Set(HashKey(family, b.items[i].tx.transaction.hash), Form(b.items[i], family).value) in BlockOps(h, b)
  {
    hide BlockOps, ItemOps, Form, HashKey;
    FormWrittenByItem(h, b.items[i], family);
    ItemOpsIncluded(h, b, i, Set(HashKey(family, b.items[i].tx.transaction.hash), Form(b.items[i], family).value));
  }

  /** The keys a block writes under a hash. */
  lemma {:induction false} FilesExactly(h: Height, b: StoredBlock, family: byte, x: Hash)
    requires HashFamily(family)
    ensures HashKey(family, x) in KeysOf(BlockOps(h, b)) <==> Files(b, family, x)
  {
    hide BlockOps, Form, HashKey;
    if HashKey(family, x) in KeysOf(BlockOps(h, b)) {
      var op :| op in BlockOps(h, b) && op.key == HashKey(family, x);
      BlockOpsOwned(h, b, op);
      var i := WrittenForm(h, b, family, x, op.value);
    }
    if i :| 0 <= i < |b.items| && b.items[i].tx.transaction.hash == x && Form(b.items[i], family).Some? {
      FormWritten(h, b, i, family);
    }
  }

  // ---------- on a store that represents blocks ----------

  /** Transaction `i` of a present block. */
  predicate Present(blocks: Blocks, h: Height, i: int) {
    h in blocks && 0 <= i < |blocks[h].items|
  }

  /** Some present transaction has the hash. */
  ghost predicate Known(blocks: Blocks, x: Hash) {
    exists h, i :: Present(blocks, h, i) && blocks[h].items[i].tx.transaction.hash == x
  }

  lemma {:induction false} SamePlace(blocks: Blocks, h: Height, i: nat, h': Height, i': nat)
    requires Separate(blocks) && Present(blocks, h, i) && Present(blocks, h', i')
    requires blocks[h].items[i].tx.transaction.hash == blocks[h'].items[i'].tx.transaction.hash
    ensures h == h' && i == i'
  {
    var x := blocks[h].items[i].tx.transaction.hash;
    assert x in TxHashes(blocks[h]) && x in TxHashes(blocks[h']);
    assert h != h' ==> Apart(blocks[h], blocks[h']);
    assert Well(h, blocks[h]);
  }

  /** What lies under a hash key is the form of the present transaction with that hash, and nothing without one. */
  lemma {:induction false} FiledExactly(store: Store, blocks: Blocks, h: Height, i: nat, family: byte)
    requires Represents(store, blocks) && Separate(blocks) && HashFamily(family) && Present(blocks, h, i)
    ensures Lookup(store, HashKey(family, blocks[h].items[i].tx.transaction.hash)) == Form(blocks[h].items[i], family)
  {
    hide BlockOps, Form, HashKey, Accounted, Separate;
    var item := blocks[h].items[i];
    var k := HashKey(family, item.tx.transaction.hash);
    if Form(item, family).Some? {
      FormWritten(h, blocks[h], i, family);
      assert Written(store, h, blocks[h]);
    } else if k in store {
      HashKeyFamily(family, item.tx.transaction.hash);
      var owner := OwnerOf(store, blocks, k);
      var j := WrittenForm(owner, blocks[owner], family, item.tx.transaction.hash, store[k]);
      SamePlace(blocks, h, i, owner, j);
    }
  }

  lemma {:induction false} HashKeyFamily(family: byte, x: Hash)
    requires HashFamily(family)
    ensures !IsTraceKey(HashKey(family, x))
  {
  }

  /** Nothing is filed under a hash no present transaction has. */
  lemma {:induction false} FiledIsKnown(store: Store, blocks: Blocks, family: byte, x: Hash) returns (h: Height, i: nat)
    requires Represents(store, blocks) && HashFamily(family) && HashKey(family, x) in store
    ensures Present(blocks, h, i) && blocks[h].items[i].tx.transaction.hash == x
  {
    hide BlockOps, Form, HashKey, Represents;
    HashKeyFamily(family, x);
    h := OwnerOf(store, blocks, HashKey(family, x));
    i := WrittenForm(h, blocks[h], family, x, store[HashKey(family, x)]);
  }

  /** What lies under a hash in a family is the form of the present transaction with that hash, if there is one. */
  ghost predicate FiledUnder(store: Store, blocks: Blocks, family: byte, x: Hash) {
    && (HashKey(family, x) in store ==> Known(blocks, x))
    && forall h, i :: Present(blocks, h, i) && blocks[h].items[i].tx.transaction.hash == x ==>
         Lookup(store, HashKey(family, x)) == Form(blocks[h].items[i], family)
  }

  lemma {:induction false} FormsFiled(store: Store, blocks: Blocks, family: byte, x: Hash)
    requires Represents(store, blocks) && Separate(blocks) && HashFamily(family)
    ensures FiledUnder(store, blocks, family, x)
  {
    hide Represents, Separate, Form, HashKey;
    if HashKey(family, x) in store {
      var h, i := FiledIsKnown(store, blocks, family, x);
    }
    forall h, i | Present(blocks, h, i) && blocks[h].items[i].tx.transaction.hash == x
      ensures Lookup(store, HashKey(family, x)) == Form(blocks[h].items[i], family)
    {
      FiledExactly(store, blocks, h, i, family);
    }
  }

  lemma {:induction false} RecordFiled(store: Store, blocks: Blocks, x: Hash)
    requires Represents(store, blocks) && Separate(blocks)
    ensures TxHashKey(x) in store ==> Known(blocks, x)
    ensures forall h, i :: Present(blocks, h, i) && blocks[h].items[i].tx.transaction.hash == x ==>
              blocks[h].items[i].record ==
              if TxHashKey(x) in store && store[TxHashKey(x)].RecordValue? then Some(store[TxHashKey(x)].record)
              else None
  {
    hide Represents, Separate, HashKey, Present, Known;
    FormsFiled(store, blocks, TX_HASH, x);
  }

  /**
   A present transaction in the store, byte for byte of its keys: its receipt,
   its RPC form, its record or else a marker, and its index entries.
   */
  lemma {:induction false} TransactionStored(store: Store, blocks: Blocks, h: Height, i: nat)
    requires Represents(store, blocks) && Separate(blocks) && Present(blocks, h, i)
    ensures var item := blocks[h].items[i];
            var x := item.tx.transaction.hash;
            && Lookup(store, [5] + x) == Some(ReceiptValue(item.tx.receipt))
            && Lookup(store, [3] + x) == Some(RpcTxValue(item.tx.transaction))
            && Lookup(store, [1] + x) == (if item.record.Some? then Some(RecordValue(item.record.value)) else None)
            && Lookup(store, [11] + x) == (if item.record.None? then Some(Marker) else None)
            && Lookup(store, [4] + Word(h) + Word(i)) == Some(HashValue(x))
            && (item.record.Some? ==>
                  Lookup(store, [2] + Word(h) + Word(U64(item.record.value.ethTxIndex))) == Some(HashValue(x)))
  {
    hide Represents, Separate, Word;
    FiledExactly(store, blocks, h, i, RECEIPT);
    FiledExactly(store, blocks, h, i, RPC_TX_HASH);
    FiledExactly(store, blocks, h, i, TX_HASH);
    FiledExactly(store, blocks, h, i, VIRTUAL_RPC_TX);
    IndexEntries(store, blocks, h, i);
  }

  lemma {:induction false} IndexEntries(store: Store, blocks: Blocks, h: Height, i: nat)
    requires Represents(store, blocks) && Separate(blocks) && Present(blocks, h, i)
    ensures var item := blocks[h].items[i];
            && Lookup(store, [4] + Word(h) + Word(i)) == Some(HashValue(item.tx.transaction.hash))
            && (item.record.Some? ==>
                  Lookup(store, [2] + Word(h) + Word(U64(item.record.value.ethTxIndex))) ==
                    Some(HashValue(item.tx.transaction.hash)))
  {
    hide ItemOps, BlockOps, Word, Accounted;
    var item := blocks[h].items[i];
    RpcEntry(h, item);
    assert Well(h, blocks[h]) && ItemWell(h, blocks[h], i);
    ItemOpsIncluded(h, blocks[h], i, Set(RpcTxIndexKey(h, item.tx.receipt.index), HashValue(item.tx.transaction.hash)));
    if item.record.Some? {
      ItemOpsIncluded(h, blocks[h], i,
                      Set(TxIndexKey(h, item.record.value.ethTxIndex), HashValue(item.tx.transaction.hash)));
    }
    assert Written(store, h, blocks[h]);
    Wrapped(h, 0);
    Wrapped(i, 0);
  }

  /** A position is indexed exactly if the block has a transaction there, and under that transaction's hash. */
  lemma {:induction false} PositionFiled(store: Store, blocks: Blocks, h: Height, i: int)
    requires Represents(store, blocks) && Separate(blocks) && -MAX_INT32 - 1 <= i <= MAX_INT32
    ensures RpcTxIndexKey(h, i) in store <==> Present(blocks, h, i)
    ensures Present(blocks, h, i) ==> HashAt(store, RpcTxIndexKey(h, i)) == blocks[h].items[i].tx.transaction.hash
  {
    hide Represents, Separate, Located, Word, Window, ItemOps, HashAt, IndexKey, TxHashes, WellPlaced;
    var k := RpcTxIndexKey(h, i);
    IndexKeyShape(RPC_TX_INDEX, h, i);
    RepresentsLocated(store, blocks);
    if k in store {
      WindowExact(store, blocks, RPC_TX_INDEX, h, k);
      var j := WindowItem(store, blocks, RPC_TX_INDEX, h, k);
      ReceiptIndex(blocks, h, j);
      IndexKeyShape(RPC_TX_INDEX, h, j);
      SmallWordInjective(i, j);
    }
    if Present(blocks, h, i) {
      PositionWritten(store, blocks, h, i);
    }
  }

  lemma {:induction false} ReceiptIndex(blocks: Blocks, h: Height, j: nat)
    requires Separate(blocks) && Present(blocks, h, j)
    ensures blocks[h].items[j].tx.receipt.index == j && j <= MAX_INT32
  {
    assert Well(h, blocks[h]) && ItemWell(h, blocks[h], j);
  }

  lemma {:induction false} PositionWritten(store: Store, blocks: Blocks, h: Height, i: nat)
    requires Represents(store, blocks) && Separate(blocks) && Present(blocks, h, i)
    ensures RpcTxIndexKey(h, i) in store
  {
    hide Word;
    IndexEntries(store, blocks, h, i);
    Wrapped(h, 0);
    Wrapped(i, 0);
  }

  /** A present block in the store: metadata, logs and height by hash. */
  lemma {:induction false} BlockStored(store: Store, blocks: Blocks, h: Height)
    requires Represents(store, blocks) && h in blocks
    ensures Lookup(store, [7] + Word(h)) == Some(MetaValue(blocks[h].meta))
    ensures Lookup(store, [6] + Word(h)) == Some(LogsValue(blocks[h].groups))
    ensures Lookup(store, [8] + blocks[h].meta.hash) == Some(HeightValue(h))
  {
    hide BlockOps, Word, Accounted;
    MetaOpsIncluded(h, blocks[h]);
    assert Written(store, h, blocks[h]);
    Wrapped(h, 0);
  }
}
