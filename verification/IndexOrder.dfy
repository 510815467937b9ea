/** The order of a height's index keys is the order of its transactions. */
module IndexOrder {
  import opened Common
  import opened ByteOrder
  import opened BlockModel
  import opened Keys
  import opened KeyScan
  import opened KeyOwnership
  import opened IndexRefinement
  import opened Numbering

  function IndexKeys(h: Height, n: nat): seq<Bytes> {
    seq(n, i requires 0 <= i < n => RpcTxIndexKey(h, i))
  }

  lemma {:induction false} IndexKeysAscend(h: Height, n: nat)
    requires n <= MAX_INT32
    ensures Ascending(IndexKeys(h, n))
  {
    forall i, j | 0 <= i < j < n ensures Less(IndexKeys(h, n)[i], IndexKeys(h, n)[j]) {
      LessSamePrefix(HeightPrefix(RPC_TX_INDEX, h), Word(U64(i)), Word(U64(j)));
      WordOrder(U64(i), U64(j));
    }
  }

  lemma {:induction false} WindowListed(store: Store, blocks: Blocks, h: Height)
    requires Located(store, blocks) && h in blocks
    ensures Lists(IndexKeys(h, |blocks[h].items|), Window(store, RPC_TX_INDEX, h))
  {
    var b := blocks[h];
    var keys := IndexKeys(h, |b.items|);
    assert WellPlaced(h, b);
    IndexKeysAscend(h, |b.items|);
    forall k ensures k in keys <==> k in Window(store, RPC_TX_INDEX, h) {
      if k in Window(store, RPC_TX_INDEX, h) {
        var i := WindowItem(store, blocks, RPC_TX_INDEX, h, k);
        assert ItemWell(h, b, i);
        assert keys[i] == k;
      }
      if k in keys {
        var i :| 0 <= i < |keys| && keys[i] == k;
        assert ItemWell(h, b, i);
        RpcEntry(h, b.items[i]);
        IndexKeyInWindow(store, blocks, h, i, RPC_TX_INDEX, i);
      }
    }
  }

  /** Scanning a present height yields its transaction hashes in increasing transaction index. */
  lemma {:induction false} HashesInOrder(store: Store, blocks: Blocks, h: Height, keys: seq<Bytes>, hashes: seq<Hash>)
    requires Located(store, blocks) && h in blocks
    requires Lists(keys, Window(store, RPC_TX_INDEX, h)) && |keys| == |hashes|
    requires forall i :: 0 <= i < |keys| ==> hashes[i] == HashAt(store, keys[i])
    ensures hashes == HashesOf(blocks[h].items)
  {
    var items := blocks[h].items;
    WindowListed(store, blocks, h);
    ListsUnique(keys, IndexKeys(h, |items|), Window(store, RPC_TX_INDEX, h));
    forall i | 0 <= i < |items| ensures hashes[i] == items[i].tx.transaction.hash {
      assert WellPlaced(h, blocks[h]) && ItemWell(h, blocks[h], i);
      RpcEntry(h, items[i]);
      IndexKeyInWindow(store, blocks, h, i, RPC_TX_INDEX, i);
    }
  }
}
