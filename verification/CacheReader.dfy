/** Reading a cached block back: every consistency check the reader makes is met by what the indexer wrote. */
module CacheReader {
  import opened Common
  import opened VirtualLogs
  import opened BlockModel
  import opened Keys
  import opened KeyScan
  import opened KeyOwnership
  import opened IndexRefinement
  import opened FiledForms
  import opened Numbering
  import opened IndexOrder
  import opened Indexer

  datatype ReadError = CountMismatch | HashMissing | TxMissing | BadBlockHash | BadBlockNumber | BadIndex

  datatype CachedTx = HashOnly(hash: Hash) | Full(tx: RpcTx)

  /** The check of one cached transaction. */
  function CheckTx(store: Store, meta: BlockMeta, hash: Hash, i: nat, fullTx: bool): Result<CachedTx, ReadError> {
    if hash == ZERO_HASH then Err(HashMissing)
    else if !fullTx then Ok(HashOnly(hash))
    else if RpcTxHashKey(hash) !in store || !store[RpcTxHashKey(hash)].RpcTxValue? then Err(TxMissing)
    else
      var tx := store[RpcTxHashKey(hash)].tx;
      if tx.blockHash != meta.hash then Err(BadBlockHash)
      else if tx.blockNumber != meta.height then Err(BadBlockNumber)
      else if tx.index != i then Err(BadIndex)
      else Ok(Full(tx))
  }

  function CheckAll(
      store: Store, meta: BlockMeta, hashes: seq<Hash>, n: nat, fullTx: bool): Result<seq<CachedTx>, ReadError>
    requires n <= |hashes|
  {
    if n == 0 then Ok([])
    else
      var before :- CheckAll(store, meta, hashes, n - 1, fullTx);
      var last :- CheckTx(store, meta, hashes[n - 1], n - 1, fullTx);
      Ok(before + [last])
  }

  /** Reads and checks one cached transaction. */
  method ReadTx(
      kv: KVIndexer, meta: BlockMeta, hash: Hash, i: nat, fullTx: bool)
    returns (r: Result<CachedTx, ReadError>)
    ensures r == CheckTx(kv.db, meta, hash, i, fullTx)
  {
    if hash == ZERO_HASH {
      return Err(HashMissing);
    }
    if !fullTx {
      return Ok(HashOnly(hash));
    }
    if RpcTxHashKey(hash) !in kv.db || !kv.db[RpcTxHashKey(hash)].RpcTxValue? {
      return Err(TxMissing);
    }
    var tx := kv.db[RpcTxHashKey(hash)].tx;
    if tx.blockHash != meta.hash {
      return Err(BadBlockHash);
    }
    if tx.blockNumber != meta.height {
      return Err(BadBlockNumber);
    }
    if tx.index != i {
      return Err(BadIndex);
    }
    return Ok(Full(tx));
  }

  /** The reader's loop: the count, then every listed transaction, stopping at the first failure. */
  method ReadListed(kv: KVIndexer, meta: BlockMeta, fullTx: bool)
    returns (r: Result<seq<CachedTx>, ReadError>, ghost hashes: seq<Hash>)
    ensures meta.ethTxCount == 0 ==> r == Ok([])
    ensures meta.ethTxCount > 0 && |hashes| != meta.ethTxCount ==> r == Err(CountMismatch)
    ensures meta.ethTxCount > 0 && |hashes| == meta.ethTxCount ==> r == CheckAll(kv.db, meta, hashes, |hashes|, fullTx)
    ensures exists keys :: Lists(keys, Window(kv.db, RPC_TX_INDEX, meta.height)) && |keys| == |hashes| &&
                           forall i :: 0 <= i < |keys| ==> hashes[i] == HashAt(kv.db, keys[i])
  {
    hide CheckTx, Lists, Window, HashAt;
    ghost var keys;
    var found;
    found, keys := kv.TransactionHashes(meta.height);
    hashes := found;
    if meta.ethTxCount == 0 {
      return Ok([]), hashes;
    }
    if |found| != meta.ethTxCount {
      return Err(CountMismatch), hashes;
    }
    var transactions := [];
    for i := 0 to |found|
      invariant CheckAll(kv.db, meta, hashes, i, fullTx) == Ok(transactions)
    {
      var tx := ReadTx(kv, meta, found[i], i, fullTx);
      if tx.Err? {
        FailsFrom(kv.db, meta, hashes, i + 1, |hashes|, fullTx);
        return Err(tx.error), hashes;
      }
      transactions := transactions + [tx.value];
    }
    r := Ok(transactions);
  }

  lemma {:induction false} FailsFrom(store: Store, meta: BlockMeta, hashes: seq<Hash>, n: nat, m: nat, fullTx: bool)
    requires n <= m <= |hashes| && CheckAll(store, meta, hashes, n, fullTx).Err?
    ensures CheckAll(store, meta, hashes, m, fullTx) == CheckAll(store, meta, hashes, n, fullTx)
    decreases m
  {
    hide CheckTx;
    if n < m {
      FailsFrom(store, meta, hashes, n, m - 1, fullTx);
    }
  }

  lemma {:induction false} StoredTx(store: Store, blocks: Blocks, h: Height, i: nat)
    requires Represents(store, blocks) && Separate(blocks) && h in blocks && i < |blocks[h].items|
    ensures var tx := blocks[h].items[i].tx.transaction;
            && RpcTxHashKey(tx.hash) in store && store[RpcTxHashKey(tx.hash)] == RpcTxValue(tx)
            && tx.blockHash == blocks[h].meta.hash && tx.blockNumber == h && tx.index == i && blocks[h].meta.height == h
  {
    FiledExactly(store, blocks, h, i, RPC_TX_HASH);
    assert Well(h, blocks[h]);
    assert ItemWell(h, blocks[h], i);
  }

  lemma {:induction false} CheckPasses(store: Store, blocks: Blocks, h: Height, i: nat, fullTx: bool)
    requires Represents(store, blocks) && Separate(blocks) && h in blocks && i < |blocks[h].items|
    ensures var tx := blocks[h].items[i].tx.transaction;
            CheckTx(store, blocks[h].meta, tx.hash, i, fullTx) ==
            if tx.hash == ZERO_HASH then Err(HashMissing) else Ok(Expected(blocks[h].items, fullTx)[i])
  {
    StoredTx(store, blocks, h, i);
  }

  /** What a present block reads back as. */
  function Expected(items: seq<Item>, fullTx: bool): seq<CachedTx> {
    seq(|items|, i requires 0 <= i < |items| =>
        if fullTx then Full(items[i].tx.transaction) else HashOnly(items[i].tx.transaction.hash))
  }

  ghost predicate NoZeroHash(hashes: seq<Hash>) {
    forall i :: 0 <= i < |hashes| ==> hashes[i] != ZERO_HASH
  }

  lemma {:induction false} ChecksCompose(
      store: Store, meta: BlockMeta, hashes: seq<Hash>, expected: seq<CachedTx>, n: nat, fullTx: bool)
    requires n <= |hashes| == |expected|
    requires forall i :: 0 <= i < n ==>
      CheckTx(store, meta, hashes[i], i, fullTx) == if hashes[i] == ZERO_HASH then Err(HashMissing) else Ok(expected[i])
    ensures CheckAll(store, meta, hashes, n, fullTx) ==
            if NoZeroHash(hashes[..n]) then Ok(expected[..n]) else Err(HashMissing)
  {
    hide CheckTx;
    if n > 0 {
      ChecksCompose(store, meta, hashes, expected, n - 1, fullTx);
      assert expected[..n] == expected[..n - 1] + [expected[n - 1]];
      assert hashes[..n] == hashes[..n - 1] + [hashes[n - 1]];
    }
  }

  /** The listing of a present height has its count and its hashes in order, whatever hashes recur. */
  lemma {:induction false} ListingExact(store: Store, blocks: Blocks, h: Height, keys: seq<Bytes>, hashes: seq<Hash>)
    requires Located(store, blocks) && h in blocks
    requires Lists(keys, Window(store, RPC_TX_INDEX, h)) && |keys| == |hashes|
    requires forall i :: 0 <= i < |keys| ==> hashes[i] == HashAt(store, keys[i])
    ensures hashes == HashesOf(blocks[h].items) && |hashes| == blocks[h].meta.ethTxCount
  {
    HashesInOrder(store, blocks, h, keys, hashes);
    assert WellPlaced(h, blocks[h]);
  }

  /**
   On a store that represents blocks the reader's count, block-hash,
   block-number and index checks all pass for a present height; it returns the
   block's transactions in order, unless one of them has the all-zero hash,
   which it rejects.
   */
  lemma {:induction false} CachedReadSucceeds(
      store: Store, blocks: Blocks, h: Height, keys: seq<Bytes>, hashes: seq<Hash>, fullTx: bool)
    requires Represents(store, blocks) && Separate(blocks) && h in blocks
    requires Lists(keys, Window(store, RPC_TX_INDEX, h)) && |keys| == |hashes|
    requires forall i :: 0 <= i < |keys| ==> hashes[i] == HashAt(store, keys[i])
    ensures |hashes| == blocks[h].meta.ethTxCount
    ensures CheckAll(store, blocks[h].meta, hashes, |hashes|, fullTx) ==
            if NoZeroHash(HashesOf(blocks[h].items)) then Ok(Expected(blocks[h].items, fullTx)) else Err(HashMissing)
  {
    hide Represents, Separate, Located, CheckTx;
    RepresentsLocated(store, blocks);
    ListingExact(store, blocks, h, keys, hashes);
    var items := blocks[h].items;
    forall i | 0 <= i < |items|
      ensures CheckTx(store, blocks[h].meta, HashesOf(items)[i], i, fullTx) ==
              if items[i].tx.transaction.hash == ZERO_HASH then Err(HashMissing) else Ok(Expected(items, fullTx)[i])
    {
      CheckPasses(store, blocks, h, i, fullTx);
    }
    var expected := Expected(items, fullTx);
    ChecksCompose(store, blocks[h].meta, HashesOf(items), expected, |items|, fullTx);
    assert expected[..|items|] == expected && HashesOf(items)[..|items|] == HashesOf(items);
  }

  /**
   Reads a block's transactions back through its metadata. On any store that
   locates a block the count agrees and the answer is that of the checks on its
   transactions in order; on any store that represents blocks all checks pass
   and the transactions are returned, unless one has the all-zero hash.
   */
  method CachedBlockTransactions(
      kv: KVIndexer, meta: BlockMeta, fullTx: bool)
    returns (r: Result<seq<CachedTx>, ReadError>)
    ensures forall blocks: Blocks ::
      Located(kv.db, blocks) && meta.height in blocks && blocks[meta.height].meta == meta ==>
        var hashes := HashesOf(blocks[meta.height].items);
        r == CheckAll(kv.db, meta, hashes, |hashes|, fullTx)
    ensures forall blocks: Blocks ::
      Represents(kv.db, blocks) && Separate(blocks) && meta.height in blocks && blocks[meta.height].meta == meta ==>
        r == if NoZeroHash(HashesOf(blocks[meta.height].items)) then Ok(Expected(blocks[meta.height].items, fullTx))
             else Err(HashMissing)
  {
    hide CheckTx, CheckAll, Lists, Window, HashAt, Located, Represents, Separate, NoZeroHash, Expected;
    ghost var hashes;
    r, hashes := ReadListed(kv, meta, fullTx);
    ghost var keys :| Lists(keys, Window(kv.db, RPC_TX_INDEX, meta.height)) && |keys| == |hashes| &&
                      forall i :: 0 <= i < |keys| ==> hashes[i] == HashAt(kv.db, keys[i]);
    NothingToCheck(kv.db, meta, hashes, fullTx);
    forall blocks: Blocks | Located(kv.db, blocks) && meta.height in blocks && blocks[meta.height].meta == meta
      ensures var hashes := HashesOf(blocks[meta.height].items);
              r == CheckAll(kv.db, meta, hashes, |hashes|, fullTx)
    {
      ListingExact(kv.db, blocks, meta.height, keys, hashes);
    }
    forall blocks: Blocks |
      Represents(kv.db, blocks) && Separate(blocks) && meta.height in blocks && blocks[meta.height].meta == meta
      ensures var items := blocks[meta.height].items;
              r == if NoZeroHash(HashesOf(items)) then Ok(Expected(items, fullTx)) else Err(HashMissing)
    {
      CachedReadSucceeds(kv.db, blocks, meta.height, keys, hashes, fullTx);
    }
  }

  lemma {:induction false} NothingToCheck(store: Store, meta: BlockMeta, hashes: seq<Hash>, fullTx: bool)
    ensures hashes == [] ==> CheckAll(store, meta, hashes, |hashes|, fullTx) == Ok([])
  {
  }
}
