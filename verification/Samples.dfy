/** Small concrete inputs on which the code falls short of what one would expect. */
module Samples {
  import opened Common
  import opened ByteOrder
  import opened VirtualLogs
  import opened Synthetic
  import opened BlockModel
  import opened Keys
  import opened KeyOwnership
  import opened IndexFold
  import opened LiveFold
  import opened Agreement
  import opened Gas
  import opened BlockGas
  import opened IndexRefinement
  import opened IndexRuns
  import opened Numbering
  import opened CacheReader
  import opened SharedHashes
  import LogFilter
  import LogQuery
  import Stream

  /** A block of one Cosmos transaction with one Ethereum message, and what is reported of it. */
  datatype Sample = Sample(height: Height, blockHash: Hash, marked: bool, hash: Hash, reported: u64, used: Int64)

  const ONE_HASH: Hash :=
    [0, 0, 0, 0, 0, 0, 0, 0, 0, 0, 0, 0, 0, 0, 0, 0, 0, 0, 0, 0, 0, 0, 0, 0, 0, 0, 0, 0, 0, 0, 0, 1]

  function BlockOf(s: Sample): Block {
    var msg := EthMsg(ZERO_HASH, s.reported, [], None, 0, true, Some(ZERO_ADDRESS), ZERO_ADDRESS, true, Some([]));
    Block(s.height, s.blockHash, ZERO_HASH, [CosmosTx(ZERO_HASH, true, s.marked, [Ethereum(msg)])])
  }

  /** Its result: successful, no events, `reported` gas for the message out of `used`. */
  function ResultsOf(s: Sample): BlockResults {
    var result := TxResult(CODE_OK, false, s.used, true, Some([ParsedTx(s.hash, -1, s.reported, false)]), []);
    BlockResults(Some([Some(result)]), Some([]))
  }

  lemma {:induction false} NoEvents(r: Response, ctx: TxContext)
    requires r.entries == []
    ensures SyntheticTxsOf(r, ctx) == Some([])
  {
  }

  lemma {:induction false} MessageIndexed(cfg: Config, s: Sample, result: TxResult, response: Response)
    requires Some(result) == ResultsOf(s).normalized.value[0]
    ensures var msgs := BlockOf(s).txs[0].msgs;
            var step := IndexMessages(cfg, BlockOf(s), START, 0, result, result.parsed.value, response, msgs, 0, 0);
            && step.Ok? && |step.value.0.items| == 1 && |step.value.0.visible| == (if cfg.virtualization then 1 else 0)
            && step.value.0.rpcTxIndex == 1 && step.value.0.ethTxIndex == 1
            && step.value.0.items[0].tx.transaction.hash == s.hash
            && step.value.0.items[0].tx.receipt.cumulativeGasUsed == s.reported
  {
    hide MessageGroup;
    var block := BlockOf(s);
    var msgs := block.txs[0].msgs;
    var step := IndexMessage(cfg, block, START, 0, result, result.parsed.value, response, 1, 0, msgs[0].eth, 0);
    assert step.Ok?;
    var next := step.value;
    assert IndexMessages(cfg, block, next.0, 0, result, result.parsed.value, response, msgs, 1, next.1) == Ok(next);
  }

  /** What the index holds of a sample: the message if it is marked, nothing otherwise. */
  lemma {:induction false} SampleIndexed(cfg: Config, s: Sample)
    ensures IndexedBlock(cfg, BlockOf(s), Some(ResultsOf(s))).Ok?
    ensures var items := IndexedBlock(cfg, BlockOf(s), Some(ResultsOf(s))).value.items;
            if !s.marked then items == []
            else
              && |items| == 1 && items[0].tx.transaction.hash == s.hash
              && items[0].tx.receipt.cumulativeGasUsed == s.reported
    ensures IndexedBlock(cfg, BlockOf(s), Some(ResultsOf(s))).value.meta.hash == s.blockHash
  {
    hide SyntheticTxsOf, IndexMessages;
    var block, results := BlockOf(s), ResultsOf(s);
    var tx, result, normalized := block.txs[0], results.normalized.value[0].value, results.normalized.value;
    var response := ResponseFor(cfg, result).value;
    assert response.entries == [];
    MessageIndexed(cfg, s, result, response);
    var done := IndexMessages(cfg, block, START, 0, result, result.parsed.value, response, tx.msgs, 0, 0).value;
    NoEvents(response, SyntheticContext(cfg, block, START, tx, 0));
    NoEvents(response, SyntheticContext(cfg, block, done.0, tx, done.1));
    var next := IndexTransaction(cfg, block, normalized, START, 0);
    assert next.Ok?;
    assert IndexTransactions(cfg, block, normalized, next.value, 1) == next;
    assert IndexTransactions(cfg, block, normalized, START, 0) == next;
  }

  /** What the live view shows of it: the message, marked or not. */
  lemma {:induction false} SampleShown(chain: Chain, s: Sample)
    ensures LiveView(chain, BlockOf(s), Some(ResultsOf(s))).Ok?
    ensures |LiveView(chain, BlockOf(s), Some(ResultsOf(s))).value.transactions| == 1
  {
    hide SyntheticTxsOf, MessageLogs;
    var block, results := BlockOf(s), ResultsOf(s);
    var tx, result, normalized := block.txs[0], results.normalized.value[0].value, results.normalized.value;
    var response := Parsed(result.events, result.code, result.gasUsed).value;
    assert response.entries == [];
    var step := LiveMessage(block, EMPTY, result, response, 1, 0, tx.msgs[0].eth, 0);
    assert step.Ok?;
    assert LiveMessages(block, step.value.0, result, response, tx.msgs, 1, step.value.1) == Ok(step.value);
    assert LiveMessages(block, EMPTY, result, response, tx.msgs, 0, 0) == Ok(step.value);
    var live := step.value.0;
    NoEvents(response,
             TxContext(chain, tx.hash, EthereumMessages(tx.msgs), step.value.1, |tx.msgs|, block.hash, block.height,
                                 live.rpcTxIndex, live.logIndex, live.gasBefore));
    var next := LiveTransaction(chain, block, normalized, EMPTY, 0);
    assert next.Ok?;
    assert LiveTransactions(chain, block, normalized, next.value, 1) == next;
    assert LiveTransactions(chain, block, normalized, EMPTY, 0) == next;
  }

  /**
   An unmarked block that the indexer and the backend both accept: the live view
   has a transaction the index lacks.
   */
  lemma {:induction false} UnmarkedBlockDiffers(cfg: Config) returns (block: Block, results: BlockResults)
    requires cfg.virtualization
    ensures !EthereumMarked(block.txs)
    ensures IndexedBlock(cfg, block, Some(results)).Ok? && LiveView(cfg.chain, block, Some(results)).Ok?
    ensures var stored, view := IndexedBlock(cfg, block, Some(results)).value,
            LiveView(cfg.chain, block, Some(results)).value;
            |view.transactions| == |stored.items| + 1 && !SameView(stored.items, stored.groups, view)
  {
    var s := Sample(1, ZERO_HASH, false, ZERO_HASH, 21000, 21000);
    block, results := BlockOf(s), ResultsOf(s);
    hide IndexedBlock, LiveView;
    SampleIndexed(cfg, s);
    SampleShown(cfg.chain, s);
    assert block.txs[0].msgs[0].Ethereum?;
    ViewsAgreeIffMarked(cfg, block, results);
  }

  /** A block whose gas fits and whose last receipt still stays below the block's gas. */
  lemma {:induction false} LastReceiptFallsShort(cfg: Config) returns (block: Block, results: BlockResults)
    ensures IndexedBlock(cfg, block, Some(results)).Ok? && AllFit(cfg, block, results.normalized.value)
    ensures var stored := IndexedBlock(cfg, block, Some(results)).value;
            stored.items != [] && End(stored.items) == 5 && stored.meta.gasUsed == 10
  {
    var s := Sample(1, ZERO_HASH, true, ZERO_HASH, 5, 10);
    block, results := BlockOf(s), ResultsOf(s);
    hide IndexedBlock;
    SampleIndexed(cfg, s);
    StoredGas(cfg, block, Some(results));
    var tx, result := block.txs[0], results.normalized.value[0].value;
    assert GasFrom(results.normalized.value, 1, 1) == 0;
    assert ResponseFor(cfg, result).value.entries == [];
    assert EthereumGasFrom(result, tx.msgs, 1) == 0;
  }

  function IndexOf(cfg: Config, s: Sample): Action {
    Index(cfg, BlockOf(s), Some(ResultsOf(s)))
  }

  lemma {:induction false} SampleStored(cfg: Config, s: Sample)
    requires s.marked
    ensures Sized(IndexOf(cfg, s)) && Resets(IndexOf(cfg, s)) == Some(s.height)
    ensures Stores(IndexOf(cfg, s)).Some?
    ensures var b := Stores(IndexOf(cfg, s)).value;
            b.meta.hash == s.blockHash && |b.items| == 1 && b.items[0].tx.transaction.hash == s.hash
  {
    hide IndexedBlock;
    SampleIndexed(cfg, s);
  }

  /** A run that stores a transaction with the all-zero hash, which the cached-block reader rejects. */
  lemma {:induction false} ZeroHashStored(cfg: Config) returns (run: seq<Action>)
    ensures SizedRun(run) && NoHashRecurs(map[], run)
    ensures 1 in RunBlocks(map[], run) && !NoZeroHash(HashesOf(RunBlocks(map[], run)[1].items))
  {
    var s := Sample(1, ZERO_HASH, true, ZERO_HASH, 21000, 21000);
    run := [IndexOf(cfg, s)];
    hide IndexedBlock;
    SampleIndexed(cfg, s);
    assert run[..0] == [];
    var b := IndexedBlock(cfg, BlockOf(s), Some(ResultsOf(s))).value;
    assert RunBlocks(map[], run) == map[1 := b];
    assert HashesOf(b.items)[0] == ZERO_HASH;
  }

  lemma {:induction false} TwoSteps(a: Action, a': Action)
    ensures RunStore(map[], [a, a']) == StepStore(StepStore(map[], a), a')
    ensures RunBlocks(map[], [a, a']) == StepBlocks(StepBlocks(map[], a), a')
  {
    hide StepStore, StepBlocks;
    assert [a, a'][..1] == [a] && [a][..0] == [];
    assert RunStore(map[], [a]) == StepStore(map[], a);
    assert RunBlocks(map[], [a]) == StepBlocks(map[], a);
  }

  lemma {:induction false} StoringStep(store: Store, blocks: Blocks, a: Action)
    requires Stores(a).Some?
    ensures Resets(a).Some? && StepStore(store, a) == Reindexed(store, Resets(a).value, Stores(a).value)
    ensures StepBlocks(blocks, a) == blocks[Resets(a).value := Stores(a).value]
  {
    hide IndexedBlock, Reindexed;
  }

  /** Whichever two blocks at different heights consist of one transaction each, with one hash. */
  lemma {:induction false} SecondTakesOver(a: Action, a': Action, h: Height, h': Height, x: Hash)
    requires Sized(a) && Sized(a') && Stores(a).Some? && Stores(a').Some? && Resets(a) == Some(h) &&
             Resets(a') == Some(h') && h != h'
    requires HashesOf(Stores(a).value.items) == [x] == HashesOf(Stores(a').value.items) && x != ZERO_HASH
    requires Stores(a).value.meta.hash != Stores(a').value.meta.hash
    ensures RunBlocks(map[], [a, a']) == map[h := Stores(a).value, h' := Stores(a').value]
    ensures CheckTx(RunStore(map[], [a, a']), Stores(a).value.meta, x, 0, true) == Err(BadBlockHash)
  {
    hide CheckTx, Located, Attributed, WellPlaced, Reindexed, Sized, Stores, Resets, StepStore, StepBlocks, RunStore,
         RunBlocks;
    var b, b' := Stores(a).value, Stores(a').value;
    TwoSteps(a, a');
    EmptyRepresents();
    StepRefines(map[], map[], a);
    StoringStep(map[], map[], a);
    StoringStep(StepStore(map[], a), StepBlocks(map[], a), a');
    StoresPlaced(a');
    assert HashesOf(b.items)[0] == x && HashesOf(b'.items)[0] == x;
    assert b'.items[0].tx.transaction.hash in TxHashes(b');
    LaterTakesOver(StepStore(map[], a), StepBlocks(map[], a), h, 0, h', b');
  }

  /** A run in which one transaction hash is indexed at heights 1 and 2: block 1 can no longer be read back. */
  lemma {:induction false} HashRecurs(cfg: Config) returns (run: seq<Action>)
    ensures SizedRun(run) && 1 in RunBlocks(map[], run) && 2 in RunBlocks(map[], run)
    ensures var b := RunBlocks(map[], run)[1];
            && HashesOf(b.items) == [ONE_HASH] == HashesOf(RunBlocks(map[], run)[2].items)
            && CheckTx(RunStore(map[], run), b.meta, ONE_HASH, 0, true) == Err(BadBlockHash)
  {
    hide IndexOf, CheckTx, Sized, Stores, Resets, RunStore, RunBlocks;
    var s, s' := Sample(1, ZERO_HASH, true, ONE_HASH, 21000, 21000), Sample(2, ONE_HASH, true, ONE_HASH, 21000, 21000);
    run := [IndexOf(cfg, s), IndexOf(cfg, s')];
    SampleStored(cfg, s);
    SampleStored(cfg, s');
    assert ONE_HASH[31] != ZERO_HASH[31];
    SecondTakesOver(run[0], run[1], 1, 2, ONE_HASH);
  }

  // ---------- inputs of other components ----------

  /** One item in a segment with room for four: reading at offset 2 slices out of range. */
  lemma {:induction false} FutureReadPanics()
    ensures Stream.ReadOf([7], 4, 1, 2).Panics?
  {
    Stream.PanicsExactly([7], 4, 1, 2);
  }

  /** Among the keys from height 255 to 256 is one that does not start with height 255. */
  lemma {:induction false} ShortKeyInWindow(family: byte) returns (k: Bytes)
    ensures InRange(k, HeightPrefix(family, 255), Some(HeightPrefix(family, 256))) && !(HeightPrefix(family, 255) <= k)
  {
    k := [family, 0, 0, 0, 0, 0, 0, 1];
    var filled := [family, 0, 0, 0, 0, 0, 0, 1, 0];
    assert Padded(k, 9) == filled;
    assert filled[1..9] == [0, 0, 0, 0, 0, 0, 1, 0];
    ValueOf256();
    PrefixIsValue(filled, family, 256);
    assert |HeightPrefix(family, 256)| == 9;
    HeightWindowExact(k, family, 255);
  }

  lemma {:induction false} ValueOf256()
    ensures ByteOrder.Value([0, 0, 0, 0, 0, 0, 1, 0]) == 256
  {
    assert ByteOrder.Value([0]) == 0;
    assert [1, 0][1..] == [0] && ByteOrder.Value([1, 0]) == 256;
    assert [0, 1, 0][1..] == [1, 0] && ByteOrder.Value([0, 1, 0]) == 256;
    assert [0, 0, 1, 0][1..] == [0, 1, 0] && ByteOrder.Value([0, 0, 1, 0]) == 256;
    assert [0, 0, 0, 1, 0][1..] == [0, 0, 1, 0] && ByteOrder.Value([0, 0, 0, 1, 0]) == 256;
    assert [0, 0, 0, 0, 1, 0][1..] == [0, 0, 0, 1, 0] && ByteOrder.Value([0, 0, 0, 0, 1, 0]) == 256;
    assert [0, 0, 0, 0, 0, 1, 0][1..] == [0, 0, 0, 0, 1, 0] && ByteOrder.Value([0, 0, 0, 0, 0, 1, 0]) == 256;
    assert [0, 0, 0, 0, 0, 0, 1, 0][1..] == [0, 0, 0, 0, 0, 1, 0];
  }

  /**
   A nil log and a filter for the zero address: filtering while decoding finds
   nothing, filtering afterwards one log.
   */
  lemma {:induction false} NilLogOverlooked()
    ensures var records, c := LogFilter.EncodeSlots([None]), LogFilter.Criteria([ZERO_ADDRESS], []);
            && LogFilter.Fused(records, c) == []
            && LogFilter.Matching(LogFilter.DecodeAll(records), c) == [LogFilter.Decode(LogFilter.BLANK)]
  {
    var records, c := LogFilter.EncodeSlots([None]), LogFilter.Criteria([ZERO_ADDRESS], []);
    assert records == [LogFilter.BLANK];
    assert LogFilter.DecodeAll(records) == [LogFilter.Decode(LogFilter.BLANK)];
  }

  const SAMPLE_LOG: RpcLog := RpcLog(ZERO_ADDRESS, [], [], 1, ZERO_HASH, 0, ZERO_HASH, 0, false, false, None, None)

  /**
   A block with one matching log and a bloom that cannot be read: the query by
   hash finds nothing and reports no error.
   */
  method UnreadableBloomLosesMatch(bits: Bytes -> LogQuery.Bloom) returns (r: Result<seq<RpcLog>, LogQuery.QueryError>)
    ensures r == Ok([]) && LogFilter.Matching([SAMPLE_LOG], LogFilter.Criteria([], [])) == [SAMPLE_LOG]
  {
    var backend := LogQuery.Backend(Ok(Some(1)), _ => Err(()), _ => Ok([SAMPLE_LOG]));
    r := LogQuery.BlockLogs(backend, bits, LogFilter.Criteria([], []), Ok(Some(1)), Ok([SAMPLE_LOG]),
                            _ => [SAMPLE_LOG]);
  }
}
