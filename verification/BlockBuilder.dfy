/** The indexer's loops over a block, updating counters, log groups and a write batch in place. */
module BlockBuilder {
  import opened Common
  import opened VirtualLogs
  import opened Synthetic
  import opened BlockModel
  import opened Keys
  import opened IndexFold

  lemma {:induction false} AppendOps(prefix: seq<Op>, height: Height, items: seq<Item>, item: Item)
    ensures prefix + ItemsOps(height, items + [item]) == prefix + ItemsOps(height, items) + ItemOps(height, item)
  {
    assert (items + [item])[..|items|] == items;
  }

  method ReadOutcome(
      msg: EthMsg, result: TxResult, parsed: seq<ParsedTx>, m: nat, ethTxIndex: nat)
    returns (r: Result<EthOutcome, IndexError>)
    ensures r == Outcome(msg, result, parsed, m, ethTxIndex)
  {
    if result.code != CODE_OK && !result.evmCodespace {
      return Ok(EthOutcome(msg.hash, msg.gas, true));
    }
    if m >= |parsed| {
      return Err(MsgIndexMissing);
    }
    if parsed[m].ethTxIndex >= 0 && parsed[m].ethTxIndex != ethTxIndex {
      return Err(EthTxIndexMismatch);
    }
    return Ok(EthOutcome(parsed[m].hash, parsed[m].gasUsed, parsed[m].failed));
  }

  class Builder {
    const cfg: Config
    const block: Block
    ghost const prefix: seq<Op>

    var batch: seq<Op>
    var blockLogs: seq<seq<RpcLog>>
    var flatLogs: seq<RpcLog>
    var visible: seq<Hash>
    var logIndex: nat
    var rpcTxIndex: nat
    var ethTxIndex: nat
    var gasBefore: u64
    var gasUsed: u64
    ghost var items: seq<Item>

    ghost function State(): Acc
      reads this
    {
      Acc(items, blockLogs, flatLogs, visible, logIndex, rpcTxIndex, ethTxIndex, gasBefore, gasUsed)
    }

    /** The batch holds the operations it started with and the writes of every item so far. */
    ghost predicate Valid()
      reads this
    {
      batch == prefix + ItemsOps(block.height, items)
    }

    constructor (cfg: Config, block: Block, batch: seq<Op>)
      ensures Valid() && this.cfg == cfg && this.block == block && prefix == batch
      ensures State() == START
    {
      this.cfg, this.block, this.prefix, this.batch := cfg, block, batch, batch;
      blockLogs, flatLogs, visible, items := [], [], [], [];
      logIndex, rpcTxIndex, ethTxIndex, gasBefore, gasUsed := 0, 0, 0, 0, 0;
    }

    /** Queues the writes of one visible transaction. */
    method QueueWrites(tx: Tx, record: Option<EthRecord>)
      requires Valid()
      modifies this`batch, this`items
      ensures Valid() && items == old(items) + [Item(tx, record)]
    {
      ghost var item := Item(tx, record);
      AppendOps(prefix, block.height, items, item);
      var writes := if record.Some? then EthereumOps(block.height, tx, record.value) else VirtualOps(block.height, tx);
      assert writes == ItemOps(block.height, item);
      batch := batch + writes;
      items := items + [item];
    }

    /** Queues one visible transaction and appends its hash and log group. */
    method AppendVisible(tx: Tx, record: Option<EthRecord>)
      requires Valid()
      modifies this
      ensures Valid() && State() == Visible(cfg, old(State()), Item(tx, record))
    {
      hide ItemsOps;
      QueueWrites(tx, record);
      if record.Some? {
        ethTxIndex := ethTxIndex + 1;
      }
      if cfg.virtualization {
        visible := visible + [tx.transaction.hash];
      }
      blockLogs := blockLogs + [tx.receipt.logs];
      flatLogs := flatLogs + tx.receipt.logs;
      rpcTxIndex := rpcTxIndex + 1;
    }

    method StoreVirtualTx(tx: Tx)
      requires Valid()
      modifies this
      ensures Valid() && State() == StoreVirtual(cfg, old(State()), tx)
    {
      hide ItemsOps;
      logIndex := logIndex + |tx.receipt.logs|;
      AppendVisible(tx, None);
    }

    method StoreVirtualTxs(txs: seq<Tx>)
      requires Valid()
      modifies this
      ensures Valid() && State() == StoreVirtuals(cfg, old(State()), txs)
    {
      for i := 0 to |txs|
        invariant Valid() && State() == StoreVirtuals(cfg, old(State()), txs[..i])
      {
        assert txs[..i + 1][..i] == txs[..i];
        StoreVirtualTx(txs[i]);
      }
      assert txs[..|txs|] == txs;
    }

    /** The begin or end phase, if it has events. */
    method StorePhase(hash: Hash, events: seq<EthLog>, gas: u64)
      requires Valid()
      modifies this
      ensures Valid()
      ensures State() == if events == [] then old(State())
                         else StoreVirtual(cfg, old(State()),
                                           NewBlockTx(hash, events,
                                                      ContextFor(block, old(State()), hash, old(rpcTxIndex)), gas))
    {
      if events != [] {
        var ctx := LogContext(block.hash, block.height, hash, rpcTxIndex, logIndex, None);
        var logs := NumberLogs(WrapLogs(events, true, None), ctx);
        StoreVirtualTx(Tx(
          RpcTx(hash, block.hash, block.height, rpcTxIndex, ZERO_ADDRESS, Some(BANK_CONTRACT), 0, [], LEGACY_TX_TYPE,
                true, None, None),
          Receipt(STATUS_SUCCESSFUL, gas, 0, logs, hash, None, block.hash, block.height, rpcTxIndex, ZERO_ADDRESS,
                  Some(BANK_CONTRACT), LEGACY_TX_TYPE)));
      }
    }

    /** Native and virtual logs of one message; advances the log counter past them. */
    method CollectLogs(
        native: seq<EthLog>, response: Response, m: nat, total: nat, hash: Hash, index: nat)
      returns (logs: seq<RpcLog>)
      modifies this`logIndex
      ensures logs == MessageGroup(cfg, block, old(State()), native, response, m, total, hash, index)
      ensures logIndex == old(logIndex) + if cfg.virtualization then |logs| else 0
    {
      logs := WrapLogs(native, false, None);
      if cfg.virtualization {
        ghost var before := State();
        logs := NumberLogs(logs, LogContext(block.hash, block.height, hash, index, logIndex, None));
        logIndex := logIndex + |logs|;
        var virtualLogs :=
            LogsForMessage(response, m, total, LogContext(block.hash, block.height, hash, index, logIndex, None));
        logIndex := logIndex + |virtualLogs|;
        logs := logs + virtualLogs;
      }
    }

    method IndexEthMessage(
        i: nat, result: TxResult, parsed: seq<ParsedTx>, response: Response, total: nat, m: nat, msg: EthMsg,
        spent: u64)
      returns (r: Result<u64, IndexError>)
      requires Valid()
      modifies this
      ensures Valid()
      ensures var step := IndexMessage(cfg, block, old(State()), i, result, parsed, response, total, m, msg, spent);
              if r.Ok? then step == Ok((State(), r.value)) else step == Err(r.error)
    {
      hide ItemsOps, MessageGroup;
      var index := if cfg.virtualization then rpcTxIndex else ethTxIndex;
      var outcome := ReadOutcome(msg, result, parsed, m, ethTxIndex);
      if outcome.Err? {
        return Err(outcome.error);
      }
      var EthOutcome(hash, gas, failed) := outcome.value;
      var cumulative := Add64(spent, gas);
      if !msg.unpacks {
        return Err(UnpackFailed);
      }
      var native: seq<EthLog> := [];
      if result.hasData {
        if msg.decodedLogs.None? {
          return Err(LogsFailed);
        }
        native := msg.decodedLogs.value;
      } else if !failed {
        return Err(DataMissing);
      }
      if msg.sender.None? {
        return Err(SenderFailed);
      }
      if !msg.builds {
        return Err(RpcTxFailed);
      }
      StoreEthTx(i, m, msg, hash, gas, failed, cumulative, native, response, total, index);
      return Ok(cumulative);
    }

    method StoreEthTx(
        i: nat, m: nat, msg: EthMsg, hash: Hash, gas: u64, failed: bool, cumulative: u64, native: seq<EthLog>,
        response: Response, total: nat, index: nat)
      requires Valid() && msg.sender.Some?
      modifies this
      ensures Valid()
      ensures var acc := old(State());
              var logs := MessageGroup(cfg, block, acc, native, response, m, total, hash, index);
              var tx := EthTx(block, acc, msg, msg.sender.value, EthOutcome(hash, gas, failed), cumulative, logs,
                              index);
              var record := EthRecord(block.height, i, m, acc.ethTxIndex, failed, gas, cumulative);
              State() ==
                Visible(cfg, acc, Item(tx, Some(record))).(
                  logIndex := acc.logIndex + if cfg.virtualization then |logs| else 0)
    {
      hide ItemsOps, MessageGroup;
      var logs := CollectLogs(native, response, m, total, hash, index);
      var record := EthRecord(block.height, i, m, ethTxIndex, failed, gas, cumulative);
      var tx := Tx(
        RpcTx(hash, block.hash, block.height, index, msg.sender.value, msg.to, msg.gas, msg.input, msg.txType, false,
              None, None),
        Receipt(if failed then STATUS_FAILED else STATUS_SUCCESSFUL, Add64(gasBefore, cumulative), gas, logs, hash,
                if msg.to.None? then Some(msg.created) else None,
                block.hash, block.height, index, msg.sender.value, msg.to, msg.txType));
      AppendVisible(tx, Some(record));
    }

    method IndexEthMessages(
        i: nat, result: TxResult, parsed: seq<ParsedTx>, response: Response, msgs: seq<Msg>)
      returns (r: Result<u64, IndexError>)
      requires Valid()
      modifies this
      ensures Valid()
      ensures var all := IndexMessages(cfg, block, old(State()), i, result, parsed, response, msgs, 0, 0);
              if r.Ok? then all == Ok((State(), r.value)) else all == Err(r.error)
    {
      var spent: u64 := 0;
      for m := 0 to |msgs|
        invariant Valid()
        invariant IndexMessages(cfg, block, old(State()), i, result, parsed, response, msgs, 0, 0) ==
                  IndexMessages(cfg, block, State(), i, result, parsed, response, msgs, m, spent)
      {
        if msgs[m].Other? {
          continue;
        }
        var step := IndexEthMessage(i, result, parsed, response, |msgs|, m, msgs[m].eth, spent);
        if step.Err? {
          return Err(step.error);
        }
        spent := step.value;
      }
      return Ok(spent);
    }

    method AddSynthetic(tx: CosmosTx, response: Response, ethereumGas: u64) returns (error: Option<IndexError>)
      requires Valid()
      modifies this
      ensures Valid()
      ensures var all := IndexSynthetic(cfg, block, old(State()), tx, response, ethereumGas);
              if error.None? then all == Ok(State()) else all == Err(error.value)
    {
      if !cfg.virtualization {
        return None;
      }
      var messages: set<int> := {};
      for m := 0 to |tx.msgs|
        invariant messages == set j | 0 <= j < m && tx.msgs[j].Ethereum?
      {
        if tx.msgs[m].Ethereum? {
          messages := messages + {m as int};
        }
      }
      assert messages == EthereumMessages(tx.msgs);
      var txs := SyntheticTxs(response,
                              TxContext(cfg.chain, tx.hash, messages, ethereumGas, |tx.msgs|, block.hash, block.height,
                                                  rpcTxIndex, logIndex, gasBefore));
      if txs.None? {
        return Some(SyntheticFailed);
      }
      StoreVirtualTxs(txs.value);
      return None;
    }

    method IndexCosmosTx(results: seq<Option<TxResult>>, i: nat) returns (error: Option<IndexError>)
      requires Valid() && i < |block.txs|
      modifies this
      ensures Valid()
      ensures var next := IndexTransaction(cfg, block, results, old(State()), i);
              if error.None? then next == Ok(State()) else next == Err(error.value)
    {
      hide ItemsOps;
      if i >= |results| {
        return Some(ResultsTooShort);
      }
      if results[i].None? {
        return Some(ResultMissing);
      }
      var tx, result := block.txs[i], results[i].value;
      if !tx.decodes {
        return Some(DecodeFailed);
      }
      var response := Response([], result.code, 0);
      if cfg.virtualization {
        var parsed := ParseResponse(result.events, result.code, result.gasUsed);
        if parsed.None? {
          return Some(VirtualEventsFailed);
        }
        response := parsed.value;
      }
      var ethereumGas: u64 := 0;
      if tx.ethExtension {
        if result.parsed.None? {
          return Some(ParseFailed);
        }
        var done := IndexEthMessages(i, result, result.parsed.value, response, tx.msgs);
        if done.Err? {
          return Some(done.error);
        }
        ethereumGas := done.value;
      }
      error := AddSynthetic(tx, response, ethereumGas);
      if error.None? {
        gasUsed := Add64(gasUsed, U64(result.gasUsed));
        gasBefore := Add64(gasBefore, U64(result.gasUsed));
      }
    }

    method IndexCosmosTxs(results: seq<Option<TxResult>>) returns (error: Option<IndexError>)
      requires Valid()
      modifies this
      ensures Valid()
      ensures var all := IndexTransactions(cfg, block, results, old(State()), 0);
              if error.None? then all == Ok(State()) else all == Err(error.value)
    {
      for i := 0 to |block.txs|
        invariant Valid()
        invariant IndexTransactions(cfg, block, results, old(State()), 0) ==
                  IndexTransactions(cfg, block, results, State(), i)
      {
        error := IndexCosmosTx(results, i);
        if error.Some? {
          return;
        }
      }
      return None;
    }

    /** Closes the block with its metadata, hash and log entries. */
    method Close() returns (error: Option<IndexError>, ghost stored: StoredBlock)
      requires Valid()
      modifies this`batch
      ensures if error.None? then Finish(cfg, block, State()) == Ok(stored) &&
              batch == prefix + BlockOps(block.height, stored)
              else Finish(cfg, block, State()) == Err(error.value)
    {
      var count := if cfg.virtualization then rpcTxIndex else ethTxIndex;
      var root := cfg.emptyRoot;
      var meta := BlockMeta(block.height, block.hash, gasUsed, count, |block.txs|, cfg.bloomOf(flatLogs), root,
                            cfg.virtualization);
      stored := StoredBlock(meta, items, blockLogs);
      if count > 0 {
        if cfg.virtualization {
          if |visible| != count {
            return Some(RootCountMismatch), stored;
          }
          root := cfg.rootOf(visible);
        } else {
          root := block.dataHash;
        }
      }
      meta := meta.(transactionsRoot := root);
      stored := StoredBlock(meta, items, blockLogs);
      batch := batch + [
        Set(BlockMetaKey(block.height), MetaValue(meta)),
        Set(BlockHashKey(block.hash), HeightValue(U64(block.height))),
        Set(BlockLogsKey(block.height), LogsValue(blockLogs))];
      return None, stored;
    }

    /** The whole fold; nothing leaves the builder when it fails. */
    method IndexAll(results: Option<BlockResults>) returns (error: Option<IndexError>, ghost stored: StoredBlock)
      requires Valid() && State() == START
      modifies this
      ensures if error.None? then IndexedBlock(cfg, block, results) == Ok(stored) &&
              batch == prefix + BlockOps(block.height, stored)
              else IndexedBlock(cfg, block, results) == Err(error.value)
    {
      hide ItemsOps, BlockOps;
      stored := StoredBlock(BlockMeta(block.height, block.hash, 0, 0, 0, [], block.hash, false), [], []);
      var txResults: seq<Option<TxResult>> := [];
      if results.Some? {
        if results.value.normalized.None? {
          return Some(NormalizeFailed), stored;
        }
        txResults := results.value.normalized.value;
      }
      var begin, end := [], [];
      if cfg.virtualization && results.Some? {
        if results.value.finalize.None? {
          return Some(FinalizeEventsFailed), stored;
        }
        var first, last, _, _ := SplitBlockEvents(results.value.finalize.value);
        begin, end := first, last;
      }
      StorePhase(BeginHash(cfg.chain, block.height), begin, 0);
      error := IndexCosmosTxs(txResults);
      if error.Some? {
        return;
      }
      StorePhase(EndHash(cfg.chain, block.height), end, gasBefore);
      error, stored := Close();
    }
  }
}
