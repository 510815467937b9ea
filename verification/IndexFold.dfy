/** How the indexer turns a block and its results into the view it stores. */
module IndexFold {
  import opened Common
  import opened VirtualLogs
  import opened Synthetic
  import opened BlockModel

  datatype IndexError =
    | NormalizeFailed | FinalizeEventsFailed | ResultsTooShort | ResultMissing | DecodeFailed
    | VirtualEventsFailed | SyntheticFailed | ParseFailed | MsgIndexMissing | EthTxIndexMismatch
    | UnpackFailed | LogsFailed | DataMissing | SenderFailed | RpcTxFailed | RootCountMismatch

  /** The running state of the fold over a block. */
  datatype Acc = Acc(
    items: seq<Item>, groups: seq<seq<RpcLog>>, flatLogs: seq<RpcLog>, visible: seq<Hash>,
    logIndex: nat, rpcTxIndex: nat, ethTxIndex: nat, gasBefore: u64, gasUsed: u64)

  const START: Acc := Acc([], [], [], [], 0, 0, 0, 0, 0)

  function ContextFor(block: Block, acc: Acc, hash: Hash, index: nat): LogContext {
    LogContext(block.hash, block.height, hash, index, acc.logIndex, None)
  }

  /** Appends one visible transaction with its log group. */
  function Visible(cfg: Config, acc: Acc, item: Item): Acc {
    acc.(items := acc.items + [item],
         groups := acc.groups + [item.tx.receipt.logs],
         flatLogs := acc.flatLogs + item.tx.receipt.logs,
         visible := if cfg.virtualization then acc.visible + [item.tx.transaction.hash] else acc.visible,
         rpcTxIndex := acc.rpcTxIndex + 1,
         ethTxIndex := acc.ethTxIndex + if item.record.Some? then 1 else 0)
  }

  function StoreVirtual(cfg: Config, acc: Acc, tx: Tx): Acc {
    Visible(cfg, acc, Item(tx, None)).(logIndex := acc.logIndex + |tx.receipt.logs|)
  }

  function StoreVirtuals(cfg: Config, acc: Acc, txs: seq<Tx>): Acc {
    if txs == [] then acc
    else StoreVirtual(cfg, StoreVirtuals(cfg, acc, txs[..|txs| - 1]), txs[|txs| - 1])
  }

  // ---------- one Ethereum message ----------

  datatype EthOutcome = EthOutcome(hash: Hash, gasUsed: u64, failed: bool)

  predicate ChargedByAnte(result: TxResult) {
    result.code != CODE_OK && !result.evmCodespace
  }

  function Outcome(
      msg: EthMsg, result: TxResult, parsed: seq<ParsedTx>, m: nat, ethTxIndex: nat): Result<EthOutcome, IndexError>
  {
    if ChargedByAnte(result) then Ok(EthOutcome(msg.hash, msg.gas, true))
    else if m >= |parsed| then Err(MsgIndexMissing)
    else if parsed[m].ethTxIndex >= 0 && parsed[m].ethTxIndex != ethTxIndex then Err(EthTxIndexMismatch)
    else Ok(EthOutcome(parsed[m].hash, parsed[m].gasUsed, parsed[m].failed))
  }

  function NativeLogs(msg: EthMsg, result: TxResult, failed: bool): Result<seq<EthLog>, IndexError> {
    if result.hasData then
      if msg.decodedLogs.Some? then Ok(msg.decodedLogs.value) else Err(LogsFailed)
    else if failed then Ok([])
    else Err(DataMissing)
  }

  /** Native logs first, then the virtual logs owned by the message, numbered in one run. */
  function MessageGroup(
      cfg: Config, block: Block, acc: Acc, native: seq<EthLog>, response: Response, m: nat, total: nat, hash: Hash,
      index: nat): seq<RpcLog>
  {
    var wrapped := WrapLogs(native, false, None);
    if !cfg.virtualization then wrapped
    else
      var ctx := ContextFor(block, acc, hash, index);
      Stamped(wrapped, ctx) +
      MessageLogs(response, m, total, ctx.(firstLogIndex := acc.logIndex + |native|))
  }

  /** The transaction and receipt stored for an Ethereum message. */
  function EthTx(
      block: Block, acc: Acc, msg: EthMsg, sender: Address, outcome: EthOutcome, cumulative: u64, logs: seq<RpcLog>,
      index: nat): Tx
  {
    Tx(RpcTx(outcome.hash, block.hash, block.height, index, sender, msg.to, msg.gas, msg.input, msg.txType, false,
             None, None),
       Receipt(if outcome.failed then STATUS_FAILED else STATUS_SUCCESSFUL,
               Add64(acc.gasBefore, cumulative), outcome.gasUsed, logs, outcome.hash,
               if msg.to.None? then Some(msg.created) else None,
               block.hash, block.height, index, sender, msg.to, msg.txType))
  }

  function VisibleIndex(cfg: Config, acc: Acc): nat {
    if cfg.virtualization then acc.rpcTxIndex else acc.ethTxIndex
  }

  function IndexMessage(
      cfg: Config, block: Block, acc: Acc, i: nat, result: TxResult, parsed: seq<ParsedTx>, response: Response,
      total: nat, m: nat, msg: EthMsg, spent: u64): Result<(Acc, u64), IndexError>
  {
    var outcome :- Outcome(msg, result, parsed, m, acc.ethTxIndex);
    var cumulative := Add64(spent, outcome.gasUsed);
    if !msg.unpacks then Err(UnpackFailed) else
      var native :- NativeLogs(msg, result, outcome.failed);
      var index := VisibleIndex(cfg, acc);
      var logs := MessageGroup(cfg, block, acc, native, response, m, total, outcome.hash, index);
      if msg.sender.None? then Err(SenderFailed)
      else if !msg.builds then Err(RpcTxFailed)
      else
        var tx := EthTx(block, acc, msg, msg.sender.value, outcome, cumulative, logs, index);
        var record := EthRecord(block.height, i, m, acc.ethTxIndex, outcome.failed, outcome.gasUsed, cumulative);
        Ok((Visible(cfg, acc, Item(tx, Some(record))).(
              logIndex := acc.logIndex + if cfg.virtualization then |logs| else 0),
            cumulative))
  }

  function IndexMessages(
      cfg: Config, block: Block, acc: Acc, i: nat, result: TxResult, parsed: seq<ParsedTx>, response: Response,
      msgs: seq<Msg>, m: nat, spent: u64): Result<(Acc, u64), IndexError>
    requires m <= |msgs|
    decreases |msgs| - m
  {
    if m == |msgs| then Ok((acc, spent))
    else if msgs[m].Other? then IndexMessages(cfg, block, acc, i, result, parsed, response, msgs, m + 1, spent)
    else
      var step :- IndexMessage(cfg, block, acc, i, result, parsed, response, |msgs|, m, msgs[m].eth, spent);
      IndexMessages(cfg, block, step.0, i, result, parsed, response, msgs, m + 1, step.1)
  }

  // ---------- one Cosmos transaction ----------

  function SyntheticContext(cfg: Config, block: Block, acc: Acc, tx: CosmosTx, ethereumGas: u64): TxContext {
    TxContext(cfg.chain, tx.hash, EthereumMessages(tx.msgs), ethereumGas, |tx.msgs|, block.hash, block.height,
              acc.rpcTxIndex, acc.logIndex, acc.gasBefore)
  }

  function IndexSynthetic(
      cfg: Config, block: Block, acc: Acc, tx: CosmosTx, response: Response, ethereumGas: u64): Result<Acc, IndexError>
  {
    if !cfg.virtualization then Ok(acc)
    else match SyntheticTxsOf(response, SyntheticContext(cfg, block, acc, tx, ethereumGas))
      case Some(txs) => Ok(StoreVirtuals(cfg, acc, txs))
      case None => Err(SyntheticFailed)
  }

  function ChargeBlock(acc: Acc, result: TxResult): Acc {
    acc.(gasUsed := Add64(acc.gasUsed, U64(result.gasUsed)), gasBefore := Add64(acc.gasBefore, U64(result.gasUsed)))
  }

  /** With virtualization off the events are not looked at. */
  function ResponseFor(cfg: Config, result: TxResult): Option<Response> {
    if cfg.virtualization then Parsed(result.events, result.code, result.gasUsed)
    else Some(Response([], result.code, 0))
  }

  function IndexBody(
      cfg: Config, block: Block, acc: Acc, i: nat, tx: CosmosTx, result: TxResult, response: Response)
    : Result<Acc, IndexError>
  {
    if !tx.ethExtension then IndexSynthetic(cfg, block, acc, tx, response, 0)
    else if result.parsed.None? then Err(ParseFailed)
    else
      var done :- IndexMessages(cfg, block, acc, i, result, result.parsed.value, response, tx.msgs, 0, 0);
      IndexSynthetic(cfg, block, done.0, tx, response, done.1)
  }

  function IndexTransaction(
      cfg: Config, block: Block, results: seq<Option<TxResult>>, acc: Acc, i: nat): Result<Acc, IndexError>
    requires i < |block.txs|
  {
    if i >= |results| then Err(ResultsTooShort)
    else if results[i].None? then Err(ResultMissing)
    else if !block.txs[i].decodes then Err(DecodeFailed)
    else
      var result := results[i].value;
      match ResponseFor(cfg, result)
      case None => Err(VirtualEventsFailed)
      case Some(response) =>
        var body :- IndexBody(cfg, block, acc, i, block.txs[i], result, response);
        Ok(ChargeBlock(body, result))
  }

  function IndexTransactions(
      cfg: Config, block: Block, results: seq<Option<TxResult>>, acc: Acc, i: nat): Result<Acc, IndexError>
    requires i <= |block.txs|
    decreases |block.txs| - i
  {
    if i == |block.txs| then Ok(acc)
    else
      var next :- IndexTransaction(cfg, block, results, acc, i);
      IndexTransactions(cfg, block, results, next, i + 1)
  }

  // ---------- the block ----------

  function BeginBlock(cfg: Config, block: Block, events: seq<EthLog>, acc: Acc): Acc {
    if events == [] then acc
    else
      var hash := BeginHash(cfg.chain, block.height);
      StoreVirtual(cfg, acc, NewBlockTx(hash, events, ContextFor(block, acc, hash, acc.rpcTxIndex), 0))
  }

  function EndBlock(cfg: Config, block: Block, events: seq<EthLog>, acc: Acc): Acc {
    if events == [] then acc
    else
      var hash := EndHash(cfg.chain, block.height);
      StoreVirtual(cfg, acc, NewBlockTx(hash, events, ContextFor(block, acc, hash, acc.rpcTxIndex), acc.gasBefore))
  }

  function Finish(cfg: Config, block: Block, acc: Acc): Result<StoredBlock, IndexError> {
    var count := VisibleIndex(cfg, acc);
    if cfg.virtualization && count > 0 && |acc.visible| != count then Err(RootCountMismatch)
    else
      var root := if count == 0 then cfg.emptyRoot
                  else if cfg.virtualization then cfg.rootOf(acc.visible)
                  else block.dataHash;
      Ok(StoredBlock(
           BlockMeta(block.height, block.hash, acc.gasUsed, count, |block.txs|, cfg.bloomOf(acc.flatLogs), root,
                     cfg.virtualization),
           acc.items, acc.groups))
  }

  function NormalizedResults(results: Option<BlockResults>): Option<seq<Option<TxResult>>> {
    if results.None? then Some([]) else results.value.normalized
  }

  /** The begin and end events; ignored without virtualization or without results. */
  function FinalizeEvents(cfg: Config, results: Option<BlockResults>): Option<seq<BlockEvent>> {
    if !cfg.virtualization || results.None? then Some([]) else results.value.finalize
  }

  function IndexedBlock(cfg: Config, block: Block, results: Option<BlockResults>): Result<StoredBlock, IndexError> {
    if NormalizedResults(results).None? then Err(NormalizeFailed)
    else if FinalizeEvents(cfg, results).None? then Err(FinalizeEventsFailed)
    else
      var events := FinalizeEvents(cfg, results).value;
      var acc :- IndexTransactions(cfg, block, NormalizedResults(results).value,
                                   BeginBlock(cfg, block, Phase(events, true), START), 0);
      Finish(cfg, block, EndBlock(cfg, block, Phase(events, false), acc))
  }
}
