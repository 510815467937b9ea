/** How the RPC backend rebuilds the same view from live block data. */
module LiveFold {
  import opened Common
  import opened VirtualLogs
  import opened Synthetic
  import opened BlockModel

  datatype LiveError =
    | ResultsNil | NormalizeFailed | FinalizeEventsFailed | ResultsTooShort | ResultMissing
    | VirtualEventsFailed | SyntheticFailed | UnpackFailed | SenderFailed | RpcTxFailed

  datatype View = View(transactions: seq<RpcTx>, receipts: seq<Receipt>, logs: seq<seq<RpcLog>>)

  datatype Live = Live(view: View, logIndex: nat, rpcTxIndex: nat, gasBefore: u64)

  const EMPTY: Live := Live(View([], [], []), 0, 0, 0)

  function LogContextFor(block: Block, live: Live, hash: Hash): LogContext {
    LogContext(block.hash, block.height, hash, live.rpcTxIndex, live.logIndex, None)
  }

  function Show(live: Live, tx: Tx): Live {
    live.(view := View(live.view.transactions + [tx.transaction], live.view.receipts + [tx.receipt],
                       live.view.logs + [tx.receipt.logs]),
          logIndex := live.logIndex + |tx.receipt.logs|,
          rpcTxIndex := live.rpcTxIndex + 1)
  }

  function ShowAll(live: Live, txs: seq<Tx>): Live {
    if txs == [] then live else Show(ShowAll(live, txs[..|txs| - 1]), txs[|txs| - 1])
  }

  // ---------- one Ethereum message ----------

  datatype Claim = Claim(hash: Hash, gasUsed: u64, failed: bool)

  /** Missing parses are tolerated: the message then stands for itself. */
  function ClaimOf(msg: EthMsg, result: TxResult, m: nat): Claim {
    if result.code != CODE_OK && !result.evmCodespace then Claim(msg.hash, msg.gas, true)
    else if result.parsed.None? then Claim(msg.hash, msg.gas, false)
    else if m >= |result.parsed.value| then Claim(msg.hash, msg.gas, result.code != CODE_OK)
    else
      var p := result.parsed.value[m];
      Claim(p.hash, p.gasUsed, p.failed)
  }

  /** Logs that cannot be decoded are left out; empty response data decodes to none. */
  function DecodableLogs(msg: EthMsg, result: TxResult): seq<EthLog> {
    if result.hasData && msg.decodedLogs.Some? then msg.decodedLogs.value else []
  }

  function LiveMessage(
      block: Block, live: Live, result: TxResult, response: Response, total: nat, m: nat, msg: EthMsg,
      spent: u64): Result<(Live, u64), LiveError>
  {
    if !msg.unpacks then Err(UnpackFailed)
    else
      var claim := ClaimOf(msg, result, m);
      var cumulative := Add64(spent, claim.gasUsed);
      var ctx := LogContextFor(block, live, claim.hash);
      var native := Stamped(WrapLogs(DecodableLogs(msg, result), false, None), ctx);
      var logs := native + MessageLogs(response, m, total, ctx.(firstLogIndex := live.logIndex + |native|));
      if msg.sender.None? then Err(SenderFailed)
      else if !msg.builds then Err(RpcTxFailed)
      else
        var tx := RpcTx(claim.hash, block.hash, block.height, live.rpcTxIndex, msg.sender.value, msg.to, msg.gas,
                        msg.input,
                        msg.txType, false, None, None);
        var receipt := Receipt(if claim.failed then STATUS_FAILED else STATUS_SUCCESSFUL,
                               Add64(live.gasBefore, cumulative), claim.gasUsed, logs, claim.hash,
                               if msg.to.None? then Some(msg.created) else None,
                               block.hash, block.height, live.rpcTxIndex, msg.sender.value, msg.to, msg.txType);
        Ok((Show(live, Tx(tx, receipt)), cumulative))
  }

  function LiveMessages(
      block: Block, live: Live, result: TxResult, response: Response, msgs: seq<Msg>, m: nat,
      spent: u64): Result<(Live, u64), LiveError>
    requires m <= |msgs|
    decreases |msgs| - m
  {
    if m == |msgs| then Ok((live, spent))
    else if msgs[m].Other? then LiveMessages(block, live, result, response, msgs, m + 1, spent)
    else
      var step :- LiveMessage(block, live, result, response, |msgs|, m, msgs[m].eth, spent);
      LiveMessages(block, step.0, result, response, msgs, m + 1, step.1)
  }

  // ---------- one Cosmos transaction ----------

  function Charge(live: Live, result: TxResult): Live {
    live.(gasBefore := Add64(live.gasBefore, U64(result.gasUsed)))
  }

  function LiveSynthetic(
      chain: Chain, block: Block, live: Live, tx: CosmosTx, response: Response, ethereumGas: u64)
    : Result<Live, LiveError>
  {
    var ctx := TxContext(chain, tx.hash, EthereumMessages(tx.msgs), ethereumGas, |tx.msgs|, block.hash, block.height,
                         live.rpcTxIndex, live.logIndex, live.gasBefore);
    match SyntheticTxsOf(response, ctx)
    case Some(txs) => Ok(ShowAll(live, txs))
    case None => Err(SyntheticFailed)
  }

  /** A transaction that does not decode is only charged. */
  function LiveTransaction(
      chain: Chain, block: Block, results: seq<Option<TxResult>>, live: Live, i: nat): Result<Live, LiveError>
    requires i < |block.txs|
  {
    if i >= |results| then Err(ResultsTooShort)
    else if results[i].None? then Err(ResultMissing)
    else if !block.txs[i].decodes then Ok(Charge(live, results[i].value))
    else
      var tx, result := block.txs[i], results[i].value;
      match Parsed(result.events, result.code, result.gasUsed)
      case None => Err(VirtualEventsFailed)
      case Some(response) =>
        var done :- LiveMessages(block, live, result, response, tx.msgs, 0, 0);
        var all :- LiveSynthetic(chain, block, done.0, tx, response, done.1);
        Ok(Charge(all, result))
  }

  function LiveTransactions(
      chain: Chain, block: Block, results: seq<Option<TxResult>>, live: Live, i: nat): Result<Live, LiveError>
    requires i <= |block.txs|
    decreases |block.txs| - i
  {
    if i == |block.txs| then Ok(live)
    else
      var next :- LiveTransaction(chain, block, results, live, i);
      LiveTransactions(chain, block, results, next, i + 1)
  }

  // ---------- the block ----------

  function LiveBegin(chain: Chain, block: Block, events: seq<EthLog>, live: Live): Live {
    if events == [] then live
    else
      var hash := BeginHash(chain, block.height);
      Show(live, NewBlockTx(hash, events, LogContextFor(block, live, hash), 0))
  }

  function LiveEnd(chain: Chain, block: Block, events: seq<EthLog>, live: Live): Live {
    if events == [] then live
    else
      var hash := EndHash(chain, block.height);
      Show(live, NewBlockTx(hash, events, LogContextFor(block, live, hash), live.gasBefore))
  }

  function LiveView(chain: Chain, block: Block, results: Option<BlockResults>): Result<View, LiveError> {
    if results.None? then Err(ResultsNil)
    else if results.value.normalized.None? then Err(NormalizeFailed)
    else if results.value.finalize.None? then Err(FinalizeEventsFailed)
    else
      var events := results.value.finalize.value;
      var live :- LiveTransactions(chain, block, results.value.normalized.value,
                                   LiveBegin(chain, block, Phase(events, true), EMPTY), 0);
      Ok(LiveEnd(chain, block, Phase(events, false), live).view)
  }
}
