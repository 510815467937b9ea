/** The backend's own loops over live block data. */
module LiveBuilder {
  import opened Common
  import opened VirtualLogs
  import opened Synthetic
  import opened BlockModel
  import opened LiveFold

  class ViewBuilder {
    const chain: Chain
    const block: Block

    var transactions: seq<RpcTx>
    var receipts: seq<Receipt>
    var logs: seq<seq<RpcLog>>
    var logIndex: nat
    var rpcTxIndex: nat
    var gasBefore: u64

    ghost function State(): Live
      reads this
    {
      Live(View(transactions, receipts, logs), logIndex, rpcTxIndex, gasBefore)
    }

    constructor (chain: Chain, block: Block)
      ensures this.chain == chain && this.block == block && State() == EMPTY
    {
      this.chain, this.block := chain, block;
      transactions, receipts, logs, logIndex, rpcTxIndex, gasBefore := [], [], [], 0, 0, 0;
    }

    method AppendTx(tx: Tx)
      modifies this
      ensures State() == Show(old(State()), tx)
    {
      logIndex := logIndex + |tx.receipt.logs|;
      transactions := transactions + [tx.transaction];
      receipts := receipts + [tx.receipt];
      logs := logs + [tx.receipt.logs];
      rpcTxIndex := rpcTxIndex + 1;
    }

    method AppendPhase(hash: Hash, events: seq<EthLog>, gas: u64)
      modifies this
      ensures State() == if events == [] then old(State())
                         else Show(old(State()),
                                   NewBlockTx(hash, events, LogContextFor(block, old(State()), hash), gas))
    {
      if events != [] {
        var ctx := LogContext(block.hash, block.height, hash, rpcTxIndex, logIndex, None);
        var numbered := NumberLogs(WrapLogs(events, true, None), ctx);
        AppendTx(Tx(
          RpcTx(hash, block.hash, block.height, rpcTxIndex, ZERO_ADDRESS, Some(BANK_CONTRACT), 0, [], LEGACY_TX_TYPE,
                true, None, None),
          Receipt(STATUS_SUCCESSFUL, gas, 0, numbered, hash, None, block.hash, block.height, rpcTxIndex, ZERO_ADDRESS,
                  Some(BANK_CONTRACT), LEGACY_TX_TYPE)));
      }
    }

    method AppendMessage(
        result: TxResult, response: Response, total: nat, m: nat, msg: EthMsg, spent: u64)
      returns (r: Result<u64, LiveError>)
      modifies this
      ensures var step := LiveMessage(block, old(State()), result, response, total, m, msg, spent);
              if r.Ok? then step == Ok((State(), r.value)) else step == Err(r.error)
    {
      hide Add64, WrapLogs, Stamped;
      if !msg.unpacks {
        return Err(UnpackFailed);
      }
      var hash, failed, gas := msg.hash, false, msg.gas;
      if result.code != CODE_OK && !result.evmCodespace {
        failed := true;
      } else if result.parsed.Some? {
        if m >= |result.parsed.value| {
          failed := result.code != CODE_OK;
        } else {
          var parsed := result.parsed.value[m];
          hash, gas, failed := parsed.hash, parsed.gasUsed, parsed.failed;
        }
      }
      var cumulative := Add64(spent, gas);
      var native :=
          WrapLogs(if result.hasData && msg.decodedLogs.Some? then msg.decodedLogs.value else [], false, None);
      native := NumberLogs(native, LogContext(block.hash, block.height, hash, rpcTxIndex, logIndex, None));
      var virtualLogs :=
          LogsForMessage(response, m, total,
                         LogContext(block.hash, block.height, hash, rpcTxIndex, logIndex + |native|, None));
      if msg.sender.None? {
        return Err(SenderFailed);
      }
      if !msg.builds {
        return Err(RpcTxFailed);
      }
      AppendTx(Tx(
        RpcTx(hash, block.hash, block.height, rpcTxIndex, msg.sender.value, msg.to, msg.gas, msg.input, msg.txType,
              false, None, None),
        Receipt(if failed then STATUS_FAILED else STATUS_SUCCESSFUL,
                Add64(gasBefore, cumulative), gas, native + virtualLogs, hash,
                if msg.to.None? then Some(msg.created) else None,
                block.hash, block.height, rpcTxIndex, msg.sender.value, msg.to, msg.txType)));
      return Ok(cumulative);
    }

    method AppendMessages(result: TxResult, response: Response, msgs: seq<Msg>) returns (r: Result<u64, LiveError>)
      modifies this
      ensures var all := LiveMessages(block, old(State()), result, response, msgs, 0, 0);
              if r.Ok? then all == Ok((State(), r.value)) else all == Err(r.error)
    {
      var spent: u64 := 0;
      for m := 0 to |msgs|
        invariant LiveMessages(block, old(State()), result, response, msgs, 0, 0) ==
                  LiveMessages(block, State(), result, response, msgs, m, spent)
      {
        if msgs[m].Other? {
          continue;
        }
        var step := AppendMessage(result, response, |msgs|, m, msgs[m].eth, spent);
        if step.Err? {
          return Err(step.error);
        }
        spent := step.value;
      }
      return Ok(spent);
    }

    method AppendSynthetic(tx: CosmosTx, response: Response, ethereumGas: u64) returns (error: Option<LiveError>)
      modifies this
      ensures var all := LiveSynthetic(chain, block, old(State()), tx, response, ethereumGas);
              if error.None? then all == Ok(State()) else all == Err(error.value)
    {
      var txs := SyntheticTxs(response,
                              TxContext(chain, tx.hash, EthereumMessages(tx.msgs), ethereumGas, |tx.msgs|, block.hash,
                                                  block.height, rpcTxIndex, logIndex, gasBefore));
      if txs.None? {
        return Some(SyntheticFailed);
      }
      for k := 0 to |txs.value|
        invariant State() == ShowAll(old(State()), txs.value[..k])
      {
        assert txs.value[..k + 1][..k] == txs.value[..k];
        AppendTx(txs.value[k]);
      }
      assert txs.value[..|txs.value|] == txs.value;
      return None;
    }

    method AppendCosmosTx(results: seq<Option<TxResult>>, i: nat) returns (error: Option<LiveError>)
      requires i < |block.txs|
      modifies this
      ensures var next := LiveTransaction(chain, block, results, old(State()), i);
              if error.None? then next == Ok(State()) else next == Err(error.value)
    {
      if i >= |results| {
        return Some(ResultsTooShort);
      }
      if results[i].None? {
        return Some(ResultMissing);
      }
      var tx, result := block.txs[i], results[i].value;
      if tx.decodes {
        var response := ParseResponse(result.events, result.code, result.gasUsed);
        if response.None? {
          return Some(VirtualEventsFailed);
        }
        var done := AppendMessages(result, response.value, tx.msgs);
        if done.Err? {
          return Some(done.error);
        }
        error := AppendSynthetic(tx, response.value, done.value);
        if error.Some? {
          return;
        }
      }
      gasBefore := Add64(gasBefore, U64(result.gasUsed));
      return None;
    }

    method AppendCosmosTxs(results: seq<Option<TxResult>>) returns (error: Option<LiveError>)
      modifies this
      ensures var all := LiveTransactions(chain, block, results, old(State()), 0);
              if error.None? then all == Ok(State()) else all == Err(error.value)
    {
      for i := 0 to |block.txs|
        invariant LiveTransactions(chain, block, results, old(State()), 0) ==
                  LiveTransactions(chain, block, results, State(), i)
      {
        error := AppendCosmosTx(results, i);
        if error.Some? {
          return;
        }
      }
      return None;
    }
  }

  method BuildLiveView(chain: Chain, block: Block, results: Option<BlockResults>) returns (r: Result<View, LiveError>)
    ensures r == LiveView(chain, block, results)
  {
    if results.None? {
      return Err(ResultsNil);
    }
    if results.value.normalized.None? {
      return Err(NormalizeFailed);
    }
    if results.value.finalize.None? {
      return Err(FinalizeEventsFailed);
    }
    var builder := new ViewBuilder(chain, block);
    var begin, end, _, _ := SplitBlockEvents(results.value.finalize.value);
    builder.AppendPhase(BeginHash(chain, block.height), begin, 0);
    var error := builder.AppendCosmosTxs(results.value.normalized.value);
    if error.Some? {
      return Err(error.value);
    }
    builder.AppendPhase(EndHash(chain, block.height), end, builder.gasBefore);
    return Ok(View(builder.transactions, builder.receipts, builder.logs));
  }
}
