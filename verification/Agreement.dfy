/** The cached view and the live view of a block are the same view. */
module Agreement {
  import opened Common
  import opened VirtualLogs
  import opened Synthetic
  import opened BlockModel
  import opened IndexFold
  import opened LiveFold

  function Transactions(items: seq<Item>): seq<RpcTx> {
    seq(|items|, i requires 0 <= i < |items| => items[i].tx.transaction)
  }

  function Receipts(items: seq<Item>): seq<Receipt> {
    seq(|items|, i requires 0 <= i < |items| => items[i].tx.receipt)
  }

  /** The same transactions, receipts (status, gas, cumulative gas) and numbered log groups, in order. */
  ghost predicate SameView(items: seq<Item>, groups: seq<seq<RpcLog>>, view: View) {
    && view.transactions == Transactions(items)
    && view.receipts == Receipts(items)
    && view.logs == groups
  }

  ghost predicate InStep(acc: Acc, live: Live) {
    && SameView(acc.items, acc.groups, live.view)
    && acc.logIndex == live.logIndex && acc.rpcTxIndex == live.rpcTxIndex && acc.gasBefore == live.gasBefore
  }

  lemma {:induction false} VirtualInStep(cfg: Config, acc: Acc, live: Live, tx: Tx)
    requires InStep(acc, live)
    ensures InStep(StoreVirtual(cfg, acc, tx), Show(live, tx))
  {
  }

  lemma {:induction false} VirtualsInStep(cfg: Config, acc: Acc, live: Live, txs: seq<Tx>)
    requires InStep(acc, live)
    ensures InStep(StoreVirtuals(cfg, acc, txs), ShowAll(live, txs))
  {
    if txs != [] {
      VirtualsInStep(cfg, acc, live, txs[..|txs| - 1]);
      VirtualInStep(cfg, StoreVirtuals(cfg, acc, txs[..|txs| - 1]), ShowAll(live, txs[..|txs| - 1]), txs[|txs| - 1]);
    }
  }

  /**
   What the indexer reads off a result for an Ethereum message is what the
   backend claims on its own; where the backend falls back on the message
   itself the indexer rejects the block, and it also rejects an Ethereum index
   that contradicts its count.
   */
  lemma {:induction false} OutcomeIsClaim(msg: EthMsg, result: TxResult, m: nat, ethTxIndex: nat)
    requires result.parsed.Some?
    ensures var outcome, parsed := Outcome(msg, result, result.parsed.value, m, ethTxIndex), result.parsed.value;
            var claim := ClaimOf(msg, result, m);
            && (outcome.Ok? <==>
                  ChargedByAnte(result) ||
                    (m < |parsed| && (parsed[m].ethTxIndex < 0 || parsed[m].ethTxIndex == ethTxIndex)))
            && (outcome.Ok? ==> outcome.value == EthOutcome(claim.hash, claim.gasUsed, claim.failed))
            && (outcome == Err(MsgIndexMissing) ==> claim == Claim(msg.hash, msg.gas, result.code != CODE_OK))
  {
  }

  lemma {:induction false} MessageInStep(
      cfg: Config, block: Block, acc: Acc, live: Live, i: nat, result: TxResult, response: Response, total: nat,
      m: nat, msg: EthMsg, spent: u64)
    requires cfg.virtualization && InStep(acc, live) && result.parsed.Some?
    requires IndexMessage(cfg, block, acc, i, result, result.parsed.value, response, total, m, msg, spent).Ok?
    ensures LiveMessage(block, live, result, response, total, m, msg, spent).Ok?
    ensures var a, b :=
            IndexMessage(cfg, block, acc, i, result, result.parsed.value, response, total, m, msg, spent).value,
                        LiveMessage(block, live, result, response, total, m, msg, spent).value;
            InStep(a.0, b.0) && a.1 == b.1
  {
    hide MessageLogs;
  }

  lemma {:induction false} MessagesInStep(
      cfg: Config, block: Block, acc: Acc, live: Live, i: nat, result: TxResult, response: Response, msgs: seq<Msg>,
      m: nat, spent: u64)
    requires m <= |msgs| && cfg.virtualization && InStep(acc, live) && result.parsed.Some?
    requires IndexMessages(cfg, block, acc, i, result, result.parsed.value, response, msgs, m, spent).Ok?
    ensures LiveMessages(block, live, result, response, msgs, m, spent).Ok?
    ensures var a, b := IndexMessages(cfg, block, acc, i, result, result.parsed.value, response, msgs, m, spent).value,
                        LiveMessages(block, live, result, response, msgs, m, spent).value;
            InStep(a.0, b.0) && a.1 == b.1
    decreases |msgs| - m
  {
    if m < |msgs| {
      if msgs[m].Other? {
        MessagesInStep(cfg, block, acc, live, i, result, response, msgs, m + 1, spent);
      } else {
        MessageInStep(cfg, block, acc, live, i, result, response, |msgs|, m, msgs[m].eth, spent);
        var a := IndexMessage(cfg, block, acc, i, result, result.parsed.value, response, |msgs|, m, msgs[m].eth,
                              spent).value;
        var b := LiveMessage(block, live, result, response, |msgs|, m, msgs[m].eth, spent).value;
        MessagesInStep(cfg, block, a.0, b.0, i, result, response, msgs, m + 1, a.1);
      }
    }
  }

  lemma {:induction false} SyntheticInStep(
      cfg: Config, block: Block, acc: Acc, live: Live, tx: CosmosTx, response: Response, gas: u64)
    requires cfg.virtualization && InStep(acc, live)
    requires IndexSynthetic(cfg, block, acc, tx, response, gas).Ok?
    ensures LiveSynthetic(cfg.chain, block, live, tx, response, gas).Ok?
    ensures InStep(IndexSynthetic(cfg, block, acc, tx, response, gas).value,
                   LiveSynthetic(cfg.chain, block, live, tx, response, gas).value)
  {
    VirtualsInStep(cfg, acc, live, SyntheticTxsOf(response, SyntheticContext(cfg, block, acc, tx, gas)).value);
  }

  predicate AllOther(msgs: seq<Msg>) {
    forall m :: 0 <= m < |msgs| ==> msgs[m].Other?
  }

  lemma {:induction false} NoEthereumMessages(
      block: Block, live: Live, result: TxResult, response: Response, msgs: seq<Msg>, m: nat)
    requires m <= |msgs| && AllOther(msgs)
    ensures LiveMessages(block, live, result, response, msgs, m, 0) == Ok((live, 0))
    decreases |msgs| - m
  {
    if m < |msgs| {
      NoEthereumMessages(block, live, result, response, msgs, m + 1);
    }
  }

  /** Every transaction that holds an Ethereum message carries the extension option. */
  predicate EthereumMarked(txs: seq<CosmosTx>) {
    forall i :: 0 <= i < |txs| ==> txs[i].ethExtension || AllOther(txs[i].msgs)
  }

  lemma {:induction false} TransactionInStep(
      cfg: Config, block: Block, results: seq<Option<TxResult>>, acc: Acc, live: Live, i: nat)
    requires i < |block.txs| && cfg.virtualization && InStep(acc, live) && EthereumMarked(block.txs)
    requires IndexTransaction(cfg, block, results, acc, i).Ok?
    ensures LiveTransaction(cfg.chain, block, results, live, i).Ok?
    ensures InStep(IndexTransaction(cfg, block, results, acc, i).value,
                   LiveTransaction(cfg.chain, block, results, live, i).value)
  {
    var tx, result := block.txs[i], results[i].value;
    var response := ResponseFor(cfg, result).value;
    if tx.ethExtension {
      MessagesInStep(cfg, block, acc, live, i, result, response, tx.msgs, 0, 0);
      var a := IndexMessages(cfg, block, acc, i, result, result.parsed.value, response, tx.msgs, 0, 0).value;
      var b := LiveMessages(block, live, result, response, tx.msgs, 0, 0).value;
      SyntheticInStep(cfg, block, a.0, b.0, tx, response, a.1);
    } else {
      NoEthereumMessages(block, live, result, response, tx.msgs, 0);
      SyntheticInStep(cfg, block, acc, live, tx, response, 0);
    }
  }

  lemma {:induction false} TransactionsInStep(
      cfg: Config, block: Block, results: seq<Option<TxResult>>, acc: Acc, live: Live, i: nat)
    requires i <= |block.txs| && cfg.virtualization && InStep(acc, live) && EthereumMarked(block.txs)
    requires IndexTransactions(cfg, block, results, acc, i).Ok?
    ensures LiveTransactions(cfg.chain, block, results, live, i).Ok?
    ensures InStep(IndexTransactions(cfg, block, results, acc, i).value,
                   LiveTransactions(cfg.chain, block, results, live, i).value)
    decreases |block.txs| - i
  {
    hide InStep, EthereumMarked, IndexTransaction, LiveTransaction;
    if i < |block.txs| {
      TransactionInStep(cfg, block, results, acc, live, i);
      TransactionsInStep(cfg, block, results, IndexTransaction(cfg, block, results, acc, i).value,
                         LiveTransaction(cfg.chain, block, results, live, i).value, i + 1);
    }
  }

  lemma {:induction false} BeginInStep(cfg: Config, block: Block, events: seq<EthLog>)
    ensures InStep(BeginBlock(cfg, block, events, START), LiveBegin(cfg.chain, block, events, EMPTY))
  {
  }

  lemma {:induction false} EndInStep(cfg: Config, block: Block, events: seq<EthLog>, acc: Acc, live: Live)
    requires InStep(acc, live)
    ensures InStep(EndBlock(cfg, block, events, acc), LiveEnd(cfg.chain, block, events, live))
  {
  }

  /** On every marked block the indexer accepts, the backend succeeds and shows what was stored. */
  lemma {:induction false} CachedViewIsLiveView(cfg: Config, block: Block, results: BlockResults)
    requires cfg.virtualization && EthereumMarked(block.txs)
    requires IndexedBlock(cfg, block, Some(results)).Ok?
    ensures LiveView(cfg.chain, block, Some(results)).Ok?
    ensures var stored, view := IndexedBlock(cfg, block, Some(results)).value,
            LiveView(cfg.chain, block, Some(results)).value;
            SameView(stored.items, stored.groups, view)
  {
    hide IndexTransactions, LiveTransactions, EthereumMarked, Phase, StoreVirtual, Show;
    var events := results.finalize.value;
    var normalized := results.normalized.value;
    var acc, live := BeginBlock(cfg, block, Phase(events, true), START),
        LiveBegin(cfg.chain, block, Phase(events, true), EMPTY);
    BeginInStep(cfg, block, Phase(events, true));
    TransactionsInStep(cfg, block, normalized, acc, live, 0);
    var a, b := IndexTransactions(cfg, block, normalized, acc, 0).value,
        LiveTransactions(cfg.chain, block, normalized, live, 0).value;
    EndInStep(cfg, block, Phase(events, false), a, b);
  }

  // ---------- and only on marked blocks ----------

  function EthereumFrom(msgs: seq<Msg>, m: nat): nat
    requires m <= |msgs|
    decreases |msgs| - m
  {
    if m == |msgs| then 0 else (if msgs[m].Ethereum? then 1 else 0) + EthereumFrom(msgs, m + 1)
  }

  /** Ethereum messages in unmarked transactions, which only the live view shows. */
  function StrayFrom(txs: seq<CosmosTx>, i: nat): nat
    requires i <= |txs|
    decreases |txs| - i
  {
    if i == |txs| then 0 else (if txs[i].ethExtension then 0 else EthereumFrom(txs[i].msgs, 0)) + StrayFrom(txs, i + 1)
  }

  lemma {:induction false} LiveMessagesCount(
      block: Block, live: Live, result: TxResult, response: Response, msgs: seq<Msg>, m: nat, spent: u64)
    requires m <= |msgs| && LiveMessages(block, live, result, response, msgs, m, spent).Ok?
    ensures |LiveMessages(block, live, result, response, msgs, m, spent).value.0.view.transactions| ==
            |live.view.transactions| + EthereumFrom(msgs, m)
    decreases |msgs| - m
  {
    if m < |msgs| {
      if msgs[m].Other? {
        LiveMessagesCount(block, live, result, response, msgs, m + 1, spent);
      } else {
        var step := LiveMessage(block, live, result, response, |msgs|, m, msgs[m].eth, spent).value;
        LiveMessagesCount(block, step.0, result, response, msgs, m + 1, step.1);
      }
    }
  }

  lemma {:induction false} IndexMessagesCount(
      cfg: Config, block: Block, acc: Acc, i: nat, result: TxResult, parsed: seq<ParsedTx>, response: Response,
      msgs: seq<Msg>, m: nat, spent: u64)
    requires m <= |msgs| && IndexMessages(cfg, block, acc, i, result, parsed, response, msgs, m, spent).Ok?
    ensures |IndexMessages(cfg, block, acc, i, result, parsed, response, msgs, m, spent).value.0.items| ==
            |acc.items| + EthereumFrom(msgs, m)
    decreases |msgs| - m
  {
    if m < |msgs| {
      if msgs[m].Other? {
        IndexMessagesCount(cfg, block, acc, i, result, parsed, response, msgs, m + 1, spent);
      } else {
        var step := IndexMessage(cfg, block, acc, i, result, parsed, response, |msgs|, m, msgs[m].eth, spent).value;
        IndexMessagesCount(cfg, block, step.0, i, result, parsed, response, msgs, m + 1, step.1);
      }
    }
  }

  lemma {:induction false} SameSelection(entries: seq<Entry>, a: TxContext, b: TxContext)
    requires a.ethereumMessages == b.ethereumMessages && a.totalMessages == b.totalMessages
    ensures BankEvents(entries, a) == BankEvents(entries, b) && HookEvents(entries, a) == HookEvents(entries, b)
  {
    if entries != [] {
      SameSelection(entries[..|entries| - 1], a, b);
    }
  }

  /** How many synthetic transactions there are does not depend on gas or numbering. */
  lemma {:induction false} SyntheticCount(r: Response, a: TxContext, b: TxContext)
    requires a.ethereumMessages == b.ethereumMessages && a.totalMessages == b.totalMessages
    requires SyntheticTxsOf(r, a).Some? && SyntheticTxsOf(r, b).Some?
    ensures |SyntheticTxsOf(r, a).value| == |SyntheticTxsOf(r, b).value|
  {
    hide HookTx, SyntheticTx;
    SameSelection(r.entries, a, b);
    var found := HookEvents(r.entries, a);
    if found != [] {
      SortKeepsIndexes(found, a.totalMessages);
      HookTxsAt(r, a, BankEvents(r.entries, a), SortHooks(found), |SortHooks(found)|);
      HookTxsAt(r, b, BankEvents(r.entries, b), SortHooks(found), |SortHooks(found)|);
    }
  }

  lemma {:induction false} StoredCount(cfg: Config, acc: Acc, txs: seq<Tx>)
    ensures |StoreVirtuals(cfg, acc, txs).items| == |acc.items| + |txs|
  {
    if txs != [] {
      StoredCount(cfg, acc, txs[..|txs| - 1]);
    }
  }

  lemma {:induction false} ShownCount(live: Live, txs: seq<Tx>)
    ensures |ShowAll(live, txs).view.transactions| == |live.view.transactions| + |txs|
  {
    if txs != [] {
      ShownCount(live, txs[..|txs| - 1]);
    }
  }

  lemma {:induction false} SyntheticSameCount(
      cfg: Config, block: Block, acc: Acc, live: Live, tx: CosmosTx, response: Response, gas: u64, gas': u64)
    requires cfg.virtualization
    requires IndexSynthetic(cfg, block, acc, tx, response, gas).Ok? &&
             LiveSynthetic(cfg.chain, block, live, tx, response, gas').Ok?
    ensures |LiveSynthetic(cfg.chain, block, live, tx, response, gas').value.view.transactions|
            - |live.view.transactions| ==
            |IndexSynthetic(cfg, block, acc, tx, response, gas).value.items| - |acc.items|
  {
    var a := SyntheticContext(cfg, block, acc, tx, gas);
    var b := TxContext(cfg.chain, tx.hash, EthereumMessages(tx.msgs), gas', |tx.msgs|, block.hash, block.height,
                       live.rpcTxIndex, live.logIndex, live.gasBefore);
    SyntheticCount(response, a, b);
    StoredCount(cfg, acc, SyntheticTxsOf(response, a).value);
    ShownCount(live, SyntheticTxsOf(response, b).value);
  }

  lemma {:induction false} TransactionCount(
      cfg: Config, block: Block, results: seq<Option<TxResult>>, acc: Acc, live: Live, i: nat)
    requires i < |block.txs| && cfg.virtualization
    requires IndexTransaction(cfg, block, results, acc, i).Ok? &&
             LiveTransaction(cfg.chain, block, results, live, i).Ok?
    ensures |LiveTransaction(cfg.chain, block, results, live, i).value.view.transactions| - |live.view.transactions| ==
            |IndexTransaction(cfg, block, results, acc, i).value.items| - |acc.items| +
            if block.txs[i].ethExtension then 0 else EthereumFrom(block.txs[i].msgs, 0)
  {
    var tx, result := block.txs[i], results[i].value;
    var response := ResponseFor(cfg, result).value;
    LiveMessagesCount(block, live, result, response, tx.msgs, 0, 0);
    var b := LiveMessages(block, live, result, response, tx.msgs, 0, 0).value;
    if tx.ethExtension {
      IndexMessagesCount(cfg, block, acc, i, result, result.parsed.value, response, tx.msgs, 0, 0);
      var a := IndexMessages(cfg, block, acc, i, result, result.parsed.value, response, tx.msgs, 0, 0).value;
      SyntheticSameCount(cfg, block, a.0, b.0, tx, response, a.1, b.1);
    } else {
      SyntheticSameCount(cfg, block, acc, b.0, tx, response, 0, b.1);
    }
  }

  lemma {:induction false} TransactionsCount(
      cfg: Config, block: Block, results: seq<Option<TxResult>>, acc: Acc, live: Live, i: nat)
    requires i <= |block.txs| && cfg.virtualization
    requires IndexTransactions(cfg, block, results, acc, i).Ok? &&
             LiveTransactions(cfg.chain, block, results, live, i).Ok?
    ensures |LiveTransactions(cfg.chain, block, results, live, i).value.view.transactions| - |live.view.transactions| ==
            |IndexTransactions(cfg, block, results, acc, i).value.items| - |acc.items| + StrayFrom(block.txs, i)
    decreases |block.txs| - i
  {
    hide IndexTransaction, LiveTransaction;
    if i < |block.txs| {
      TransactionCount(cfg, block, results, acc, live, i);
      TransactionsCount(cfg, block, results, IndexTransaction(cfg, block, results, acc, i).value,
                        LiveTransaction(cfg.chain, block, results, live, i).value, i + 1);
    }
  }

  lemma {:induction false} NoEthereumIsOther(msgs: seq<Msg>, m: nat)
    requires m <= |msgs|
    ensures EthereumFrom(msgs, m) == 0 <==> forall j :: m <= j < |msgs| ==> msgs[j].Other?
    decreases |msgs| - m
  {
    if m < |msgs| {
      NoEthereumIsOther(msgs, m + 1);
    }
  }

  lemma {:induction false} NoStrayIsMarked(txs: seq<CosmosTx>, i: nat)
    requires i <= |txs|
    ensures StrayFrom(txs, i) == 0 <==> forall j :: i <= j < |txs| ==> txs[j].ethExtension || AllOther(txs[j].msgs)
    decreases |txs| - i
  {
    if i < |txs| {
      NoStrayIsMarked(txs, i + 1);
      NoEthereumIsOther(txs[i].msgs, 0);
    }
  }

  /**
   For every block the indexer accepts, the live view exists and is the stored
   one exactly when the block is marked; where it exists it is longer by the
   Ethereum messages of unmarked transactions.
   */
  lemma {:induction false} ViewsAgreeIffMarked(cfg: Config, block: Block, results: BlockResults)
    requires cfg.virtualization && IndexedBlock(cfg, block, Some(results)).Ok?
    ensures var stored, live := IndexedBlock(cfg, block, Some(results)).value,
            LiveView(cfg.chain, block, Some(results));
            && (live.Ok? && SameView(stored.items, stored.groups, live.value) <==> EthereumMarked(block.txs))
            && (live.Ok? ==> |live.value.transactions| == |stored.items| + StrayFrom(block.txs, 0))
  {
    if EthereumMarked(block.txs) {
      CachedViewIsLiveView(cfg, block, results);
    }
    NoStrayIsMarked(block.txs, 0);
    if LiveView(cfg.chain, block, Some(results)).Ok? {
      ViewsCount(cfg, block, results);
    }
  }

  lemma {:induction false} ViewsCount(cfg: Config, block: Block, results: BlockResults)
    requires cfg.virtualization
    requires IndexedBlock(cfg, block, Some(results)).Ok? && LiveView(cfg.chain, block, Some(results)).Ok?
    ensures |LiveView(cfg.chain, block, Some(results)).value.transactions| ==
            |IndexedBlock(cfg, block, Some(results)).value.items| + StrayFrom(block.txs, 0)
  {
    var events := results.finalize.value;
    TransactionsCount(cfg, block, results.normalized.value, BeginBlock(cfg, block, Phase(events, true), START),
                      LiveBegin(cfg.chain, block, Phase(events, true), EMPTY), 0);
  }
}
