/** Transactions and logs of a stored block are numbered without gaps across the whole block. */
module Numbering {
  import opened Common
  import opened VirtualLogs
  import opened Synthetic
  import opened BlockModel
  import opened IndexFold

  /** The transaction, its receipt and its logs all name the same place in the same block. */
  ghost predicate Placed(tx: Tx, blockHash: Hash, blockNumber: u64, index: nat) {
    && tx.transaction.index == index && tx.receipt.index == index
    && tx.receipt.txHash == tx.transaction.hash
    && tx.transaction.blockHash == blockHash && tx.receipt.blockHash == blockHash
    && tx.transaction.blockNumber == blockNumber && tx.receipt.blockNumber == blockNumber
  }

  function LogTotal(txs: seq<Tx>): nat {
    if txs == [] then 0 else LogTotal(txs[..|txs| - 1]) + |txs[|txs| - 1].receipt.logs|
  }

  function EthCount(items: seq<Item>): nat {
    if items == [] then 0 else EthCount(items[..|items| - 1]) + if items[|items| - 1].record.Some? then 1 else 0
  }

  function HashesOf(items: seq<Item>): seq<Hash> {
    seq(|items|, i requires 0 <= i < |items| => items[i].tx.transaction.hash)
  }

  /** Item `i` sits at index `i`, owns log group `i`, and numbers its Ethereum record after those before it. */
  ghost predicate ItemAt(block: Block, items: seq<Item>, groups: seq<seq<RpcLog>>, i: nat)
    requires i < |items| == |groups|
  {
    && Placed(items[i].tx, block.hash, block.height, i)
    && groups[i] == items[i].tx.receipt.logs
    && (items[i].record.Some? ==>
          items[i].record.value.height == block.height && items[i].record.value.ethTxIndex == EthCount(items[..i]))
  }

  ghost predicate LogsAt(items: seq<Item>, groups: seq<seq<RpcLog>>, i: nat)
    requires i < |items| == |groups|
  {
    NumberedFrom(groups[i], items[i].tx.transaction, |Flatten(groups[..i])|)
  }

  ghost predicate Numbered(cfg: Config, block: Block, acc: Acc) {
    && |acc.items| == |acc.groups| == acc.rpcTxIndex
    && acc.ethTxIndex == EthCount(acc.items)
    && acc.flatLogs == Flatten(acc.groups)
    && (forall i :: 0 <= i < |acc.items| ==> ItemAt(block, acc.items, acc.groups, i))
    && (cfg.virtualization ==>
          && acc.visible == HashesOf(acc.items)
          && acc.logIndex == |acc.flatLogs|
          && forall i :: 0 <= i < |acc.items| ==> LogsAt(acc.items, acc.groups, i))
    && (!cfg.virtualization ==> acc.ethTxIndex == acc.rpcTxIndex)
  }

  /** One more visible transaction keeps the numbering. */
  lemma {:induction false} VisibleNumbered(cfg: Config, block: Block, acc: Acc, item: Item, logIndex: nat)
    requires Numbered(cfg, block, acc)
    requires Placed(item.tx, block.hash, block.height, acc.rpcTxIndex)
    requires item.record.Some? ==>
               item.record.value.height == block.height && item.record.value.ethTxIndex == acc.ethTxIndex
    requires cfg.virtualization ==> NumberedFrom(item.tx.receipt.logs, item.tx.transaction, acc.logIndex)
    requires cfg.virtualization ==> logIndex == acc.logIndex + |item.tx.receipt.logs|
    requires !cfg.virtualization ==> item.record.Some?
    ensures Numbered(cfg, block, Visible(cfg, acc, item).(logIndex := logIndex))
  {
    var next := Visible(cfg, acc, item).(logIndex := logIndex);
    var n := |acc.items|;
    FlattenSnoc(acc.groups, item.tx.receipt.logs);
    assert next.items[..n] == acc.items && next.groups[..n] == acc.groups;
    forall i | 0 <= i < |next.items|
      ensures ItemAt(block, next.items, next.groups, i)
      ensures cfg.virtualization ==> LogsAt(next.items, next.groups, i)
    {
      if i < n {
        assert ItemAt(block, acc.items, acc.groups, i);
        assert cfg.virtualization ==> LogsAt(acc.items, acc.groups, i);
        assert next.items[..i] == acc.items[..i] && next.groups[..i] == acc.groups[..i];
      }
    }
    assert cfg.virtualization ==> next.visible == HashesOf(next.items);
  }

  /** The transactions of one response, placed one after the other. */
  ghost predicate InSequence(txs: seq<Tx>, blockHash: Hash, blockNumber: u64, index: nat, first: nat) {
    forall k :: 0 <= k < |txs| ==> Follows(txs[k], blockHash, blockNumber, index + k, first + LogTotal(txs[..k]))
  }

  ghost predicate Follows(tx: Tx, blockHash: Hash, blockNumber: u64, index: nat, first: nat) {
    Placed(tx, blockHash, blockNumber, index) && NumberedFrom(tx.receipt.logs, tx.transaction, first)
  }

  lemma {:induction false} SequenceSnoc(txs: seq<Tx>, tx: Tx, blockHash: Hash, blockNumber: u64, index: nat, first: nat)
    requires InSequence(txs, blockHash, blockNumber, index, first)
    requires Follows(tx, blockHash, blockNumber, index + |txs|, first + LogTotal(txs))
    ensures InSequence(txs + [tx], blockHash, blockNumber, index, first)
    ensures LogTotal(txs + [tx]) == LogTotal(txs) + |tx.receipt.logs|
  {
    var all := txs + [tx];
    assert all[..|txs|] == txs;
    forall k | 0 <= k < |all| ensures Follows(all[k], blockHash, blockNumber, index + k, first + LogTotal(all[..k])) {
      if k < |txs| {
        assert all[..k] == txs[..k];
      }
    }
  }

  lemma {:induction false} SequenceInit(txs: seq<Tx>, blockHash: Hash, blockNumber: u64, index: nat, first: nat)
    requires txs != [] && InSequence(txs, blockHash, blockNumber, index, first)
    ensures var n := |txs| - 1;
            && InSequence(txs[..n], blockHash, blockNumber, index, first)
            && Follows(txs[n], blockHash, blockNumber, index + n, first + LogTotal(txs[..n]))
  {
    hide Follows, LogTotal;
    var init := txs[..|txs| - 1];
    forall k | 0 <= k < |init|
      ensures Follows(init[k], blockHash, blockNumber, index + k, first + LogTotal(init[..k]))
    {
      assert init[..k] == txs[..k];
    }
  }

  lemma {:induction false} VirtualsNumbered(cfg: Config, block: Block, acc: Acc, txs: seq<Tx>)
    requires cfg.virtualization && Numbered(cfg, block, acc)
    requires InSequence(txs, block.hash, block.height, acc.rpcTxIndex, acc.logIndex)
    ensures Numbered(cfg, block, StoreVirtuals(cfg, acc, txs))
    ensures StoreVirtuals(cfg, acc, txs).rpcTxIndex == acc.rpcTxIndex + |txs|
    ensures StoreVirtuals(cfg, acc, txs).logIndex == acc.logIndex + LogTotal(txs)
  {
    hide Numbered, InSequence;
    if txs != [] {
      var init, last := txs[..|txs| - 1], txs[|txs| - 1];
      SequenceInit(txs, block.hash, block.height, acc.rpcTxIndex, acc.logIndex);
      VirtualsNumbered(cfg, block, acc, init);
      var before := StoreVirtuals(cfg, acc, init);
      VisibleNumbered(cfg, block, before, Item(last, None), before.logIndex + |last.receipt.logs|);
    }
  }

  // ---------- synthetic transactions are in sequence ----------

  lemma {:induction false} SyntheticTxPlaced(
      r: Response, ctx: TxContext, events: seq<Entry>, hook: Option<HookCall>, hash: Hash, gas: u64)
    ensures var tx := SyntheticTx(r, ctx, events, hook, hash, gas);
            && Placed(tx, ctx.blockHash, ctx.blockNumber, ctx.txIndex)
            && NumberedFrom(tx.receipt.logs, tx.transaction, ctx.firstLogIndex)
            && |tx.receipt.logs| == SumLogs(events)
  {
    LogCount(events, Some(ctx.cosmosHash));
  }

  lemma {:induction false} BankPartPlaced(r: Response, ctx: TxContext, bank: seq<Entry>, hooks: seq<Entry>)
    ensures InSequence(BankPart(r, ctx, bank, hooks), ctx.blockHash, ctx.blockNumber, ctx.txIndex, ctx.firstLogIndex)
    ensures LogTotal(BankPart(r, ctx, bank, hooks)) == SumLogs(bank)
    ensures |BankPart(r, ctx, bank, hooks)| == if bank == [] then 0 else 1
  {
    if bank != [] {
      SyntheticTxPlaced(r, BankContext(ctx), bank, None, ctx.chain.keccak(ctx.cosmosHash), BankGas(r, ctx, hooks));
    }
  }

  lemma {:induction false} HookTxPlaced(r: Response, ctx: TxContext, bank: seq<Entry>, hooks: seq<Entry>, i: nat)
    requires i < |hooks| && MsgOf(hooks[i]) >= 0
    ensures var tx := HookTx(r, ctx, bank, hooks, i);
            && Follows(tx, ctx.blockHash, ctx.blockNumber, ctx.txIndex + (if bank == [] then 0 else 1) + i,
                       ctx.firstLogIndex + SumLogs(bank) + SumLogs(hooks[..i]))
            && |tx.receipt.logs| == |hooks[i].logs|
    ensures SumLogs(hooks[..i + 1]) == SumLogs(hooks[..i]) + |hooks[i].logs|
  {
    hide SyntheticTx, PreimageOf, Placed, NumberedFrom, U64;
    SyntheticTxPlaced(r, HookContext(r, ctx, bank, hooks, i), [hooks[i]], hooks[i].hook,
                      ctx.chain.keccak(PreimageOf(ctx.cosmosHash, hooks, i)), HookGas(hooks[i]));
    assert SumLogs([hooks[i]]) == |hooks[i].logs|;
    assert hooks[..i + 1][..i] == hooks[..i];
  }

  lemma {:induction false} HookTxsSnoc(
      r: Response, ctx: TxContext, bank: seq<Entry>, hooks: seq<Entry>, n: nat, envelope: seq<Tx>)
    requires n < |hooks| && Indexed(hooks, ctx.totalMessages)
    ensures envelope + HookTxs(r, ctx, bank, hooks, n + 1) ==
            (envelope + HookTxs(r, ctx, bank, hooks, n)) + [HookTx(r, ctx, bank, hooks, n)]
  {
    hide HookTx;
  }

  lemma {:induction false} HookTxsPlaced(
      r: Response, ctx: TxContext, bank: seq<Entry>, hooks: seq<Entry>, envelope: seq<Tx>, n: nat)
    requires n <= |hooks| && Indexed(hooks, ctx.totalMessages)
    requires InSequence(envelope, ctx.blockHash, ctx.blockNumber, ctx.txIndex, ctx.firstLogIndex)
    requires LogTotal(envelope) == SumLogs(bank) && |envelope| == if bank == [] then 0 else 1
    ensures var txs := envelope + HookTxs(r, ctx, bank, hooks, n);
            && InSequence(txs, ctx.blockHash, ctx.blockNumber, ctx.txIndex, ctx.firstLogIndex)
            && LogTotal(txs) == SumLogs(bank) + SumLogs(hooks[..n])
  {
    hide HookTx, InSequence, Follows, LogTotal;
    if n == 0 {
      assert envelope + HookTxs(r, ctx, bank, hooks, n) == envelope && hooks[..0] == [];
    } else {
      HookTxsAt(r, ctx, bank, hooks, n - 1);
      HookTxsPlaced(r, ctx, bank, hooks, envelope, n - 1);
      HookTxPlaced(r, ctx, bank, hooks, n - 1);
      HookTxsSnoc(r, ctx, bank, hooks, n - 1, envelope);
      SequenceSnoc(envelope + HookTxs(r, ctx, bank, hooks, n - 1), HookTx(r, ctx, bank, hooks, n - 1),
                   ctx.blockHash, ctx.blockNumber, ctx.txIndex, ctx.firstLogIndex);
    }
  }

  /** Whatever the events, synthetic transactions continue the numbering they are given. */
  lemma {:induction false} SyntheticInSequence(r: Response, ctx: TxContext)
    requires SyntheticTxsOf(r, ctx).Some?
    ensures InSequence(SyntheticTxsOf(r, ctx).value, ctx.blockHash, ctx.blockNumber, ctx.txIndex, ctx.firstLogIndex)
  {
    var bank, found := BankEvents(r.entries, ctx), HookEvents(r.entries, ctx);
    if found == [] {
      if bank != [] {
        SyntheticTxPlaced(r, ctx, bank, None, ctx.chain.keccak(ctx.cosmosHash), r.gasUsed);
      }
    } else {
      SortKeepsIndexes(found, ctx.totalMessages);
      BankPartPlaced(r, ctx, bank, SortHooks(found));
      HookTxsPlaced(r, ctx, bank, SortHooks(found), BankPart(r, ctx, bank, SortHooks(found)), |SortHooks(found)|);
    }
  }

  // ---------- the fold ----------

  lemma {:induction false} GroupNumbered(
      cfg: Config, block: Block, acc: Acc, native: seq<EthLog>, response: Response, m: nat, total: nat, tx: RpcTx)
    requires cfg.virtualization && tx.blockHash == block.hash && tx.blockNumber == block.height
    ensures NumberedFrom(MessageGroup(cfg, block, acc, native, response, m, total, tx.hash, tx.index), tx, acc.logIndex)
  {
  }

  lemma {:induction false} MessageNumbered(
      cfg: Config, block: Block, acc: Acc, i: nat, result: TxResult, parsed: seq<ParsedTx>, response: Response,
      total: nat, m: nat, msg: EthMsg, spent: u64)
    requires Numbered(cfg, block, acc)
    requires IndexMessage(cfg, block, acc, i, result, parsed, response, total, m, msg, spent).Ok?
    ensures Numbered(cfg, block,
                     IndexMessage(cfg, block, acc, i, result, parsed, response, total, m, msg, spent).value.0)
  {
    var outcome := Outcome(msg, result, parsed, m, acc.ethTxIndex).value;
    var native := NativeLogs(msg, result, outcome.failed).value;
    var index := VisibleIndex(cfg, acc);
    var logs := MessageGroup(cfg, block, acc, native, response, m, total, outcome.hash, index);
    var cumulative := Add64(spent, outcome.gasUsed);
    var tx := EthTx(block, acc, msg, msg.sender.value, outcome, cumulative, logs, index);
    if cfg.virtualization {
      GroupNumbered(cfg, block, acc, native, response, m, total, tx.transaction);
    }
    var record := EthRecord(block.height, i, m, acc.ethTxIndex, outcome.failed, outcome.gasUsed, cumulative);
    VisibleNumbered(cfg, block, acc, Item(tx, Some(record)), acc.logIndex + if cfg.virtualization then |logs| else 0);
  }

  lemma {:induction false} MessagesNumbered(
      cfg: Config, block: Block, acc: Acc, i: nat, result: TxResult, parsed: seq<ParsedTx>, response: Response,
      msgs: seq<Msg>, m: nat, spent: u64)
    requires m <= |msgs| && Numbered(cfg, block, acc)
    requires IndexMessages(cfg, block, acc, i, result, parsed, response, msgs, m, spent).Ok?
    ensures Numbered(cfg, block, IndexMessages(cfg, block, acc, i, result, parsed, response, msgs, m, spent).value.0)
    decreases |msgs| - m
  {
    if m < |msgs| {
      if msgs[m].Other? {
        MessagesNumbered(cfg, block, acc, i, result, parsed, response, msgs, m + 1, spent);
      } else {
        MessageNumbered(cfg, block, acc, i, result, parsed, response, |msgs|, m, msgs[m].eth, spent);
        var step := IndexMessage(cfg, block, acc, i, result, parsed, response, |msgs|, m, msgs[m].eth, spent).value;
        MessagesNumbered(cfg, block, step.0, i, result, parsed, response, msgs, m + 1, step.1);
      }
    }
  }

  lemma {:induction false} SyntheticNumbered(
      cfg: Config, block: Block, acc: Acc, tx: CosmosTx, response: Response, gas: u64)
    requires Numbered(cfg, block, acc) && IndexSynthetic(cfg, block, acc, tx, response, gas).Ok?
    ensures Numbered(cfg, block, IndexSynthetic(cfg, block, acc, tx, response, gas).value)
  {
    if cfg.virtualization {
      var ctx := SyntheticContext(cfg, block, acc, tx, gas);
      SyntheticInSequence(response, ctx);
      VirtualsNumbered(cfg, block, acc, SyntheticTxsOf(response, ctx).value);
    }
  }

  lemma {:induction false} TransactionNumbered(
      cfg: Config, block: Block, results: seq<Option<TxResult>>, acc: Acc, i: nat)
    requires i < |block.txs| && Numbered(cfg, block, acc) && IndexTransaction(cfg, block, results, acc, i).Ok?
    ensures Numbered(cfg, block, IndexTransaction(cfg, block, results, acc, i).value)
  {
    var tx, result := block.txs[i], results[i].value;
    var response := ResponseFor(cfg, result).value;
    if tx.ethExtension {
      MessagesNumbered(cfg, block, acc, i, result, result.parsed.value, response, tx.msgs, 0, 0);
      var done := IndexMessages(cfg, block, acc, i, result, result.parsed.value, response, tx.msgs, 0, 0).value;
      SyntheticNumbered(cfg, block, done.0, tx, response, done.1);
    } else {
      SyntheticNumbered(cfg, block, acc, tx, response, 0);
    }
  }

  lemma {:induction false} TransactionsNumbered(
      cfg: Config, block: Block, results: seq<Option<TxResult>>, acc: Acc, i: nat)
    requires i <= |block.txs| && Numbered(cfg, block, acc) && IndexTransactions(cfg, block, results, acc, i).Ok?
    ensures Numbered(cfg, block, IndexTransactions(cfg, block, results, acc, i).value)
    decreases |block.txs| - i
  {
    if i < |block.txs| {
      TransactionNumbered(cfg, block, results, acc, i);
      TransactionsNumbered(cfg, block, results, IndexTransaction(cfg, block, results, acc, i).value, i + 1);
    }
  }

  lemma {:induction false} BlockTxPlaced(hash: Hash, logs: seq<EthLog>, ctx: LogContext, gas: u64)
    ensures var tx := NewBlockTx(hash, logs, ctx, gas);
            Placed(tx, ctx.blockHash, ctx.blockNumber, ctx.txIndex) &&
            (ctx.txHash == hash ==> NumberedFrom(tx.receipt.logs, tx.transaction, ctx.firstLogIndex))
  {
  }

  /** The state of the fold when the block is complete. */
  function Completed(cfg: Config, block: Block, results: Option<BlockResults>): Result<Acc, IndexError>
    requires NormalizedResults(results).Some? && FinalizeEvents(cfg, results).Some?
  {
    var events := FinalizeEvents(cfg, results).value;
    var acc :- IndexTransactions(cfg, block, NormalizedResults(results).value,
                                 BeginBlock(cfg, block, Phase(events, true), START), 0);
    Ok(EndBlock(cfg, block, Phase(events, false), acc))
  }

  lemma {:induction false} BeginNumbered(cfg: Config, block: Block, events: seq<EthLog>)
    requires events != [] ==> cfg.virtualization
    ensures Numbered(cfg, block, BeginBlock(cfg, block, events, START))
  {
    assert Numbered(cfg, block, START);
    if events != [] {
      var hash := BeginHash(cfg.chain, block.height);
      var ctx := ContextFor(block, START, hash, 0);
      BlockTxPlaced(hash, events, ctx, 0);
      VisibleNumbered(cfg, block, START, Item(NewBlockTx(hash, events, ctx, 0), None), |events|);
    }
  }

  lemma {:induction false} EndNumbered(cfg: Config, block: Block, events: seq<EthLog>, acc: Acc)
    requires Numbered(cfg, block, acc) && (events != [] ==> cfg.virtualization)
    ensures Numbered(cfg, block, EndBlock(cfg, block, events, acc))
  {
    if events != [] {
      var hash := EndHash(cfg.chain, block.height);
      var ctx := ContextFor(block, acc, hash, acc.rpcTxIndex);
      BlockTxPlaced(hash, events, ctx, acc.gasBefore);
      var item := Item(NewBlockTx(hash, events, ctx, acc.gasBefore), None);
      VisibleNumbered(cfg, block, acc, item, acc.logIndex + |events|);
    }
  }

  lemma {:induction false} CompletedNumbered(cfg: Config, block: Block, results: Option<BlockResults>)
    requires NormalizedResults(results).Some? && FinalizeEvents(cfg, results).Some?
    requires Completed(cfg, block, results).Ok?
    ensures Numbered(cfg, block, Completed(cfg, block, results).value)
  {
    hide Numbered, IndexTransactions, BeginBlock, EndBlock;
    var events, normalized := FinalizeEvents(cfg, results).value, NormalizedResults(results).value;
    var start := BeginBlock(cfg, block, Phase(events, true), START);
    BeginNumbered(cfg, block, Phase(events, true));
    TransactionsNumbered(cfg, block, normalized, start, 0);
    EndNumbered(cfg, block, Phase(events, false), IndexTransactions(cfg, block, normalized, start, 0).value);
  }

  /** The check that the transaction root covers every visible transaction can never fail. */
  lemma {:induction false} RootCountNeverMismatches(cfg: Config, block: Block, results: Option<BlockResults>)
    ensures IndexedBlock(cfg, block, results) != Err(RootCountMismatch)
    ensures IndexedBlock(cfg, block, results).Ok? <==>
            && NormalizedResults(results).Some? && FinalizeEvents(cfg, results).Some?
            && Completed(cfg, block, results).Ok?
  {
    if NormalizedResults(results).Some? && FinalizeEvents(cfg, results).Some? {
      if Completed(cfg, block, results).Ok? {
        CompletedNumbered(cfg, block, results);
      } else {
        NoMismatchBefore(cfg, block, NormalizedResults(results).value,
                         BeginBlock(cfg, block, Phase(FinalizeEvents(cfg, results).value, true), START), 0);
      }
    }
  }

  lemma {:induction false} NoMismatchInMessages(
      cfg: Config, block: Block, acc: Acc, i: nat, result: TxResult, parsed: seq<ParsedTx>, response: Response,
      msgs: seq<Msg>, m: nat, spent: u64)
    requires m <= |msgs|
    ensures IndexMessages(cfg, block, acc, i, result, parsed, response, msgs, m, spent) != Err(RootCountMismatch)
    decreases |msgs| - m
  {
    if m < |msgs| {
      if msgs[m].Other? {
        NoMismatchInMessages(cfg, block, acc, i, result, parsed, response, msgs, m + 1, spent);
      } else {
        var step := IndexMessage(cfg, block, acc, i, result, parsed, response, |msgs|, m, msgs[m].eth, spent);
        if step.Ok? {
          NoMismatchInMessages(cfg, block, step.value.0, i, result, parsed, response, msgs, m + 1, step.value.1);
        }
      }
    }
  }

  lemma {:induction false} NoMismatchBefore(cfg: Config, block: Block, results: seq<Option<TxResult>>, acc: Acc, i: nat)
    requires i <= |block.txs|
    ensures IndexTransactions(cfg, block, results, acc, i) != Err(RootCountMismatch)
    decreases |block.txs| - i
  {
    if i < |block.txs| {
      if i < |results| && results[i].Some? && ResponseFor(cfg, results[i].value).Some? &&
         results[i].value.parsed.Some? {
        var result := results[i].value;
        NoMismatchInMessages(cfg, block, acc, i, result, result.parsed.value, ResponseFor(cfg, result).value,
                             block.txs[i].msgs, 0, 0);
      }
      var next := IndexTransaction(cfg, block, results, acc, i);
      if next.Ok? {
        NoMismatchBefore(cfg, block, results, next.value, i + 1);
      }
    }
  }

  // ---------- what a stored block looks like ----------

  /** One log group per visible transaction; indexes, hashes and block identity line up everywhere. */
  ghost predicate WellNumbered(block: Block, stored: StoredBlock) {
    && stored.meta.height == block.height && stored.meta.hash == block.hash
    && stored.meta.ethTxCount == |stored.items| == |stored.groups|
    && stored.meta.txCount == |block.txs|
    && forall i :: 0 <= i < |stored.items| ==> ItemAt(block, stored.items, stored.groups, i)
  }

  lemma {:induction false} FlatOrigin(groups: seq<seq<RpcLog>>, k: nat) returns (i: nat, j: nat)
    requires k < |Flatten(groups)|
    ensures i < |groups| && j < |groups[i]| && k == |Flatten(groups[..i])| + j
    ensures Flatten(groups)[k] == groups[i][j]
  {
    var init := groups[..|groups| - 1];
    if k < |Flatten(init)| {
      i, j := FlatOrigin(init, k);
      assert init[..i] == groups[..i];
    } else {
      i, j := |groups| - 1, k - |Flatten(init)|;
    }
  }

  /** Every accepted block is well numbered, in either mode. */
  lemma {:induction false} StoredBlockWellNumbered(cfg: Config, block: Block, results: Option<BlockResults>)
    requires IndexedBlock(cfg, block, results).Ok?
    ensures WellNumbered(block, IndexedBlock(cfg, block, results).value)
    ensures var stored := IndexedBlock(cfg, block, results).value;
            && stored.meta.virtualized == cfg.virtualization
            && stored.meta.bloom == cfg.bloomOf(Flatten(stored.groups))
            && stored.meta.transactionsRoot == if stored.items == [] then cfg.emptyRoot
                                               else if cfg.virtualization then cfg.rootOf(HashesOf(stored.items))
                                               else block.dataHash
    ensures !cfg.virtualization ==>
            forall i :: 0 <= i < |IndexedBlock(cfg, block, results).value.items| ==>
              IndexedBlock(cfg, block, results).value.items[i].record.Some?
  {
    RootCountNeverMismatches(cfg, block, results);
    CompletedNumbered(cfg, block, results);
    if !cfg.virtualization {
      AllEthereum(Completed(cfg, block, results).value.items);
    }
  }

  lemma {:induction false} AllEthereum(items: seq<Item>)
    ensures EthCount(items) <= |items|
    ensures EthCount(items) == |items| ==> forall i :: 0 <= i < |items| ==> items[i].record.Some?
  {
    if items != [] {
      AllEthereum(items[..|items| - 1]);
    }
  }

  /**
   With virtualization on, the flattened logs are numbered 0, 1, 2, ... and log
   number k carries the position and hash of the transaction it belongs to; the
   root and the bloom cover exactly the visible transactions and logs.
   */
  lemma {:induction false} BlockWideNumbering(cfg: Config, block: Block, results: Option<BlockResults>)
    requires cfg.virtualization && IndexedBlock(cfg, block, results).Ok?
    ensures var stored := IndexedBlock(cfg, block, results).value;
            var flat := Flatten(stored.groups);
            && (forall k :: 0 <= k < |flat| ==> flat[k].index == k)
            && |stored.items| == |stored.groups|
            && (forall i, j :: 0 <= i < |stored.groups| && 0 <= j < |stored.groups[i]| ==>
                  && stored.groups[i][j].txIndex == i
                  && stored.groups[i][j].txHash == stored.items[i].tx.transaction.hash
                  && stored.groups[i][j].blockHash == block.hash && stored.groups[i][j].blockNumber == block.height)
            && stored.meta.bloom == cfg.bloomOf(flat)
            && stored.meta.transactionsRoot == if stored.items == [] then cfg.emptyRoot
                                               else cfg.rootOf(HashesOf(stored.items))
  {
    RootCountNeverMismatches(cfg, block, results);
    CompletedNumbered(cfg, block, results);
    StoredBlockWellNumbered(cfg, block, results);
    var stored, acc := IndexedBlock(cfg, block, results).value, Completed(cfg, block, results).value;
    var flat := Flatten(stored.groups);
    forall k | 0 <= k < |flat| ensures flat[k].index == k {
      var i, j := FlatOrigin(stored.groups, k);
      assert LogsAt(acc.items, acc.groups, i);
    }
    forall i, j | 0 <= i < |stored.groups| && 0 <= j < |stored.groups[i]|
      ensures stored.groups[i][j].txIndex == i && stored.groups[i][j].txHash == stored.items[i].tx.transaction.hash
      ensures stored.groups[i][j].blockHash == block.hash && stored.groups[i][j].blockNumber == block.height
    {
      assert LogsAt(acc.items, acc.groups, i) && ItemAt(block, acc.items, acc.groups, i);
    }
  }
}
