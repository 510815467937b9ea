/**
 What a stored block holds, named from the block and its results: the begin and
 end transactions, and one transaction for every Ethereum message of a marked
 transaction, with that message's own outcome, logs and gas.
 */
module BlockContent {
  import opened Common
  import opened VirtualLogs
  import opened Synthetic
  import opened SyntheticIdentity
  import opened SyntheticContent
  import opened BlockModel
  import opened IndexFold
  import opened Gas
  import opened BlockGas

  // ---------- the begin and end of a block ----------

  /** A bank transaction of the block itself that shows the listed events, with `gas` used up to it. */
  ghost predicate IsPhaseTx(item: Item, hash: Hash, events: seq<BlockEvent>, at: seq<nat>, gas: u64) {
    var tx, receipt := item.tx.transaction, item.tx.receipt;
    && item.record == None && tx.hash == hash && tx.isVirtual && tx.cosmosHash == None && tx.cosmosMsgIndex == None
    && tx.from == ZERO_ADDRESS && tx.to == Some(BANK_CONTRACT) && tx.gas == 0 && tx.input == [] && tx.txType == 0
    && receipt.status == 1 && receipt.gasUsed == 0 && receipt.cumulativeGasUsed == gas && receipt.contract == None
    && receipt.from == ZERO_ADDRESS && receipt.to == Some(BANK_CONTRACT) && receipt.txType == 0
    && |receipt.logs| == |at|
    && forall k :: 0 <= k < |at| ==> at[k] < |events| && ShowsRaw(receipt.logs[k], events[at[k]].log, true)
  }

  /** The log says what the decoded log says, and whether it is a virtual one. */
  ghost predicate ShowsRaw(log: RpcLog, raw: EthLog, isVirtual: bool) {
    && log.address == raw.address && log.topics == raw.topics && log.data == raw.data && log.removed == raw.removed
    && log.isVirtual == isVirtual && log.cosmosHash == None && log.cosmosMsgIndex == None
  }

  lemma {:induction false} PhaseTxIs(
      hash: Hash, logs: seq<EthLog>, ctx: LogContext, gas: u64, events: seq<BlockEvent>, at: seq<nat>)
    requires LogsOfEvents(logs, events, at) && ctx.cosmosHash == None
    ensures IsPhaseTx(Item(NewBlockTx(hash, logs, ctx, gas), None), hash, events, at, gas)
  {
  }

  lemma {:induction false} VirtualsKept(cfg: Config, acc: Acc, txs: seq<Tx>)
    ensures acc.items <= StoreVirtuals(cfg, acc, txs).items
  {
    if txs != [] {
      VirtualsKept(cfg, acc, txs[..|txs| - 1]);
    }
  }

  lemma {:induction false} SyntheticKept(
      cfg: Config, block: Block, acc: Acc, tx: CosmosTx, response: Response, gas: u64)
    requires IndexSynthetic(cfg, block, acc, tx, response, gas).Ok?
    ensures acc.items <= IndexSynthetic(cfg, block, acc, tx, response, gas).value.items
  {
    hide SyntheticTxsOf;
    if cfg.virtualization {
      VirtualsKept(cfg, acc, SyntheticTxsOf(response, SyntheticContext(cfg, block, acc, tx, gas)).value);
    }
  }

  lemma {:induction false} MessageKept(
      cfg: Config, block: Block, acc: Acc, i: nat, result: TxResult, parsed: seq<ParsedTx>, response: Response,
      total: nat, m: nat, msg: EthMsg, spent: u64)
    requires IndexMessage(cfg, block, acc, i, result, parsed, response, total, m, msg, spent).Ok?
    ensures acc.items <= IndexMessage(cfg, block, acc, i, result, parsed, response, total, m, msg, spent).value.0.items
  {
    hide Outcome, NativeLogs, MessageGroup, EthTx;
  }

  lemma {:induction false} MessagesKept(
      cfg: Config, block: Block, acc: Acc, i: nat, result: TxResult, parsed: seq<ParsedTx>, response: Response,
      msgs: seq<Msg>, m: nat, spent: u64)
    requires m <= |msgs| && IndexMessages(cfg, block, acc, i, result, parsed, response, msgs, m, spent).Ok?
    ensures acc.items <= IndexMessages(cfg, block, acc, i, result, parsed, response, msgs, m, spent).value.0.items
    decreases |msgs| - m
  {
    hide IndexMessage;
    if m < |msgs| {
      if msgs[m].Other? {
        MessagesKept(cfg, block, acc, i, result, parsed, response, msgs, m + 1, spent);
      } else {
        var step := IndexMessage(cfg, block, acc, i, result, parsed, response, |msgs|, m, msgs[m].eth, spent).value;
        MessageKept(cfg, block, acc, i, result, parsed, response, |msgs|, m, msgs[m].eth, spent);
        MessagesKept(cfg, block, step.0, i, result, parsed, response, msgs, m + 1, step.1);
      }
    }
  }

  lemma {:induction false} TransactionsKept(cfg: Config, block: Block, results: seq<Option<TxResult>>, acc: Acc, i: nat)
    requires i <= |block.txs| && IndexTransactions(cfg, block, results, acc, i).Ok?
    ensures acc.items <= IndexTransactions(cfg, block, results, acc, i).value.items
    decreases |block.txs| - i
  {
    hide IndexMessages, IndexSynthetic;
    if i < |block.txs| {
      var tx, result := block.txs[i], results[i].value;
      var response := ResponseFor(cfg, result).value;
      if tx.ethExtension {
        MessagesKept(cfg, block, acc, i, result, result.parsed.value, response, tx.msgs, 0, 0);
        var done := IndexMessages(cfg, block, acc, i, result, result.parsed.value, response, tx.msgs, 0, 0).value;
        SyntheticKept(cfg, block, done.0, tx, response, done.1);
      } else {
        SyntheticKept(cfg, block, acc, tx, response, 0);
      }
      TransactionsKept(cfg, block, results, IndexTransaction(cfg, block, results, acc, i).value, i + 1);
    }
  }

  /**
   With virtualization the first transaction of a block shows exactly its begin
   events, if there are any, and the last one its end events, if there are any,
   each in event order; the last one stands at the block's gas.
   */
  lemma {:induction false} PhasesShown(cfg: Config, block: Block, results: BlockResults)
    returns (beginAt: seq<nat>, endAt: seq<nat>)
    requires cfg.virtualization && IndexedBlock(cfg, block, Some(results)).Ok?
    ensures PhaseAt(results.finalize.value, true, beginAt) && PhaseAt(results.finalize.value, false, endAt)
    ensures var events, stored := results.finalize.value, IndexedBlock(cfg, block, Some(results)).value;
            && (beginAt != [] ==>
                  stored.items != [] &&
                  IsPhaseTx(stored.items[0], cfg.chain.keccak(BeginPreimage(block.height)), events, beginAt, 0))
            && (endAt != [] ==>
                  stored.items != [] &&
                  IsPhaseTx(stored.items[|stored.items| - 1], cfg.chain.keccak(EndPreimage(block.height)), events,
                            endAt,
                            stored.meta.gasUsed))
  {
    hide IndexTransactions, NewBlockTx, IsPhaseTx, Phase, PhaseAt, U64;
    var events, normalized := results.finalize.value, results.normalized.value;
    beginAt := PhaseExact(events, true);
    endAt := PhaseExact(events, false);
    var begin, end := Phase(events, true), Phase(events, false);
    var start := BeginBlock(cfg, block, begin, START);
    var acc := IndexTransactions(cfg, block, normalized, start, 0).value;
    TransactionsKept(cfg, block, normalized, start, 0);
    TransactionsCharged(cfg, block, normalized, start, 0);
    var beginHash, endHash := BeginHash(cfg.chain, block.height), EndHash(cfg.chain, block.height);
    PhaseTxIs(beginHash, begin, ContextFor(block, START, beginHash, 0), 0, events, beginAt);
    PhaseTxIs(endHash, end, ContextFor(block, acc, endHash, acc.rpcTxIndex), acc.gasBefore, events, endAt);
  }

  // ---------- the logs of an Ethereum message ----------

  /** The events of a result that a message takes, in event order. */
  ghost predicate TakenFrom(events: seq<Event>, m: int, total: int, at: seq<nat>) {
    && Increasing(at)
    && forall i: nat :: i in at <==> i < |events| && events[i].Tracked? && Takes(m, events[i].entry, total)
  }

  ghost function EntriesOf(events: seq<Event>, at: seq<nat>): seq<Entry>
    requires forall k :: 0 <= k < |at| ==> at[k] < |events| && events[at[k]].Tracked?
  {
    seq(|at|, k requires 0 <= k < |at| => events[at[k]].entry)
  }

  lemma {:induction false} TakenInRange(events: seq<Event>, m: int, total: int, at: seq<nat>)
    requires TakenFrom(events, m, total, at)
    ensures forall k :: 0 <= k < |at| ==> at[k] < |events| && events[at[k]].Tracked?
  {
    forall k | 0 <= k < |at| ensures at[k] < |events| && events[at[k]].Tracked? {
      assert at[k] in at;
    }
  }

  lemma {:induction false} OfMessageSnoc(entries: seq<Entry>, e: Entry, m: int, total: int)
    ensures OfMessage(entries + [e], m, total) == OfMessage(entries, m, total) + if Takes(m, e, total) then [e] else []
  {
    assert (entries + [e])[..|entries|] == entries;
  }

  lemma {:induction false} EventsTaken(events: seq<Event>, m: int, total: int) returns (at: seq<nat>)
    ensures TakenFrom(events, m, total, at) &&
            (forall k :: 0 <= k < |at| ==> at[k] < |events| && events[at[k]].Tracked?)
    ensures OfMessage(Entries(events), m, total) == EntriesOf(events, at)
  {
    hide OfMessage, Takes;
    if events == [] {
      at := [];
      NothingTaken(m, total);
    } else {
      var n := |events| - 1;
      var before := EventsTaken(events[..n], m, total);
      at := before;
      if events[n].Tracked? {
        OfMessageSnoc(Entries(events[..n]), events[n].entry, m, total);
        if Takes(m, events[n].entry, total) {
          IncreasingSnoc(before, n);
          at := before + [n];
        }
      }
      TakenInRange(events, m, total, at);
    }
  }

  lemma {:induction false} NothingTaken(m: int, total: int)
    ensures OfMessage([], m, total) == []
  {
  }

  /** First the logs decoded for the message, then with virtualization those of the events it takes. */
  ghost predicate HasLogs(cfg: Config, logs: seq<RpcLog>, msg: EthMsg, result: TxResult, m: nat, total: nat) {
    var native := if result.hasData && msg.decodedLogs.Some? then msg.decodedLogs.value else [];
    && |native| <= |logs| && (forall j :: 0 <= j < |native| ==> ShowsRaw(logs[j], native[j], false))
    && if !cfg.virtualization then |logs| == |native| else TakesLogs(logs[|native|..], result.events, m, total)
  }

  ghost predicate TakesLogs(logs: seq<RpcLog>, events: seq<Event>, m: nat, total: nat) {
    exists at :: TakenFrom(events, m, total, at) && ShownFrom(logs, events, at)
  }

  ghost predicate ShownFrom(logs: seq<RpcLog>, events: seq<Event>, at: seq<nat>) {
    && (forall k :: 0 <= k < |at| ==> at[k] < |events| && events[at[k]].Tracked?)
    && AllShown(logs, EntriesOf(events, at), None)
  }

  lemma {:induction false} TakenShown(result: TxResult, m: nat, total: nat, ctx: LogContext)
    requires ctx.cosmosHash == None && Parsed(result.events, result.code, result.gasUsed).Some?
    ensures TakesLogs(MessageLogs(Parsed(result.events, result.code, result.gasUsed).value, m, total, ctx),
                      result.events, m, total)
  {
    hide TakenFrom, OfMessage, LogsOf, Stamped, AllShown, Entries;
    var at := EventsTaken(result.events, m, total);
    var chosen := EntriesOf(result.events, at);
    LogsShown(chosen, None);
    StampedShown(LogsOf(chosen, None), chosen, None, ctx);
    assert ShownFrom(MessageLogs(Parsed(result.events, result.code, result.gasUsed).value, m, total, ctx),
                     result.events, at);
  }

  lemma {:induction false} NativeShown(native: seq<EthLog>, ctx: LogContext)
    requires ctx.cosmosHash == None
    ensures forall j :: 0 <= j < |native| ==>
      && ShowsRaw(WrapLogs(native, false, None)[j], native[j], false)
      && ShowsRaw(Stamped(WrapLogs(native, false, None), ctx)[j], native[j], false)
  {
  }

  lemma {:induction false} GroupHasLogs(
      cfg: Config, block: Block, acc: Acc, msg: EthMsg, result: TxResult, failed: bool, response: Response, m: nat,
      total: nat, hash: Hash, index: nat)
    requires NativeLogs(msg, result, failed).Ok? && ResponseFor(cfg, result) == Some(response)
    ensures HasLogs(cfg,
                    MessageGroup(cfg, block, acc, NativeLogs(msg, result, failed).value, response, m, total, hash,
                                 index),
                    msg, result, m, total)
  {
    hide MessageLogs, ShowsRaw, TakesLogs, Parsed;
    var native := NativeLogs(msg, result, failed).value;
    var ctx := ContextFor(block, acc, hash, index);
    NativeShown(native, ctx);
    if cfg.virtualization {
      var own := ctx.(firstLogIndex := acc.logIndex + |native|);
      TakenShown(result, m, total, own);
      var front := Stamped(WrapLogs(native, false, None), ctx);
      assert (front + MessageLogs(response, m, total, own))[|native|..] == MessageLogs(response, m, total, own);
    }
  }

  // ---------- one item for each Ethereum message ----------

  /** The gas a message is charged: its limit if the transaction failed before execution, else what was reported. */
  ghost function OwnGas(msg: Msg, result: TxResult, m: nat): nat {
    if msg.Other? then 0
    else if result.code != 0 && !result.evmCodespace then msg.eth.gas
    else if result.parsed.Some? && m < |result.parsed.value| then result.parsed.value[m].gasUsed
    else 0
  }

  ghost function GasUpTo(msgs: seq<Msg>, result: TxResult, m: nat): nat
    requires m <= |msgs|
  {
    if m == 0 then 0 else GasUpTo(msgs, result, m - 1) + OwnGas(msgs[m - 1], result, m - 1)
  }

  /** The item has the message's own hash, gas and failure. */
  ghost predicate OwnOutcome(item: Item, msg: EthMsg, result: TxResult, m: nat)
    requires item.record.Some?
  {
    var hash, record := item.tx.transaction.hash, item.record.value;
    if result.code != 0 && !result.evmCodespace then hash == msg.hash && record.gasUsed == msg.gas && record.failed
    else
      && result.parsed.Some? && m < |result.parsed.value|
      && hash == result.parsed.value[m].hash && record.gasUsed == result.parsed.value[m].gasUsed
      && record.failed == result.parsed.value[m].failed
  }

  /** The transaction and receipt are those of the message. */
  ghost predicate OwnFields(item: Item, msg: EthMsg)
    requires item.record.Some?
  {
    var tx, receipt, record := item.tx.transaction, item.tx.receipt, item.record.value;
    && !tx.isVirtual && tx.cosmosHash == None && tx.cosmosMsgIndex == None
    && Some(tx.from) == msg.sender && tx.to == msg.to && tx.gas == msg.gas && tx.input == msg.input
    && tx.txType == msg.txType
    && receipt.status == (if record.failed then 0 else 1) && receipt.gasUsed == record.gasUsed
    && receipt.contract == (if msg.to.None? then Some(msg.created) else None)
    && Some(receipt.from) == msg.sender && receipt.to == msg.to && receipt.txType == msg.txType
  }

  /** An item of the block that stands for Ethereum message `m` of transaction `t`. */
  ghost predicate IsMessage(cfg: Config, block: Block, results: seq<Option<TxResult>>, item: Item, t: nat, m: nat)
    requires t < |block.txs| && t < |results| && results[t].Some? && m < |block.txs[t].msgs| &&
             block.txs[t].msgs[m].Ethereum?
  {
    var msgs, result := block.txs[t].msgs, results[t].value;
    && item.record.Some? && item.record.value.txIndex == t && item.record.value.msgIndex == m
    && OwnOutcome(item, msgs[m].eth, result, m) && OwnFields(item, msgs[m].eth)
    && HasLogs(cfg, item.tx.receipt.logs, msgs[m].eth, result, m, |msgs|)
    && item.record.value.cumulativeGasUsed == U64(GasUpTo(msgs, result, m + 1))
    && item.tx.receipt.cumulativeGasUsed == U64(GasFrom(results, 0, t) + GasUpTo(msgs, result, m + 1))
  }

  /** A message that the index has to show: an Ethereum one of a marked transaction. */
  predicate Indexable(block: Block, t: nat, m: nat) {
    t < |block.txs| && block.txs[t].ethExtension && m < |block.txs[t].msgs| && block.txs[t].msgs[m].Ethereum?
  }

  predicate Earlier(t: nat, m: nat, t': nat, m': nat) {
    t < t' || (t == t' && m < m')
  }

  /** A recorded item names an indexable message and stands for it. */
  ghost predicate Genuine(cfg: Config, block: Block, results: seq<Option<TxResult>>, item: Item)
    requires item.record.Some?
  {
    var t, m := item.record.value.txIndex, item.record.value.msgIndex;
    Indexable(block, t, m) && t < |results| && results[t].Some? && IsMessage(cfg, block, results, item, t, m)
  }

  ghost predicate InOrder(items: seq<Item>) {
    forall i, j :: 0 <= i < j < |items| && items[i].record.Some? && items[j].record.Some? ==>
      var a, b := items[i].record.value, items[j].record.value;
      Earlier(a.txIndex, a.msgIndex, b.txIndex, b.msgIndex)
  }

  ghost predicate HasRecord(items: seq<Item>, t: nat, m: nat) {
    exists i :: 0 <= i < |items| && items[i].record.Some? && items[i].record.value.txIndex == t &&
      items[i].record.value.msgIndex == m
  }

  /** The recorded items stand for exactly the indexable messages before message `m` of transaction `t`, in order. */
  ghost predicate Recorded(
      cfg: Config, block: Block, results: seq<Option<TxResult>>, items: seq<Item>, t: nat, m: nat)
  {
    && (forall i :: 0 <= i < |items| && items[i].record.Some? ==>
          && Genuine(cfg, block, results, items[i])
          && Earlier(items[i].record.value.txIndex, items[i].record.value.msgIndex, t, m))
    && InOrder(items)
    && (forall t': nat, m': nat :: Indexable(block, t', m') && Earlier(t', m', t, m) ==> HasRecord(items, t', m'))
  }

  lemma {:induction false} RecordStays(items: seq<Item>, item: Item, t: nat, m: nat)
    requires HasRecord(items, t, m)
    ensures HasRecord(items + [item], t, m)
  {
    var i :| 0 <= i < |items| && items[i].record.Some? && items[i].record.value.txIndex == t &&
        items[i].record.value.msgIndex == m;
    assert (items + [item])[i] == items[i];
  }

  lemma {:induction false} AddVirtual(
      cfg: Config, block: Block, results: seq<Option<TxResult>>, items: seq<Item>, t: nat, m: nat, tx: Tx)
    requires Recorded(cfg, block, results, items, t, m)
    ensures Recorded(cfg, block, results, items + [Item(tx, None)], t, m)
  {
    hide Genuine, Indexable, HasRecord, Earlier;
    forall t': nat, m': nat | Indexable(block, t', m') && Earlier(t', m', t, m)
      ensures HasRecord(items + [Item(tx, None)], t', m')
    {
      RecordStays(items, Item(tx, None), t', m');
    }
  }

  lemma {:induction false} AddMessage(
      cfg: Config, block: Block, results: seq<Option<TxResult>>, items: seq<Item>, t: nat, m: nat, item: Item)
    requires Recorded(cfg, block, results, items, t, m) && item.record.Some? && Genuine(cfg, block, results, item)
    requires item.record.value.txIndex == t && item.record.value.msgIndex == m
    ensures Recorded(cfg, block, results, items + [item], t, m + 1)
  {
    hide Genuine, Indexable, HasRecord;
    var all := items + [item];
    forall t': nat, m': nat | Indexable(block, t', m') && Earlier(t', m', t, m + 1) ensures HasRecord(all, t', m') {
      if t' == t && m' == m {
        LastRecord(items, item);
      } else {
        RecordStays(items, item, t', m');
      }
    }
  }

  lemma {:induction false} LastRecord(items: seq<Item>, item: Item)
    requires item.record.Some?
    ensures HasRecord(items + [item], item.record.value.txIndex, item.record.value.msgIndex)
  {
    assert (items + [item])[|items|] == item;
  }

  lemma {:induction false} SkipMessage(
      cfg: Config, block: Block, results: seq<Option<TxResult>>, items: seq<Item>, t: nat, m: nat)
    requires Recorded(cfg, block, results, items, t, m) && !Indexable(block, t, m)
    ensures Recorded(cfg, block, results, items, t, m + 1)
  {
    hide Genuine, HasRecord, InOrder;
    forall t': nat, m': nat | Indexable(block, t', m') && Earlier(t', m', t, m + 1) ensures HasRecord(items, t', m') {
      assert Earlier(t', m', t, m);
    }
  }

  lemma {:induction false} SkipRest(
      cfg: Config, block: Block, results: seq<Option<TxResult>>, items: seq<Item>, t: nat, m: nat)
    requires Recorded(cfg, block, results, items, t, m) && forall m': nat :: m <= m' ==> !Indexable(block, t, m')
    ensures Recorded(cfg, block, results, items, t + 1, 0)
  {
    hide Genuine, HasRecord, InOrder;
    forall t': nat, m': nat | Indexable(block, t', m') && Earlier(t', m', t + 1, 0) ensures HasRecord(items, t', m') {
      assert Earlier(t', m', t, m);
    }
  }

  lemma {:induction false} AddVirtuals(
      cfg: Config, block: Block, results: seq<Option<TxResult>>, acc: Acc, txs: seq<Tx>, t: nat, m: nat)
    requires Recorded(cfg, block, results, acc.items, t, m)
    ensures Recorded(cfg, block, results, StoreVirtuals(cfg, acc, txs).items, t, m)
  {
    hide Recorded;
    if txs != [] {
      var n := |txs| - 1;
      AddVirtuals(cfg, block, results, acc, txs[..n], t, m);
      AddVirtual(cfg, block, results, StoreVirtuals(cfg, acc, txs[..n]).items, t, m, txs[n]);
    }
  }

  // ---------- the walk over the block ----------

  /** Where the walk stands: message `m` of transaction `t`, with the gas of what came before. */
  ghost predicate Standing(block: Block, results: seq<Option<TxResult>>, acc: Acc, t: nat, m: nat, spent: u64) {
    && t < |block.txs| && t < |results| && results[t].Some? && block.txs[t].ethExtension && m <= |block.txs[t].msgs|
    && results[t].value.parsed.Some?
    && acc.gasBefore == U64(GasFrom(results, 0, t)) && spent == U64(GasUpTo(block.txs[t].msgs, results[t].value, m))
  }

  lemma {:induction false} Added(a: int, b: int, c: u64)
    ensures Add64(U64(a), U64(b)) == U64(a + b)
    ensures Add64(U64(a), c) == U64(a + c)
  {
    hide U64;
    AddIsWrapped(U64(a), U64(b));
    AddIsWrapped(U64(a), c);
    Wrapped(a, U64(b));
    Wrapped(a, c);
    Wrapped(b, a);
  }

  /** One more Ethereum message is shown as what it is. */
  lemma {:induction false} MessageRecorded(
      cfg: Config, block: Block, results: seq<Option<TxResult>>, acc: Acc, response: Response, t: nat, m: nat,
        spent: u64)
    returns (item: Item)
    requires Standing(block, results, acc, t, m, spent) && Indexable(block, t, m)
    requires ResponseFor(cfg, results[t].value) == Some(response)
    requires IndexMessage(cfg, block, acc, t, results[t].value, results[t].value.parsed.value, response,
                          |block.txs[t].msgs|, m,
                          block.txs[t].msgs[m].eth, spent).Ok?
    ensures var step := IndexMessage(cfg, block, acc, t, results[t].value, results[t].value.parsed.value, response,
                                     |block.txs[t].msgs|, m, block.txs[t].msgs[m].eth, spent).value;
            && step.0.items == acc.items + [item] && item.record.Some? && Genuine(cfg, block, results, item)
            && item.record.value.txIndex == t && item.record.value.msgIndex == m
            && Standing(block, results, step.0, t, m + 1, step.1)
  {
    hide MessageGroup, HasLogs, U64, Add64, GasFrom, ResponseFor;
    var msgs, result := block.txs[t].msgs, results[t].value;
    var msg := msgs[m].eth;
    var outcome := Outcome(msg, result, result.parsed.value, m, acc.ethTxIndex).value;
    var step := IndexMessage(cfg, block, acc, t, result, result.parsed.value, response, |msgs|, m, msg, spent).value;
    item := step.0.items[|acc.items|];
    GroupHasLogs(cfg, block, acc, msg, result, outcome.failed, response, m, |msgs|, outcome.hash,
                 VisibleIndex(cfg, acc));
    var before := GasUpTo(msgs, result, m);
    assert GasUpTo(msgs, result, m + 1) == before + outcome.gasUsed;
    Added(before, 0, outcome.gasUsed);
    Added(GasFrom(results, 0, t), before + outcome.gasUsed, 0);
    assert IsMessage(cfg, block, results, item, t, m);
  }

  lemma {:induction false} MessagesRecorded(
      cfg: Config, block: Block, results: seq<Option<TxResult>>, acc: Acc, response: Response, t: nat, m: nat,
        spent: u64)
    requires Standing(block, results, acc, t, m, spent) && Recorded(cfg, block, results, acc.items, t, m)
    requires ResponseFor(cfg, results[t].value) == Some(response)
    requires IndexMessages(cfg, block, acc, t, results[t].value, results[t].value.parsed.value, response,
                           block.txs[t].msgs, m,
                           spent).Ok?
    ensures var done := IndexMessages(cfg, block, acc, t, results[t].value, results[t].value.parsed.value, response,
                                      block.txs[t].msgs, m, spent).value;
            && Recorded(cfg, block, results, done.0.items, t, |block.txs[t].msgs|)
            && Standing(block, results, done.0, t, |block.txs[t].msgs|, done.1)
    decreases |block.txs[t].msgs| - m
  {
    hide Recorded, IndexMessage, ResponseFor, GasFrom, U64, Genuine;
    var msgs, result := block.txs[t].msgs, results[t].value;
    if m < |msgs| {
      if msgs[m].Other? {
        SkipMessage(cfg, block, results, acc.items, t, m);
        MessagesRecorded(cfg, block, results, acc, response, t, m + 1, spent);
      } else {
        var item := MessageRecorded(cfg, block, results, acc, response, t, m, spent);
        AddMessage(cfg, block, results, acc.items, t, m, item);
        var step := IndexMessage(cfg, block, acc, t, result, result.parsed.value, response, |msgs|, m, msgs[m].eth,
                                 spent).value;
        MessagesRecorded(cfg, block, results, step.0, response, t, m + 1, step.1);
      }
    }
  }

  lemma {:induction false} SyntheticRecorded(
      cfg: Config, block: Block, results: seq<Option<TxResult>>, acc: Acc, tx: CosmosTx, response: Response, gas: u64,
        t: nat,
      m: nat)
    requires Recorded(cfg, block, results, acc.items, t, m) && IndexSynthetic(cfg, block, acc, tx, response, gas).Ok?
    ensures Recorded(cfg, block, results, IndexSynthetic(cfg, block, acc, tx, response, gas).value.items, t, m)
  {
    hide Recorded, SyntheticTxsOf;
    if cfg.virtualization {
      var txs := SyntheticTxsOf(response, SyntheticContext(cfg, block, acc, tx, gas)).value;
      AddVirtuals(cfg, block, results, acc, txs, t, m);
    }
  }

  lemma {:induction false} TransactionRecorded(
      cfg: Config, block: Block, results: seq<Option<TxResult>>, acc: Acc, t: nat)
    requires t < |block.txs| && IndexTransaction(cfg, block, results, acc, t).Ok?
    requires Recorded(cfg, block, results, acc.items, t, 0) && acc.gasBefore == U64(GasFrom(results, 0, t))
    ensures Recorded(cfg, block, results, IndexTransaction(cfg, block, results, acc, t).value.items, t + 1, 0)
  {
    hide Recorded, IndexMessages, IndexSynthetic, ResponseFor, GasFrom, U64;
    var tx, result := block.txs[t], results[t].value;
    var response := ResponseFor(cfg, result).value;
    var next := IndexTransaction(cfg, block, results, acc, t).value;
    if tx.ethExtension {
      NothingSpent();
      MessagesRecorded(cfg, block, results, acc, response, t, 0, 0);
      var done := IndexMessages(cfg, block, acc, t, result, result.parsed.value, response, tx.msgs, 0, 0).value;
      SyntheticRecorded(cfg, block, results, done.0, tx, response, done.1, t, |tx.msgs|);
      SkipRest(cfg, block, results, next.items, t, |tx.msgs|);
    } else {
      SyntheticRecorded(cfg, block, results, acc, tx, response, 0, t, 0);
      SkipRest(cfg, block, results, next.items, t, 0);
    }
  }

  lemma {:induction false} NothingSpent()
    ensures U64(0) == 0
  {
  }

  lemma {:induction false} GasFromSnoc(results: seq<Option<TxResult>>, i: nat, n: nat)
    requires i <= n
    ensures GasFrom(results, i, n + 1) ==
            GasFrom(results, i, n) + if n < |results| && results[n].Some? then results[n].value.gasUsed else 0
    decreases n - i
  {
    if i < n {
      GasFromSnoc(results, i + 1, n);
    }
  }

  lemma {:induction false} TransactionsRecorded(
      cfg: Config, block: Block, results: seq<Option<TxResult>>, acc: Acc, t: nat)
    requires t <= |block.txs| && IndexTransactions(cfg, block, results, acc, t).Ok?
    requires Recorded(cfg, block, results, acc.items, t, 0) && acc.gasBefore == U64(GasFrom(results, 0, t))
    ensures Recorded(cfg, block, results, IndexTransactions(cfg, block, results, acc, t).value.items, |block.txs|, 0)
    decreases |block.txs| - t
  {
    hide Recorded, IndexTransaction, GasFrom, U64;
    if t < |block.txs| {
      var next := IndexTransaction(cfg, block, results, acc, t).value;
      TransactionRecorded(cfg, block, results, acc, t);
      TransactionCharged(cfg, block, results, acc, t);
      GasFromSnoc(results, 0, t);
      Wrapped(GasFrom(results, 0, t), results[t].value.gasUsed);
      TransactionsRecorded(cfg, block, results, next, t + 1);
    }
  }

  lemma {:induction false} NothingRecorded(cfg: Config, block: Block, results: seq<Option<TxResult>>)
    ensures Recorded(cfg, block, results, [], 0, 0) && GasFrom(results, 0, 0) == 0
  {
  }

  lemma {:induction false} BeginRecorded(
      cfg: Config, block: Block, results: seq<Option<TxResult>>, events: seq<EthLog>)
    ensures var start := BeginBlock(cfg, block, events, START);
            && Recorded(cfg, block, results, start.items, 0, 0) && start.gasBefore == U64(GasFrom(results, 0, 0))
            && |start.items| == if events == [] then 0 else 1
  {
    hide Recorded, NewBlockTx;
    NothingRecorded(cfg, block, results);
    NothingSpent();
    var hash := BeginHash(cfg.chain, block.height);
    AddVirtual(cfg, block, results, [], 0, 0, NewBlockTx(hash, events, ContextFor(block, START, hash, 0), 0));
  }

  /**
   In either mode the recorded transactions of a stored block are exactly the
   Ethereum messages of its marked transactions, in order, each with its own
   outcome, sender, target, input, logs and gas.
   */
  lemma {:induction false} MessagesShown(cfg: Config, block: Block, results: Option<BlockResults>)
    requires IndexedBlock(cfg, block, results).Ok?
    ensures Recorded(cfg, block, NormalizedResults(results).value, IndexedBlock(cfg, block, results).value.items,
                     |block.txs|, 0)
  {
    hide Recorded, IndexTransactions, GasFrom, U64, NewBlockTx, Phase;
    var events, normalized := FinalizeEvents(cfg, results).value, NormalizedResults(results).value;
    var begin, end := Phase(events, true), Phase(events, false);
    var start := BeginBlock(cfg, block, begin, START);
    var endHash := EndHash(cfg.chain, block.height);
    BeginRecorded(cfg, block, normalized, begin);
    TransactionsRecorded(cfg, block, normalized, start, 0);
    var acc := IndexTransactions(cfg, block, normalized, start, 0).value;
    AddVirtual(cfg, block, normalized, acc.items, |block.txs|, 0,
               NewBlockTx(endHash, end, ContextFor(block, acc, endHash, acc.rpcTxIndex), acc.gasBefore));
  }
}
