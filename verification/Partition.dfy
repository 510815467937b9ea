/** Every parsed virtual event is emitted exactly once: by one Ethereum message or by a synthetic transaction. */
module Partition {
  import opened Common
  import opened VirtualLogs
  import opened Synthetic
  import opened BlockModel
  import opened IndexFold
  import opened Agreement
  import opened Numbering

  // ---------- payloads ----------

  function RawSeq(logs: seq<EthLog>): seq<Payload> {
    seq(|logs|, i requires 0 <= i < |logs| => RawPayload(logs[i]))
  }

  /** The payloads of the virtual logs in a list, in order. */
  function VirtualSeq(logs: seq<RpcLog>): seq<Payload> {
    if logs == [] then []
    else VirtualSeq(logs[..|logs| - 1]) + if logs[|logs| - 1].isVirtual then [PayloadOf(logs[|logs| - 1])] else []
  }

  function Emitted(logs: seq<RpcLog>): multiset<Payload> {
    multiset(VirtualSeq(logs))
  }

  function ParsedIn(entries: seq<Entry>): multiset<Payload> {
    if entries == [] then multiset{}
    else ParsedIn(entries[..|entries| - 1]) + multiset(RawSeq(entries[|entries| - 1].logs))
  }

  lemma {:induction false} VirtualSeqSnoc(a: seq<RpcLog>, log: RpcLog)
    ensures VirtualSeq(a + [log]) == VirtualSeq(a) + if log.isVirtual then [PayloadOf(log)] else []
  {
    assert (a + [log])[..|a|] == a;
  }

  lemma {:induction false} NoVirtuals()
    ensures VirtualSeq([]) == []
  {
  }

  lemma {:induction false} VirtualSeqAppend(a: seq<RpcLog>, b: seq<RpcLog>)
    ensures VirtualSeq(a + b) == VirtualSeq(a) + VirtualSeq(b)
  {
    hide VirtualSeq;
    if b == [] {
      assert a + b == a;
      NoVirtuals();
    } else {
      var n := |b| - 1;
      VirtualSeqAppend(a, b[..n]);
      VirtualSeqSnoc(a + b[..n], b[n]);
      VirtualSeqSnoc(b[..n], b[n]);
      assert a + b == a + b[..n] + [b[n]] && b == b[..n] + [b[n]];
    }
  }

  lemma {:induction false} EmittedAppend(a: seq<RpcLog>, b: seq<RpcLog>)
    ensures Emitted(a + b) == Emitted(a) + Emitted(b)
  {
    VirtualSeqAppend(a, b);
  }

  lemma {:induction false} NoneVirtual(logs: seq<RpcLog>)
    requires forall i :: 0 <= i < |logs| ==> !logs[i].isVirtual
    ensures VirtualSeq(logs) == []
  {
    if logs != [] {
      NoneVirtual(logs[..|logs| - 1]);
    }
  }

  /** Numbering a log changes neither its payload nor its kind. */
  lemma {:induction false} SamePayloads(a: seq<RpcLog>, b: seq<RpcLog>)
    requires |a| == |b|
    requires forall i :: 0 <= i < |a| ==> a[i].isVirtual == b[i].isVirtual && PayloadOf(a[i]) == PayloadOf(b[i])
    ensures VirtualSeq(a) == VirtualSeq(b)
  {
    if a != [] {
      SamePayloads(a[..|a| - 1], b[..|b| - 1]);
    }
  }

  lemma {:induction false} StampedPayloads(logs: seq<RpcLog>, ctx: LogContext)
    ensures VirtualSeq(Stamped(logs, ctx)) == VirtualSeq(logs)
  {
    SamePayloads(Stamped(logs, ctx), logs);
  }

  lemma {:induction false} AllVirtual(logs: seq<RpcLog>, raw: seq<EthLog>)
    requires |logs| == |raw|
    requires forall i :: 0 <= i < |logs| ==> logs[i].isVirtual && PayloadOf(logs[i]) == RawPayload(raw[i])
    ensures VirtualSeq(logs) == RawSeq(raw)
  {
    if logs != [] {
      var init := raw[..|raw| - 1];
      AllVirtual(logs[..|logs| - 1], init);
      assert RawSeq(raw) == RawSeq(init) + [RawPayload(raw[|raw| - 1])];
    }
  }

  lemma {:induction false} LogsOfPayloads(events: seq<Entry>, cosmosHash: Option<Hash>)
    ensures Emitted(LogsOf(events, cosmosHash)) == ParsedIn(events)
  {
    if events != [] {
      var init, last := events[..|events| - 1], events[|events| - 1];
      LogsOfPayloads(init, cosmosHash);
      AllVirtual(EventLogs(last, cosmosHash), last.logs);
      EmittedAppend(LogsOf(init, cosmosHash), EventLogs(last, cosmosHash));
    }
  }

  lemma {:induction false} ParsedSnoc(entries: seq<Entry>, e: Entry)
    ensures ParsedIn(entries + [e]) == ParsedIn(entries) + multiset(RawSeq(e.logs))
  {
    assert (entries + [e])[..|entries|] == entries;
  }

  // ---------- who gets an event ----------

  /** What the Ethereum messages from position `m` on take. */
  function TakenFrom(entries: seq<Entry>, msgs: seq<Msg>, m: nat): multiset<Payload>
    requires m <= |msgs|
    decreases |msgs| - m
  {
    if m == |msgs| then multiset{}
    else
      (if msgs[m].Ethereum? then ParsedIn(OfMessage(entries, m, |msgs|)) else multiset{})
      + TakenFrom(entries, msgs, m + 1)
  }

  predicate OwnedFrom(e: Entry, msgs: seq<Msg>, m: nat) {
    if e.msgIndex.Some? then m <= e.msgIndex.value < |msgs| && msgs[e.msgIndex.value].Ethereum?
    else |msgs| == 1 && m == 0 && msgs[0].Ethereum?
  }

  function Share(e: Entry, owned: bool, p: Payload): nat {
    if owned then multiset(RawSeq(e.logs))[p] else 0
  }

  lemma {:induction false} OfMessageSnoc(entries: seq<Entry>, e: Entry, m: nat, total: nat, p: Payload)
    ensures ParsedIn(OfMessage(entries + [e], m, total))[p] ==
            ParsedIn(OfMessage(entries, m, total))[p] + Share(e, BelongsToMessage(e.msgIndex, m, total), p)
  {
    hide ParsedIn, RawSeq, BelongsToMessage;
    assert (entries + [e])[..|entries|] == entries;
    ParsedSnoc(OfMessage(entries, m, total), e);
  }

  lemma {:induction false} TakenSnoc(entries: seq<Entry>, e: Entry, msgs: seq<Msg>, m: nat, p: Payload)
    requires m <= |msgs|
    ensures TakenFrom(entries + [e], msgs, m)[p] == TakenFrom(entries, msgs, m)[p] + Share(e, OwnedFrom(e, msgs, m), p)
    decreases |msgs| - m
  {
    hide ParsedIn, OfMessage, RawSeq;
    if m < |msgs| {
      TakenSnoc(entries, e, msgs, m + 1, p);
      OfMessageSnoc(entries, e, m, |msgs|, p);
    }
  }

  lemma {:induction false} TakenFromNothing(msgs: seq<Msg>, m: nat)
    requires m <= |msgs|
    ensures TakenFrom([], msgs, m) == multiset{}
    decreases |msgs| - m
  {
    if m < |msgs| {
      TakenFromNothing(msgs, m + 1);
    }
  }

  /** The two ownership tests are exact complements. */
  lemma {:induction false} OwnershipComplement(e: Entry, msgs: seq<Msg>)
    ensures OwnedFrom(e, msgs, 0) <==> !BelongsToNonEthereumMessage(e.msgIndex, EthereumMessages(msgs), |msgs|)
  {
  }

  /** How many Ethereum messages from position `m` on take an event. */
  function Owners(e: Entry, msgs: seq<Msg>, m: nat): nat
    requires m <= |msgs|
    decreases |msgs| - m
  {
    if m == |msgs| then 0
    else (if msgs[m].Ethereum? && BelongsToMessage(e.msgIndex, m, |msgs|) then 1 else 0) + Owners(e, msgs, m + 1)
  }

  lemma {:induction false} OwnersCounted(e: Entry, msgs: seq<Msg>, m: nat)
    requires m <= |msgs|
    ensures Owners(e, msgs, m) == if OwnedFrom(e, msgs, m) then 1 else 0
    decreases |msgs| - m
  {
    if m < |msgs| {
      OwnersCounted(e, msgs, m + 1);
    }
  }

  /**
   Every event, whatever its message index, is taken by exactly one Ethereum
   message or by the synthetic transactions, never by both or by two messages.
   */
  lemma {:induction false} ExactlyOneOwner(e: Entry, msgs: seq<Msg>)
    ensures Owners(e, msgs, 0) +
            (if BelongsToNonEthereumMessage(e.msgIndex, EthereumMessages(msgs), |msgs|) then 1 else 0) == 1
  {
    OwnersCounted(e, msgs, 0);
    OwnershipComplement(e, msgs);
  }

  lemma {:induction false} SelectSnoc(entries: seq<Entry>, e: Entry, ctx: TxContext)
    ensures BankEvents(entries + [e], ctx) ==
            BankEvents(entries, ctx) + if Synthesized(e, ctx) && e.hook.None? then [e] else []
    ensures HookEvents(entries + [e], ctx) ==
            HookEvents(entries, ctx) + if Synthesized(e, ctx) && e.hook.Some? then [e] else []
  {
    assert (entries + [e])[..|entries|] == entries;
  }

  lemma {:induction false} NothingToShare(e: Entry, p: Payload)
    requires e.logs == []
    ensures multiset(RawSeq(e.logs))[p] == 0
  {
    assert RawSeq(e.logs) == [];
  }

  lemma {:induction false} ParsedWith(entries: seq<Entry>, e: Entry, kept: bool, p: Payload)
    ensures ParsedIn(entries + if kept then [e] else [])[p] == ParsedIn(entries)[p] + Share(e, kept, p)
  {
    hide RawSeq;
    if kept {
      ParsedSnoc(entries, e);
    } else {
      assert entries + [] == entries;
    }
  }

  lemma {:induction false} SelectedSnoc(entries: seq<Entry>, e: Entry, ctx: TxContext, p: Payload)
    ensures ParsedIn(BankEvents(entries + [e], ctx))[p] + ParsedIn(HookEvents(entries + [e], ctx))[p] ==
            ParsedIn(BankEvents(entries, ctx))[p] + ParsedIn(HookEvents(entries, ctx))[p] +
            Share(e, BelongsToNonEthereumMessage(e.msgIndex, ctx.ethereumMessages, ctx.totalMessages), p)
  {
    hide ParsedIn, BankEvents, HookEvents, RawSeq, BelongsToNonEthereumMessage;
    SelectSnoc(entries, e, ctx);
    ParsedWith(BankEvents(entries, ctx), e, Synthesized(e, ctx) && e.hook.None?, p);
    ParsedWith(HookEvents(entries, ctx), e, Synthesized(e, ctx) && e.hook.Some?, p);
    if e.logs == [] {
      NothingToShare(e, p);
    }
  }

  lemma {:induction false} EventPartitioned(entries: seq<Entry>, msgs: seq<Msg>, ctx: TxContext, p: Payload)
    requires ctx.ethereumMessages == EthereumMessages(msgs) && ctx.totalMessages == |msgs|
    ensures ParsedIn(entries)[p] ==
            TakenFrom(entries, msgs, 0)[p] + ParsedIn(BankEvents(entries, ctx))[p] +
              ParsedIn(HookEvents(entries, ctx))[p]
  {
    hide OwnedFrom, BelongsToNonEthereumMessage, RawSeq;
    if entries == [] {
      TakenFromNothing(msgs, 0);
    } else {
      var init, e := entries[..|entries| - 1], entries[|entries| - 1];
      assert entries == init + [e];
      EventPartitioned(init, msgs, ctx, p);
      TakenSnoc(init, e, msgs, 0, p);
      OwnershipComplement(e, msgs);
      SelectedSnoc(init, e, ctx, p);
    }
  }

  lemma {:induction false} EventsPartitioned(entries: seq<Entry>, msgs: seq<Msg>, ctx: TxContext)
    requires ctx.ethereumMessages == EthereumMessages(msgs) && ctx.totalMessages == |msgs|
    ensures ParsedIn(entries) ==
            TakenFrom(entries, msgs, 0) + (ParsedIn(BankEvents(entries, ctx)) + ParsedIn(HookEvents(entries, ctx)))
  {
    forall p ensures ParsedIn(entries)[p] ==
                     TakenFrom(entries, msgs, 0)[p] +
                       (ParsedIn(BankEvents(entries, ctx)) + ParsedIn(HookEvents(entries, ctx)))[p]
    {
      EventPartitioned(entries, msgs, ctx, p);
    }
  }

  lemma {:induction false} InsertKeepsParsed(sorted: seq<Entry>, e: Entry)
    ensures ParsedIn(Insert(sorted, e)) == ParsedIn(sorted) + multiset(RawSeq(e.logs))
  {
    if sorted == [] || MsgOf(sorted[|sorted| - 1]) <= MsgOf(e) {
      ParsedSnoc(sorted, e);
    } else {
      InsertKeepsParsed(sorted[..|sorted| - 1], e);
      ParsedSnoc(Insert(sorted[..|sorted| - 1], e), sorted[|sorted| - 1]);
    }
  }

  lemma {:induction false} SortKeepsParsed(hooks: seq<Entry>)
    ensures ParsedIn(SortHooks(hooks)) == ParsedIn(hooks)
  {
    if hooks != [] {
      SortKeepsParsed(hooks[..|hooks| - 1]);
      InsertKeepsParsed(SortHooks(hooks[..|hooks| - 1]), hooks[|hooks| - 1]);
    }
  }

  // ---------- what the synthetic transactions emit ----------

  function EmittedBy(txs: seq<Tx>): multiset<Payload> {
    if txs == [] then multiset{} else EmittedBy(txs[..|txs| - 1]) + Emitted(txs[|txs| - 1].receipt.logs)
  }

  lemma {:induction false} EmittedBySnoc(txs: seq<Tx>, tx: Tx)
    ensures EmittedBy(txs + [tx]) == EmittedBy(txs) + Emitted(tx.receipt.logs)
  {
    assert (txs + [tx])[..|txs|] == txs;
  }

  lemma {:induction false} SyntheticTxEmits(
      r: Response, ctx: TxContext, events: seq<Entry>, hook: Option<HookCall>, hash: Hash, gas: u64)
    ensures Emitted(SyntheticTx(r, ctx, events, hook, hash, gas).receipt.logs) == ParsedIn(events)
  {
    var logCtx :=
        LogContext(ctx.blockHash, ctx.blockNumber, hash, ctx.txIndex, ctx.firstLogIndex, Some(ctx.cosmosHash));
    StampedPayloads(LogsOf(events, Some(ctx.cosmosHash)), logCtx);
    LogsOfPayloads(events, Some(ctx.cosmosHash));
  }

  lemma {:induction false} HookTxEmits(r: Response, ctx: TxContext, bank: seq<Entry>, hooks: seq<Entry>, i: nat)
    requires i < |hooks| && MsgOf(hooks[i]) >= 0
    ensures Emitted(HookTx(r, ctx, bank, hooks, i).receipt.logs) == multiset(RawSeq(hooks[i].logs))
  {
    SyntheticTxEmits(r, HookContext(r, ctx, bank, hooks, i), [hooks[i]], hooks[i].hook,
                     ctx.chain.keccak(PreimageOf(ctx.cosmosHash, hooks, i)), HookGas(hooks[i]));
    ParsedSnoc([], hooks[i]);
    assert [] + [hooks[i]] == [hooks[i]];
  }

  lemma {:induction false} ParsedNone(entries: seq<Entry>)
    ensures ParsedIn(entries[..0]) == multiset{}
  {
  }

  lemma {:induction false} HookTxsEmit(
      r: Response, ctx: TxContext, bank: seq<Entry>, hooks: seq<Entry>, envelope: seq<Tx>, n: nat)
    requires n <= |hooks| && Indexed(hooks, ctx.totalMessages)
    ensures EmittedBy(envelope + HookTxs(r, ctx, bank, hooks, n)) == EmittedBy(envelope) + ParsedIn(hooks[..n])
  {
    hide HookTx, EmittedBy, Emitted, ParsedIn;
    if n == 0 {
      ParsedNone(hooks);
      assert envelope + HookTxs(r, ctx, bank, hooks, 0) == envelope;
    } else {
      HookTxsEmit(r, ctx, bank, hooks, envelope, n - 1);
      HookTxsSnoc(r, ctx, bank, hooks, n - 1, envelope);
      HookTxEmits(r, ctx, bank, hooks, n - 1);
      EmittedBySnoc(envelope + HookTxs(r, ctx, bank, hooks, n - 1), HookTx(r, ctx, bank, hooks, n - 1));
      ParsedSnoc(hooks[..n - 1], hooks[n - 1]);
      assert hooks[..n] == hooks[..n - 1] + [hooks[n - 1]];
    }
  }

  lemma {:induction false} BankPartEmits(r: Response, ctx: TxContext, bank: seq<Entry>, hooks: seq<Entry>)
    ensures EmittedBy(BankPart(r, ctx, bank, hooks)) == ParsedIn(bank)
  {
    if bank != [] {
      SyntheticTxEmits(r, BankContext(ctx), bank, None, ctx.chain.keccak(ctx.cosmosHash), BankGas(r, ctx, hooks));
      var tx := BankPart(r, ctx, bank, hooks)[0];
      EmittedBySnoc([], tx);
      assert [] + [tx] == [tx];
    }
  }

  lemma {:induction false} SyntheticEmits(r: Response, ctx: TxContext)
    requires SyntheticTxsOf(r, ctx).Some?
    ensures EmittedBy(SyntheticTxsOf(r, ctx).value) ==
            ParsedIn(BankEvents(r.entries, ctx)) + ParsedIn(HookEvents(r.entries, ctx))
  {
    var bank, found := BankEvents(r.entries, ctx), HookEvents(r.entries, ctx);
    if found != [] {
      var hooks := SortHooks(found);
      SortKeepsIndexes(found, ctx.totalMessages);
      SortKeepsParsed(found);
      BankPartEmits(r, ctx, bank, hooks);
      HookTxsEmit(r, ctx, bank, hooks, BankPart(r, ctx, bank, hooks), |hooks|);
      assert hooks[..|hooks|] == hooks;
    } else if bank != [] {
      var tx := SyntheticTx(r, ctx, bank, None, ctx.chain.keccak(ctx.cosmosHash), r.gasUsed);
      SyntheticTxEmits(r, ctx, bank, None, ctx.chain.keccak(ctx.cosmosHash), r.gasUsed);
      EmittedBySnoc([], tx);
      assert [] + [tx] == [tx];
    }
  }

  /**
   For every Cosmos transaction: whatever its events, the logs taken by its
   Ethereum messages and those of its synthetic transactions are together,
   as a multiset, exactly the logs parsed.
   */
  lemma {:induction false} ResponseConserved(r: Response, msgs: seq<Msg>, ctx: TxContext)
    requires ctx.ethereumMessages == EthereumMessages(msgs) && ctx.totalMessages == |msgs|
    requires SyntheticTxsOf(r, ctx).Some?
    ensures ParsedIn(r.entries) == TakenFrom(r.entries, msgs, 0) + EmittedBy(SyntheticTxsOf(r, ctx).value)
  {
    EventsPartitioned(r.entries, msgs, ctx);
    SyntheticEmits(r, ctx);
  }

  // ---------- the whole block ----------

  lemma {:induction false} MessageLogsEmit(response: Response, m: int, total: int, ctx: LogContext)
    ensures Emitted(MessageLogs(response, m, total, ctx)) == ParsedIn(OfMessage(response.entries, m, total))
  {
    StampedPayloads(LogsOf(OfMessage(response.entries, m, total), None), ctx);
    LogsOfPayloads(OfMessage(response.entries, m, total), None);
  }

  lemma {:induction false} NativeEmitNothing(native: seq<EthLog>, ctx: LogContext, rest: seq<RpcLog>)
    ensures Emitted(Stamped(WrapLogs(native, false, None), ctx) + rest) == Emitted(rest)
  {
    NoneVirtual(Stamped(WrapLogs(native, false, None), ctx));
    VirtualSeqAppend(Stamped(WrapLogs(native, false, None), ctx), rest);
  }

  lemma {:induction false} GroupShape(
      cfg: Config, block: Block, acc: Acc, native: seq<EthLog>, response: Response, m: nat, total: nat, hash: Hash,
      index: nat)
    requires cfg.virtualization
    ensures MessageGroup(cfg, block, acc, native, response, m, total, hash, index) ==
            Stamped(WrapLogs(native, false, None), ContextFor(block, acc, hash, index)) +
            MessageLogs(response, m, total,
                        ContextFor(block, acc, hash, index).(firstLogIndex := acc.logIndex + |native|))
  {
  }

  lemma {:induction false} MessageEmits(
      cfg: Config, block: Block, acc: Acc, native: seq<EthLog>, response: Response, m: nat, total: nat, hash: Hash,
      index: nat)
    requires cfg.virtualization
    ensures Emitted(MessageGroup(cfg, block, acc, native, response, m, total, hash, index)) ==
            ParsedIn(OfMessage(response.entries, m, total))
  {
    var ctx := ContextFor(block, acc, hash, index);
    var after := ctx.(firstLogIndex := acc.logIndex + |native|);
    GroupShape(cfg, block, acc, native, response, m, total, hash, index);
    calc {
      Emitted(MessageGroup(cfg, block, acc, native, response, m, total, hash, index));
      Emitted(Stamped(WrapLogs(native, false, None), ctx) + MessageLogs(response, m, total, after));
      { NativeEmitNothing(native, ctx, MessageLogs(response, m, total, after)); }
      Emitted(MessageLogs(response, m, total, after));
      { MessageLogsEmit(response, m, total, after); }
      ParsedIn(OfMessage(response.entries, m, total));
    }
  }

  lemma {:induction false} MessageStepEmits(
      cfg: Config, block: Block, acc: Acc, i: nat, result: TxResult, parsed: seq<ParsedTx>, response: Response,
      total: nat, m: nat, msg: EthMsg, spent: u64)
    requires cfg.virtualization && IndexMessage(cfg, block, acc, i, result, parsed, response, total, m, msg, spent).Ok?
    ensures Emitted(IndexMessage(cfg, block, acc, i, result, parsed, response, total, m, msg,
                                 spent).value.0.flatLogs) ==
            Emitted(acc.flatLogs) + ParsedIn(OfMessage(response.entries, m, total))
  {
    var outcome := Outcome(msg, result, parsed, m, acc.ethTxIndex).value;
    var native := NativeLogs(msg, result, outcome.failed).value;
    MessageEmits(cfg, block, acc, native, response, m, total, outcome.hash, VisibleIndex(cfg, acc));
    EmittedAppend(acc.flatLogs,
                  MessageGroup(cfg, block, acc, native, response, m, total, outcome.hash, VisibleIndex(cfg, acc)));
  }

  lemma {:induction false} MessagesEmit(
      cfg: Config, block: Block, acc: Acc, i: nat, result: TxResult, parsed: seq<ParsedTx>, response: Response,
      msgs: seq<Msg>, m: nat, spent: u64)
    requires m <= |msgs| && cfg.virtualization
    requires IndexMessages(cfg, block, acc, i, result, parsed, response, msgs, m, spent).Ok?
    ensures Emitted(IndexMessages(cfg, block, acc, i, result, parsed, response, msgs, m, spent).value.0.flatLogs) ==
            Emitted(acc.flatLogs) + TakenFrom(response.entries, msgs, m)
    decreases |msgs| - m
  {
    if m < |msgs| {
      if msgs[m].Other? {
        MessagesEmit(cfg, block, acc, i, result, parsed, response, msgs, m + 1, spent);
      } else {
        MessageStepEmits(cfg, block, acc, i, result, parsed, response, |msgs|, m, msgs[m].eth, spent);
        var step := IndexMessage(cfg, block, acc, i, result, parsed, response, |msgs|, m, msgs[m].eth, spent).value;
        MessagesEmit(cfg, block, step.0, i, result, parsed, response, msgs, m + 1, step.1);
      }
    }
  }

  lemma {:induction false} VirtualsEmit(cfg: Config, acc: Acc, txs: seq<Tx>)
    ensures Emitted(StoreVirtuals(cfg, acc, txs).flatLogs) == Emitted(acc.flatLogs) + EmittedBy(txs)
  {
    if txs != [] {
      var init, last := txs[..|txs| - 1], txs[|txs| - 1];
      VirtualsEmit(cfg, acc, init);
      EmittedAppend(StoreVirtuals(cfg, acc, init).flatLogs, last.receipt.logs);
    }
  }

  function EntriesOf(result: Option<TxResult>): seq<Entry> {
    if result.Some? then Entries(result.value.events) else []
  }

  /** All logs parsed from transaction `i` on. */
  function ParsedFrom(block: Block, results: seq<Option<TxResult>>, i: nat): multiset<Payload>
    requires i <= |block.txs|
    decreases |block.txs| - i
  {
    if i == |block.txs| then multiset{}
    else ParsedIn(EntriesOf(if i < |results| then results[i] else None)) + ParsedFrom(block, results, i + 1)
  }

  /** Logs owned by Ethereum messages of unmarked transactions, which the index never visits. */
  function LostFrom(block: Block, results: seq<Option<TxResult>>, i: nat): multiset<Payload>
    requires i <= |block.txs|
    decreases |block.txs| - i
  {
    if i == |block.txs| then multiset{}
    else
      (if block.txs[i].ethExtension then multiset{}
       else TakenFrom(EntriesOf(if i < |results| then results[i] else None), block.txs[i].msgs, 0))
      + LostFrom(block, results, i + 1)
  }

  lemma {:induction false} SyntheticPartEmits(
      cfg: Config, block: Block, acc: Acc, tx: CosmosTx, response: Response, gas: u64, p: Payload)
    requires cfg.virtualization && IndexSynthetic(cfg, block, acc, tx, response, gas).Ok?
    ensures Emitted(IndexSynthetic(cfg, block, acc, tx, response, gas).value.flatLogs)[p] +
            TakenFrom(response.entries, tx.msgs, 0)[p] ==
            Emitted(acc.flatLogs)[p] + ParsedIn(response.entries)[p]
  {
    var ctx := SyntheticContext(cfg, block, acc, tx, gas);
    ResponseConserved(response, tx.msgs, ctx);
    VirtualsEmit(cfg, acc, SyntheticTxsOf(response, ctx).value);
  }

  lemma {:induction false} TransactionEmits(
      cfg: Config, block: Block, results: seq<Option<TxResult>>, acc: Acc, i: nat, p: Payload)
    requires i < |block.txs| && cfg.virtualization && IndexTransaction(cfg, block, results, acc, i).Ok?
    ensures Emitted(IndexTransaction(cfg, block, results, acc, i).value.flatLogs)[p] +
            (if block.txs[i].ethExtension then 0 else TakenFrom(EntriesOf(results[i]), block.txs[i].msgs, 0)[p]) ==
            Emitted(acc.flatLogs)[p] + ParsedIn(EntriesOf(results[i]))[p]
  {
    var tx, result := block.txs[i], results[i].value;
    var response := ResponseFor(cfg, result).value;
    if tx.ethExtension {
      MessagesEmit(cfg, block, acc, i, result, result.parsed.value, response, tx.msgs, 0, 0);
      var done := IndexMessages(cfg, block, acc, i, result, result.parsed.value, response, tx.msgs, 0, 0).value;
      SyntheticPartEmits(cfg, block, done.0, tx, response, done.1, p);
    } else {
      SyntheticPartEmits(cfg, block, acc, tx, response, 0, p);
    }
  }

  lemma {:induction false} TransactionsEmit(
      cfg: Config, block: Block, results: seq<Option<TxResult>>, acc: Acc, i: nat, p: Payload)
    requires i <= |block.txs| && cfg.virtualization && IndexTransactions(cfg, block, results, acc, i).Ok?
    ensures Emitted(IndexTransactions(cfg, block, results, acc, i).value.flatLogs)[p] +
            LostFrom(block, results, i)[p] ==
            Emitted(acc.flatLogs)[p] + ParsedFrom(block, results, i)[p]
    decreases |block.txs| - i
  {
    if i < |block.txs| {
      TransactionEmits(cfg, block, results, acc, i, p);
      TransactionsEmit(cfg, block, results, IndexTransaction(cfg, block, results, acc, i).value, i + 1, p);
    }
  }

  lemma {:induction false} BlockTxEmits(cfg: Config, acc: Acc, hash: Hash, logs: seq<EthLog>, ctx: LogContext, gas: u64)
    ensures Emitted(StoreVirtual(cfg, acc, NewBlockTx(hash, logs, ctx, gas)).flatLogs) ==
            Emitted(acc.flatLogs) + multiset(RawSeq(logs))
  {
    var stamped := Stamped(WrapLogs(logs, true, ctx.cosmosHash), ctx);
    AllVirtual(stamped, logs);
    EmittedAppend(acc.flatLogs, stamped);
  }

  lemma {:induction false} NothingLost(block: Block, results: seq<Option<TxResult>>, i: nat)
    requires i <= |block.txs| && EthereumMarked(block.txs)
    ensures LostFrom(block, results, i) == multiset{}
    decreases |block.txs| - i
  {
    if i < |block.txs| {
      NothingLost(block, results, i + 1);
      if !block.txs[i].ethExtension {
        NoneTaken(EntriesOf(if i < |results| then results[i] else None), block.txs[i].msgs, 0);
      }
    }
  }

  lemma {:induction false} NoneTaken(entries: seq<Entry>, msgs: seq<Msg>, m: nat)
    requires m <= |msgs| && AllOther(msgs)
    ensures TakenFrom(entries, msgs, m) == multiset{}
    decreases |msgs| - m
  {
    if m < |msgs| {
      NoneTaken(entries, msgs, m + 1);
    }
  }

  /**
   Over the whole block: the virtual logs stored, plus those owned by Ethereum
   messages of unmarked transactions, are exactly the logs parsed from the
   block's begin and end events and from all its transactions. Nothing is
   missing from a marked block.
   */
  lemma {:induction false} BlockConserved(cfg: Config, block: Block, results: BlockResults)
    requires cfg.virtualization && IndexedBlock(cfg, block, Some(results)).Ok?
    ensures var stored, events := IndexedBlock(cfg, block, Some(results)).value, results.finalize.value;
            Emitted(Flatten(stored.groups)) + LostFrom(block, results.normalized.value, 0) ==
            multiset(RawSeq(Phase(events, true))) + ParsedFrom(block, results.normalized.value, 0) +
              multiset(RawSeq(Phase(events, false)))
    ensures EthereumMarked(block.txs) ==> LostFrom(block, results.normalized.value, 0) == multiset{}
  {
    var stored, events, normalized := IndexedBlock(cfg, block, Some(results)).value, results.finalize.value,
        results.normalized.value;
    forall p ensures (Emitted(Flatten(stored.groups)) + LostFrom(block, normalized, 0))[p] ==
                     (multiset(RawSeq(Phase(events, true))) + ParsedFrom(block, normalized, 0) +
                      multiset(RawSeq(Phase(events, false))))[p]
    {
      PayloadConserved(cfg, block, results, p);
    }
    if EthereumMarked(block.txs) {
      NothingLost(block, normalized, 0);
    }
  }

  lemma {:induction false} PayloadConserved(cfg: Config, block: Block, results: BlockResults, p: Payload)
    requires cfg.virtualization && IndexedBlock(cfg, block, Some(results)).Ok?
    ensures var stored, events := IndexedBlock(cfg, block, Some(results)).value, results.finalize.value;
            Emitted(Flatten(stored.groups))[p] + LostFrom(block, results.normalized.value, 0)[p] ==
            multiset(RawSeq(Phase(events, true)))[p] + ParsedFrom(block, results.normalized.value, 0)[p] +
              multiset(RawSeq(Phase(events, false)))[p]
  {
    hide IndexTransactions, LostFrom, ParsedFrom, BeginHash, EndHash, Phase;
    var events, normalized := results.finalize.value, results.normalized.value;
    var begin, end := Phase(events, true), Phase(events, false);
    assert begin == [] ==> RawSeq(begin) == [];
    assert end == [] ==> RawSeq(end) == [];
    if begin != [] {
      var hash := BeginHash(cfg.chain, block.height);
      BlockTxEmits(cfg, START, hash, begin, ContextFor(block, START, hash, 0), 0);
    }
    var start := BeginBlock(cfg, block, begin, START);
    assert Emitted(start.flatLogs)[p] == multiset(RawSeq(begin))[p];
    TransactionsEmit(cfg, block, normalized, start, 0, p);
    var acc := IndexTransactions(cfg, block, normalized, start, 0).value;
    if end != [] {
      var hash := EndHash(cfg.chain, block.height);
      BlockTxEmits(cfg, acc, hash, end, ContextFor(block, acc, hash, acc.rpcTxIndex), acc.gasBefore);
    }
    RootCountNeverMismatches(cfg, block, Some(results));
    CompletedNumbered(cfg, block, Some(results));
  }
}
