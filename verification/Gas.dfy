/** Gas accounting: the bank envelope takes what is left, and cumulative gas climbs through the block. */
module Gas {
  import opened Common
  import opened VirtualLogs
  import opened Synthetic
  import opened BlockModel
  import opened IndexFold
  import opened LiveFold
  import opened Agreement
  import opened Numbering

  // ---------- one response ----------

  lemma {:induction false} InsertKeepsGas(sorted: seq<Entry>, e: Entry)
    ensures SumGas(Insert(sorted, e)) == SumGas(sorted) + HookGas(e)
  {
    if sorted == [] || MsgOf(sorted[|sorted| - 1]) <= MsgOf(e) {
      assert (sorted + [e])[..|sorted|] == sorted;
    } else {
      var init, last := sorted[..|sorted| - 1], sorted[|sorted| - 1];
      InsertKeepsGas(init, e);
      assert (Insert(init, e) + [last])[..|Insert(init, e)|] == Insert(init, e);
    }
  }

  lemma {:induction false} SortKeepsGas(hooks: seq<Entry>)
    ensures SumGas(SortHooks(hooks)) == SumGas(hooks)
  {
    if hooks != [] {
      SortKeepsGas(hooks[..|hooks| - 1]);
      InsertKeepsGas(SortHooks(hooks[..|hooks| - 1]), hooks[|hooks| - 1]);
    }
  }

  /** Gas the synthetic transactions of a response add on top of what came before its Cosmos transaction. */
  function SyntheticTotal(r: Response, ctx: TxContext): nat {
    var bank, hooks := BankEvents(r.entries, ctx), HookEvents(r.entries, ctx);
    if hooks == [] then r.gasUsed
    else if bank == [] then ctx.ethereumGasUsed + SumGas(hooks)
    else Max(r.gasUsed, ctx.ethereumGasUsed + SumGas(hooks))
  }

  lemma {:induction false} GasGrows(hooks: seq<Entry>, i: nat, j: nat)
    requires i <= j <= |hooks|
    ensures SumGas(hooks[..i]) <= SumGas(hooks[..j])
    decreases j
  {
    if i < j {
      GasGrows(hooks, i, j - 1);
      assert hooks[..j][..j - 1] == hooks[..j - 1];
    }
  }

  lemma {:induction false} CumulativeOf(
      r: Response, ctx: TxContext, events: seq<Entry>, hook: Option<HookCall>, hash: Hash, gas: u64)
    ensures SyntheticTx(r, ctx, events, hook, hash, gas).receipt.cumulativeGasUsed ==
            Add64(ctx.cumulativeGasUsedBefore, if hook.Some? then hook.value.gasUsed else gas)
  {
  }

  /** Gas charged to the block before the first hook. */
  function Base(r: Response, ctx: TxContext, bank: seq<Entry>, hooks: seq<Entry>): nat {
    ctx.cumulativeGasUsedBefore + ctx.ethereumGasUsed + if bank == [] then 0 else BankGas(r, ctx, hooks)
  }

  /** The receipt of hook `i` has been charged every hook up to and including its own. */
  lemma {:induction false} HookCumulative(r: Response, ctx: TxContext, bank: seq<Entry>, hooks: seq<Entry>, i: nat)
    requires i < |hooks| && MsgOf(hooks[i]) >= 0 && hooks[i].hook.Some?
    ensures HookTx(r, ctx, bank, hooks, i).receipt.cumulativeGasUsed ==
            U64(Base(r, ctx, bank, hooks) + SumGas(hooks[..i + 1]))
  {
    assert hooks[..i + 1][..i] == hooks[..i];
    CumulativeOf(r, HookContext(r, ctx, bank, hooks, i), [hooks[i]], hooks[i].hook,
                 ctx.chain.keccak(PreimageOf(ctx.cosmosHash, hooks, i)), HookGas(hooks[i]));
    Wrapped(Base(r, ctx, bank, hooks) + SumGas(hooks[..i]), HookGas(hooks[i]));
  }

  lemma {:induction false} EnvelopeCumulative(r: Response, ctx: TxContext, bank: seq<Entry>, hooks: seq<Entry>)
    requires bank != []
    ensures BankPart(r, ctx, bank, hooks)[0].receipt.cumulativeGasUsed == U64(Base(r, ctx, bank, hooks))
  {
    CumulativeOf(r, BankContext(ctx), bank, None, ctx.chain.keccak(ctx.cosmosHash), BankGas(r, ctx, hooks));
    Wrapped(ctx.cumulativeGasUsedBefore + ctx.ethereumGasUsed, BankGas(r, ctx, hooks));
  }

  lemma {:induction false} LastHookCumulative(
      r: Response, ctx: TxContext, bank: seq<Entry>, hooks: seq<Entry>, envelope: seq<Tx>, end: nat)
    requires hooks != [] && Indexed(hooks, ctx.totalMessages) && forall i :: 0 <= i < |hooks| ==> hooks[i].hook.Some?
    requires end == Base(r, ctx, bank, hooks) + SumGas(hooks)
    ensures var txs := envelope + HookTxs(r, ctx, bank, hooks, |hooks|);
            txs != [] && txs[|txs| - 1].receipt.cumulativeGasUsed == U64(end)
  {
    hide HookTx, Base, SumGas, U64;
    HookTxsSnoc(r, ctx, bank, hooks, |hooks| - 1, envelope);
    HookCumulative(r, ctx, bank, hooks, |hooks| - 1);
    assert hooks[..|hooks|] == hooks;
  }

  lemma {:induction false} WithHooks(r: Response, ctx: TxContext)
    requires HookEvents(r.entries, ctx) != [] && SyntheticTxsOf(r, ctx).Some?
    ensures var bank, hooks := BankEvents(r.entries, ctx), SortHooks(HookEvents(r.entries, ctx));
            && hooks != [] && Indexed(hooks, ctx.totalMessages)
            && (forall i :: 0 <= i < |hooks| ==> hooks[i].hook.Some?)
            && SyntheticTxsOf(r, ctx).value == BankPart(r, ctx, bank, hooks) + HookTxs(r, ctx, bank, hooks, |hooks|)
  {
    var found := HookEvents(r.entries, ctx);
    SortPermutes(found);
    SortKeepsIndexes(found, ctx.totalMessages);
    SortKeepsHooks(found);
  }

  lemma {:induction false} HookEnd(r: Response, ctx: TxContext, txs: seq<Tx>)
    requires HookEvents(r.entries, ctx) != []
    requires Indexed(SortHooks(HookEvents(r.entries, ctx)), ctx.totalMessages)
    requires forall i :: 0 <= i < |SortHooks(HookEvents(r.entries, ctx))| ==>
               SortHooks(HookEvents(r.entries, ctx))[i].hook.Some?
    requires var bank, hooks := BankEvents(r.entries, ctx), SortHooks(HookEvents(r.entries, ctx));
             hooks != [] && txs == BankPart(r, ctx, bank, hooks) + HookTxs(r, ctx, bank, hooks, |hooks|)
    ensures txs != []
    ensures txs[|txs| - 1].receipt.cumulativeGasUsed == U64(ctx.cumulativeGasUsedBefore + SyntheticTotal(r, ctx))
  {
    hide HookTx, HookTxs, BankPart, SortHooks, BankEvents, HookEvents, SumGas, Base, SyntheticTotal, U64;
    var bank, hooks := BankEvents(r.entries, ctx), SortHooks(HookEvents(r.entries, ctx));
    TotalOf(r, ctx);
    LastHookCumulative(r, ctx, bank, hooks, BankPart(r, ctx, bank, hooks),
                       ctx.cumulativeGasUsedBefore + SyntheticTotal(r, ctx));
  }

  /** The last synthetic receipt of a response, in closed form. */
  lemma {:induction false} LastCumulative(r: Response, ctx: TxContext)
    requires SyntheticTxsOf(r, ctx).Some? && SyntheticTxsOf(r, ctx).value != []
    ensures var txs := SyntheticTxsOf(r, ctx).value;
            txs[|txs| - 1].receipt.cumulativeGasUsed == U64(ctx.cumulativeGasUsedBefore + SyntheticTotal(r, ctx))
  {
    var bank, found := BankEvents(r.entries, ctx), HookEvents(r.entries, ctx);
    if found == [] {
      CumulativeOf(r, ctx, bank, None, ctx.chain.keccak(ctx.cosmosHash), r.gasUsed);
    } else {
      WithHooks(r, ctx);
      HookEnd(r, ctx, SyntheticTxsOf(r, ctx).value);
    }
  }

  lemma {:induction false} TotalOf(r: Response, ctx: TxContext)
    requires HookEvents(r.entries, ctx) != []
    ensures var bank, hooks := BankEvents(r.entries, ctx), SortHooks(HookEvents(r.entries, ctx));
            Base(r, ctx, bank, hooks) + SumGas(hooks) == ctx.cumulativeGasUsedBefore + SyntheticTotal(r, ctx)
  {
    hide SortHooks, BankEvents, HookEvents, SumGas;
    SortKeepsGas(HookEvents(r.entries, ctx));
  }

  lemma {:induction false} TotalIsGas(r: Response, ctx: TxContext)
    ensures var spent := ctx.ethereumGasUsed + SumGas(HookEvents(r.entries, ctx));
            U64(SyntheticTotal(r, ctx)) == U64(r.gasUsed) <==>
            || HookEvents(r.entries, ctx) == []
            || U64(spent) == r.gasUsed
            || (BankEvents(r.entries, ctx) != [] && spent < r.gasUsed)
  {
    hide HookEvents, BankEvents, SumGas;
  }

  /**
   The response's gas is accounted for exactly once: the last synthetic receipt
   ends at before + gasUsed if and only if there are no hooks, or the Ethereum
   and hook gas are gasUsed as a word, or an envelope absorbs what they leave of
   it. Sums are unbounded; receipts hold them as 64-bit words.
   */
  lemma {:induction false} GasAccountedExactly(r: Response, ctx: TxContext, txs: seq<Tx>)
    requires SyntheticTxsOf(r, ctx) == Some(txs) && txs != []
    ensures var spent := ctx.ethereumGasUsed + SumGas(HookEvents(r.entries, ctx));
            txs[|txs| - 1].receipt.cumulativeGasUsed == U64(ctx.cumulativeGasUsedBefore + r.gasUsed) <==>
            || HookEvents(r.entries, ctx) == []
            || U64(spent) == r.gasUsed
            || (BankEvents(r.entries, ctx) != [] && spent < r.gasUsed)
  {
    hide SyntheticTxsOf, SyntheticTotal, U64, HookEvents, BankEvents, SumGas;
    LastCumulative(r, ctx);
    TotalIsGas(r, ctx);
    WrappedCancel(ctx.cumulativeGasUsedBefore, SyntheticTotal(r, ctx), r.gasUsed);
  }

  ghost predicate Climbs(txs: seq<Tx>, floor: int, top: int) {
    && (forall k :: 0 <= k < |txs| ==> floor <= txs[k].receipt.cumulativeGasUsed <= top)
    && forall j, k :: 0 <= j < k < |txs| ==> txs[j].receipt.cumulativeGasUsed <= txs[k].receipt.cumulativeGasUsed
  }

  lemma {:induction false} ClimbOne(txs: seq<Tx>, tx: Tx, floor: int, top: int)
    requires Climbs(txs, floor, top) && floor <= top <= tx.receipt.cumulativeGasUsed
    ensures Climbs(txs + [tx], floor, tx.receipt.cumulativeGasUsed)
  {
  }

  lemma {:induction false} HookCumulativeFits(r: Response, ctx: TxContext, bank: seq<Entry>, hooks: seq<Entry>, i: nat)
    requires i < |hooks| && MsgOf(hooks[i]) >= 0 && hooks[i].hook.Some?
    requires Base(r, ctx, bank, hooks) + SumGas(hooks) < TWO64
    ensures HookTx(r, ctx, bank, hooks, i).receipt.cumulativeGasUsed ==
            Base(r, ctx, bank, hooks) + SumGas(hooks[..i + 1])
    ensures SumGas(hooks[..i]) <= SumGas(hooks[..i + 1])
  {
    hide HookTx, Base;
    HookCumulative(r, ctx, bank, hooks, i);
    GasGrows(hooks, i, i + 1);
    GasGrows(hooks, i + 1, |hooks|);
    assert hooks[..|hooks|] == hooks;
  }

  lemma {:induction false} NoGas(hooks: seq<Entry>)
    ensures SumGas(hooks[..0]) == 0
  {
  }

  lemma {:induction false} BaseAbove(r: Response, ctx: TxContext, bank: seq<Entry>, hooks: seq<Entry>)
    ensures ctx.cumulativeGasUsedBefore + ctx.ethereumGasUsed <= Base(r, ctx, bank, hooks)
  {
  }

  lemma {:induction false} HooksClimb(
      r: Response, ctx: TxContext, bank: seq<Entry>, hooks: seq<Entry>, envelope: seq<Tx>, floor: int, n: nat)
    requires n <= |hooks| && Indexed(hooks, ctx.totalMessages) && forall i :: 0 <= i < |hooks| ==> hooks[i].hook.Some?
    requires floor <= Base(r, ctx, bank, hooks) && Climbs(envelope, floor, Base(r, ctx, bank, hooks))
    requires Base(r, ctx, bank, hooks) + SumGas(hooks) < TWO64
    ensures Climbs(envelope + HookTxs(r, ctx, bank, hooks, n), floor, Base(r, ctx, bank, hooks) + SumGas(hooks[..n]))
  {
    hide HookTx, Climbs, Base, SumGas;
    if n == 0 {
      NoGas(hooks);
      assert envelope + HookTxs(r, ctx, bank, hooks, 0) == envelope;
    } else {
      HooksClimb(r, ctx, bank, hooks, envelope, floor, n - 1);
      HookTxsSnoc(r, ctx, bank, hooks, n - 1, envelope);
      HookCumulativeFits(r, ctx, bank, hooks, n - 1);
      ClimbOne(envelope + HookTxs(r, ctx, bank, hooks, n - 1), HookTx(r, ctx, bank, hooks, n - 1), floor,
               Base(r, ctx, bank, hooks) + SumGas(hooks[..n - 1]));
    }
  }

  lemma {:induction false} EnvelopeClimbs(r: Response, ctx: TxContext, bank: seq<Entry>, hooks: seq<Entry>)
    requires Base(r, ctx, bank, hooks) < TWO64
    ensures Climbs(BankPart(r, ctx, bank, hooks), ctx.cumulativeGasUsedBefore + ctx.ethereumGasUsed,
                   Base(r, ctx, bank, hooks))
  {
    if bank != [] {
      EnvelopeCumulative(r, ctx, bank, hooks);
      Wrapped(Base(r, ctx, bank, hooks), 0);
    }
  }

  lemma {:induction false} Widen(txs: seq<Tx>, floor: int, top: int, top': int)
    requires Climbs(txs, floor, top) && top <= top'
    ensures Climbs(txs, floor, top')
  {
  }

  lemma {:induction false} HookPartClimbs(r: Response, ctx: TxContext, bank: seq<Entry>, hooks: seq<Entry>, total: nat)
    requires Indexed(hooks, ctx.totalMessages) && forall i :: 0 <= i < |hooks| ==> hooks[i].hook.Some?
    requires Base(r, ctx, bank, hooks) + SumGas(hooks) == ctx.cumulativeGasUsedBefore + total
    requires total <= r.gasUsed && ctx.cumulativeGasUsedBefore + r.gasUsed < TWO64
    ensures Climbs(BankPart(r, ctx, bank, hooks) + HookTxs(r, ctx, bank, hooks, |hooks|),
                   ctx.cumulativeGasUsedBefore + ctx.ethereumGasUsed, ctx.cumulativeGasUsedBefore + r.gasUsed)
  {
    hide HookTx, HookTxs, BankPart, Climbs, Base, SumGas;
    BaseAbove(r, ctx, bank, hooks);
    EnvelopeClimbs(r, ctx, bank, hooks);
    HooksClimb(r, ctx, bank, hooks, BankPart(r, ctx, bank, hooks), ctx.cumulativeGasUsedBefore + ctx.ethereumGasUsed,
               |hooks|);
    assert hooks[..|hooks|] == hooks;
    Widen(BankPart(r, ctx, bank, hooks) + HookTxs(r, ctx, bank, hooks, |hooks|),
          ctx.cumulativeGasUsedBefore + ctx.ethereumGasUsed,
          Base(r, ctx, bank, hooks) + SumGas(hooks), ctx.cumulativeGasUsedBefore + r.gasUsed);
  }

  /** When the gas fits, the synthetic receipts climb from the Ethereum gas to the response's gas. */
  lemma {:induction false} SyntheticClimb(r: Response, ctx: TxContext)
    requires SyntheticTxsOf(r, ctx).Some?
    requires ctx.ethereumGasUsed + SumGas(HookEvents(r.entries, ctx)) <= r.gasUsed
    requires ctx.cumulativeGasUsedBefore + r.gasUsed < TWO64
    ensures Climbs(SyntheticTxsOf(r, ctx).value, ctx.cumulativeGasUsedBefore + ctx.ethereumGasUsed,
                   ctx.cumulativeGasUsedBefore + r.gasUsed)
  {
    var bank, found := BankEvents(r.entries, ctx), HookEvents(r.entries, ctx);
    if found != [] {
      TotalOf(r, ctx);
      WithHooks(r, ctx);
      HookPartClimbs(r, ctx, bank, SortHooks(found), SyntheticTotal(r, ctx));
    } else if bank != [] {
      CumulativeOf(r, ctx, bank, None, ctx.chain.keccak(ctx.cosmosHash), r.gasUsed);
    }
  }

  // ---------- the whole block ----------

  function TxsOf(items: seq<Item>): seq<Tx> {
    seq(|items|, i requires 0 <= i < |items| => items[i].tx)
  }

  /** Gas of the Ethereum messages from position `m` on. */
  function EthereumGasFrom(result: TxResult, msgs: seq<Msg>, m: nat): nat
    requires m <= |msgs|
    decreases |msgs| - m
  {
    if m == |msgs| then 0
    else
      (if msgs[m].Ethereum? then ClaimOf(msgs[m].eth, result, m).gasUsed else 0)
      + EthereumGasFrom(result, msgs, m + 1)
  }

  function HookGasOf(cfg: Config, block: Block, tx: CosmosTx, result: TxResult): nat {
    match ResponseFor(cfg, result)
    case Some(response) => SumGas(HookEvents(response.entries, SyntheticContext(cfg, block, START, tx, 0)))
    case None => 0
  }

  /** The Cosmos transaction was charged at least what its Ethereum messages and hooks report. */
  predicate GasFits(cfg: Config, block: Block, tx: CosmosTx, result: TxResult) {
    (if tx.ethExtension then EthereumGasFrom(result, tx.msgs, 0) else 0) +
      HookGasOf(cfg, block, tx, result) <= result.gasUsed
  }

  /** Gas of the results from position `i` up to `n`. */
  function GasFrom(results: seq<Option<TxResult>>, i: nat, n: nat): int
    requires i <= n
    decreases n - i
  {
    if i == n then 0
    else (if i < |results| && results[i].Some? then results[i].value.gasUsed else 0) + GasFrom(results, i + 1, n)
  }

  predicate AllFit(cfg: Config, block: Block, results: seq<Option<TxResult>>) {
    forall i :: 0 <= i < |block.txs| && i < |results| && results[i].Some? ==>
      results[i].value.gasUsed >= 0 && GasFits(cfg, block, block.txs[i], results[i].value)
  }

  lemma {:induction false} ClimbSnoc(items: seq<Item>, item: Item, top: int, top': int)
    requires Climbs(TxsOf(items), 0, top) && top <= item.tx.receipt.cumulativeGasUsed <= top'
    ensures Climbs(TxsOf(items + [item]), 0, top')
  {
    var txs := TxsOf(items + [item]);
    assert forall k :: 0 <= k < |items| ==> txs[k] == TxsOf(items)[k];
  }

  lemma {:induction false} VirtualsClimb(cfg: Config, acc: Acc, txs: seq<Tx>, floor: int, top: int)
    requires Climbs(TxsOf(acc.items), 0, floor) && floor <= top && Climbs(txs, floor, top)
    ensures Climbs(TxsOf(StoreVirtuals(cfg, acc, txs).items), 0,
                   if txs == [] then floor else txs[|txs| - 1].receipt.cumulativeGasUsed)
    ensures StoreVirtuals(cfg, acc, txs).gasBefore == acc.gasBefore
  {
    if txs != [] {
      var init, last := txs[..|txs| - 1], txs[|txs| - 1];
      VirtualsClimb(cfg, acc, init, floor, top);
      ClimbSnoc(StoreVirtuals(cfg, acc, init).items, Item(last, None),
                if init == [] then floor else init[|init| - 1].receipt.cumulativeGasUsed,
                last.receipt.cumulativeGasUsed);
    }
  }

  lemma {:induction false} MessageClimbs(
      cfg: Config, block: Block, acc: Acc, i: nat, result: TxResult, response: Response, total: nat, m: nat,
      msg: EthMsg, spent: u64)
    requires result.parsed.Some?
    requires IndexMessage(cfg, block, acc, i, result, result.parsed.value, response, total, m, msg, spent).Ok?
    requires Climbs(TxsOf(acc.items), 0, acc.gasBefore + spent)
    requires acc.gasBefore + spent + ClaimOf(msg, result, m).gasUsed < TWO64
    ensures var step :=
            IndexMessage(cfg, block, acc, i, result, result.parsed.value, response, total, m, msg, spent).value;
            && step.1 == spent + ClaimOf(msg, result, m).gasUsed
            && step.0.gasBefore == acc.gasBefore
            && Climbs(TxsOf(step.0.items), 0, acc.gasBefore + step.1)
  {
    var step := IndexMessage(cfg, block, acc, i, result, result.parsed.value, response, total, m, msg, spent).value;
    var item := step.0.items[|acc.items|];
    assert step.0.items == acc.items + [item];
    ClimbSnoc(acc.items, item, acc.gasBefore + spent, acc.gasBefore + step.1);
  }

  lemma {:induction false} MessagesClimb(
      cfg: Config, block: Block, acc: Acc, i: nat, result: TxResult, response: Response, msgs: seq<Msg>, m: nat,
      spent: u64)
    requires m <= |msgs| && result.parsed.Some?
    requires IndexMessages(cfg, block, acc, i, result, result.parsed.value, response, msgs, m, spent).Ok?
    requires Climbs(TxsOf(acc.items), 0, acc.gasBefore + spent)
    requires acc.gasBefore + spent + EthereumGasFrom(result, msgs, m) < TWO64
    ensures var done := IndexMessages(cfg, block, acc, i, result, result.parsed.value, response, msgs, m, spent).value;
            && done.1 == spent + EthereumGasFrom(result, msgs, m)
            && done.0.gasBefore == acc.gasBefore
            && Climbs(TxsOf(done.0.items), 0, acc.gasBefore + done.1)
    decreases |msgs| - m
  {
    if m < |msgs| {
      if msgs[m].Other? {
        MessagesClimb(cfg, block, acc, i, result, response, msgs, m + 1, spent);
      } else {
        MessageClimbs(cfg, block, acc, i, result, response, |msgs|, m, msgs[m].eth, spent);
        var step := IndexMessage(cfg, block, acc, i, result, result.parsed.value, response, |msgs|, m, msgs[m].eth,
                                 spent).value;
        MessagesClimb(cfg, block, step.0, i, result, response, msgs, m + 1, step.1);
      }
    }
  }

  lemma {:induction false} SyntheticPartClimbs(
      cfg: Config, block: Block, acc: Acc, tx: CosmosTx, result: TxResult, response: Response, gas: u64)
    requires ResponseFor(cfg, result) == Some(response) && result.gasUsed >= 0
    requires IndexSynthetic(cfg, block, acc, tx, response, gas).Ok?
    requires Climbs(TxsOf(acc.items), 0, acc.gasBefore + gas)
    requires gas + HookGasOf(cfg, block, tx, result) <= result.gasUsed && acc.gasBefore + result.gasUsed < TWO64
    ensures var all := IndexSynthetic(cfg, block, acc, tx, response, gas).value;
            all.gasBefore == acc.gasBefore && Climbs(TxsOf(all.items), 0, acc.gasBefore + result.gasUsed)
  {
    if cfg.virtualization {
      var ctx := SyntheticContext(cfg, block, acc, tx, gas);
      SameSelection(response.entries, ctx, SyntheticContext(cfg, block, START, tx, 0));
      SyntheticClimb(response, ctx);
      var txs := SyntheticTxsOf(response, ctx).value;
      VirtualsClimb(cfg, acc, txs, acc.gasBefore + gas, acc.gasBefore + result.gasUsed);
    }
  }

  lemma {:induction false} TransactionClimbs(
      cfg: Config, block: Block, results: seq<Option<TxResult>>, acc: Acc, i: nat)
    requires i < |block.txs| && IndexTransaction(cfg, block, results, acc, i).Ok?
    requires results[i].value.gasUsed >= 0 && GasFits(cfg, block, block.txs[i], results[i].value)
    requires acc.gasBefore + results[i].value.gasUsed < TWO64
    requires Climbs(TxsOf(acc.items), 0, acc.gasBefore)
    ensures var next := IndexTransaction(cfg, block, results, acc, i).value;
            next.gasBefore == acc.gasBefore + results[i].value.gasUsed && Climbs(TxsOf(next.items), 0, next.gasBefore)
  {
    var tx, result := block.txs[i], results[i].value;
    var response := ResponseFor(cfg, result).value;
    if tx.ethExtension {
      MessagesClimb(cfg, block, acc, i, result, response, tx.msgs, 0, 0);
      var done := IndexMessages(cfg, block, acc, i, result, result.parsed.value, response, tx.msgs, 0, 0).value;
      SyntheticPartClimbs(cfg, block, done.0, tx, result, response, done.1);
    } else {
      SyntheticPartClimbs(cfg, block, acc, tx, result, response, 0);
    }
  }

  lemma {:induction false} GasFromNonNegative(cfg: Config, block: Block, results: seq<Option<TxResult>>, i: nat)
    requires i <= |block.txs| && AllFit(cfg, block, results)
    ensures GasFrom(results, i, |block.txs|) >= 0
    decreases |block.txs| - i
  {
    if i < |block.txs| {
      GasFromNonNegative(cfg, block, results, i + 1);
    }
  }

  lemma {:induction false} TransactionsClimb(
      cfg: Config, block: Block, results: seq<Option<TxResult>>, acc: Acc, i: nat)
    requires i <= |block.txs| && IndexTransactions(cfg, block, results, acc, i).Ok?
    requires AllFit(cfg, block, results)
    requires Climbs(TxsOf(acc.items), 0, acc.gasBefore) && acc.gasBefore + GasFrom(results, i, |block.txs|) < TWO64
    ensures var done := IndexTransactions(cfg, block, results, acc, i).value;
            done.gasBefore == acc.gasBefore + GasFrom(results, i, |block.txs|) &&
              Climbs(TxsOf(done.items), 0, done.gasBefore)
    decreases |block.txs| - i
  {
    if i < |block.txs| {
      GasFromNonNegative(cfg, block, results, i + 1);
      TransactionClimbs(cfg, block, results, acc, i);
      TransactionsClimb(cfg, block, results, IndexTransaction(cfg, block, results, acc, i).value, i + 1);
    }
  }

  /**
   If every Cosmos transaction was charged at least what its Ethereum messages
   and hooks report, cumulative gas never decreases from one visible
   transaction of the block to the next, and never exceeds the block's gas.
   */
  lemma {:induction false} CumulativeGasClimbs(cfg: Config, block: Block, results: BlockResults)
    requires IndexedBlock(cfg, block, Some(results)).Ok?
    requires AllFit(cfg, block, results.normalized.value)
    requires GasFrom(results.normalized.value, 0, |block.txs|) < TWO64
    ensures Climbs(TxsOf(IndexedBlock(cfg, block, Some(results)).value.items), 0,
                   GasFrom(results.normalized.value, 0, |block.txs|))
  {
    hide IndexTransactions, GasFrom, Climbs, AllFit, Phase;
    var events := FinalizeEvents(cfg, Some(results)).value;
    var start := BeginBlock(cfg, block, Phase(events, true), START);
    BeginClimbs(cfg, block, Phase(events, true));
    TransactionsClimb(cfg, block, results.normalized.value, start, 0);
    var acc := IndexTransactions(cfg, block, results.normalized.value, start, 0).value;
    var end := EndBlock(cfg, block, Phase(events, false), acc);
    if Phase(events, false) != [] {
      ClimbSnoc(acc.items, end.items[|acc.items|], acc.gasBefore, acc.gasBefore);
      assert end.items == acc.items + [end.items[|acc.items|]];
    }
  }

  lemma {:induction false} BeginClimbs(cfg: Config, block: Block, events: seq<EthLog>)
    ensures Climbs(TxsOf(BeginBlock(cfg, block, events, START).items), 0, 0)
    ensures BeginBlock(cfg, block, events, START).gasBefore == 0
  {
  }
}
