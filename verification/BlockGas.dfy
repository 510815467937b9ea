/** The block's gas: what is stored for it, and when the last receipt reaches it. */
module BlockGas {
  import opened Common
  import opened VirtualLogs
  import opened Synthetic
  import opened BlockModel
  import opened IndexFold
  import opened LiveFold
  import opened Agreement
  import opened Gas

  // ---------- the stored total ----------

  lemma {:induction false} VirtualsUncharged(cfg: Config, acc: Acc, txs: seq<Tx>)
    ensures var all := StoreVirtuals(cfg, acc, txs); all.gasUsed == acc.gasUsed && all.gasBefore == acc.gasBefore
  {
    if txs != [] {
      VirtualsUncharged(cfg, acc, txs[..|txs| - 1]);
    }
  }

  lemma {:induction false} SyntheticUncharged(
      cfg: Config, block: Block, acc: Acc, tx: CosmosTx, response: Response, gas: u64)
    requires IndexSynthetic(cfg, block, acc, tx, response, gas).Ok?
    ensures var all := IndexSynthetic(cfg, block, acc, tx, response, gas).value;
            all.gasUsed == acc.gasUsed && all.gasBefore == acc.gasBefore
  {
    hide SyntheticTxsOf;
    if cfg.virtualization {
      VirtualsUncharged(cfg, acc, SyntheticTxsOf(response, SyntheticContext(cfg, block, acc, tx, gas)).value);
    }
  }

  lemma {:induction false} MessagesUncharged(
      cfg: Config, block: Block, acc: Acc, i: nat, result: TxResult, parsed: seq<ParsedTx>, response: Response,
      msgs: seq<Msg>, m: nat, spent: u64)
    requires m <= |msgs| && IndexMessages(cfg, block, acc, i, result, parsed, response, msgs, m, spent).Ok?
    ensures var done := IndexMessages(cfg, block, acc, i, result, parsed, response, msgs, m, spent).value.0;
            done.gasUsed == acc.gasUsed && done.gasBefore == acc.gasBefore
    decreases |msgs| - m
  {
    if m < |msgs| {
      if msgs[m].Other? {
        MessagesUncharged(cfg, block, acc, i, result, parsed, response, msgs, m + 1, spent);
      } else {
        var step := IndexMessage(cfg, block, acc, i, result, parsed, response, |msgs|, m, msgs[m].eth, spent).value;
        MessagesUncharged(cfg, block, step.0, i, result, parsed, response, msgs, m + 1, step.1);
      }
    }
  }

  lemma {:induction false} TransactionCharged(
      cfg: Config, block: Block, results: seq<Option<TxResult>>, acc: Acc, i: nat)
    requires i < |block.txs| && IndexTransaction(cfg, block, results, acc, i).Ok?
    ensures i < |results| && results[i].Some?
    ensures var next, gas := IndexTransaction(cfg, block, results, acc, i).value, results[i].value.gasUsed;
            next.gasUsed == U64(acc.gasUsed + gas) && next.gasBefore == U64(acc.gasBefore + gas)
  {
    hide IndexMessages, IndexSynthetic, U64, Add64;
    var tx, result := block.txs[i], results[i].value;
    var response := ResponseFor(cfg, result).value;
    if tx.ethExtension {
      var done := IndexMessages(cfg, block, acc, i, result, result.parsed.value, response, tx.msgs, 0, 0).value;
      MessagesUncharged(cfg, block, acc, i, result, result.parsed.value, response, tx.msgs, 0, 0);
      SyntheticUncharged(cfg, block, done.0, tx, response, done.1);
    } else {
      SyntheticUncharged(cfg, block, acc, tx, response, 0);
    }
    Charged(acc.gasUsed, result.gasUsed);
    Charged(acc.gasBefore, result.gasUsed);
  }

  lemma {:induction false} Charged(before: u64, gas: int)
    ensures Add64(before, U64(gas)) == U64(before + gas)
  {
    AddIsWrapped(before, U64(gas));
    Wrapped(gas, before);
  }

  lemma {:induction false} TransactionsCharged(
      cfg: Config, block: Block, results: seq<Option<TxResult>>, acc: Acc, i: nat)
    requires i <= |block.txs| && IndexTransactions(cfg, block, results, acc, i).Ok?
    ensures var done, gas := IndexTransactions(cfg, block, results, acc, i).value, GasFrom(results, i, |block.txs|);
            done.gasUsed == U64(acc.gasUsed + gas) && done.gasBefore == U64(acc.gasBefore + gas)
    decreases |block.txs| - i
  {
    hide IndexTransaction;
    if i < |block.txs| {
      var next := IndexTransaction(cfg, block, results, acc, i).value;
      TransactionCharged(cfg, block, results, acc, i);
      TransactionsCharged(cfg, block, results, next, i + 1);
      var gas, rest := results[i].value.gasUsed, GasFrom(results, i + 1, |block.txs|);
      Wrapped(acc.gasUsed + gas, rest);
      Wrapped(acc.gasBefore + gas, rest);
    }
  }

  /** The gas stored for a block is the gas of its transactions' results, as a 64-bit word. */
  lemma {:induction false} StoredGas(cfg: Config, block: Block, results: Option<BlockResults>)
    requires IndexedBlock(cfg, block, results).Ok?
    ensures IndexedBlock(cfg, block, results).value.meta.gasUsed ==
            U64(GasFrom(NormalizedResults(results).value, 0, |block.txs|))
  {
    hide IndexTransactions, GasFrom, Phase;
    var events := FinalizeEvents(cfg, results).value;
    var start := BeginBlock(cfg, block, Phase(events, true), START);
    assert start.gasUsed == 0;
    TransactionsCharged(cfg, block, NormalizedResults(results).value, start, 0);
  }

  // ---------- the last receipt ----------

  ghost predicate HasEthereum(msgs: seq<Msg>, m: nat) {
    exists j :: m <= j < |msgs| && msgs[j].Ethereum?
  }

  /** Bank events and hooks that become synthetic transactions. */
  function Bank(cfg: Config, block: Block, tx: CosmosTx, result: TxResult): seq<Entry> {
    match ResponseFor(cfg, result)
    case Some(response) => BankEvents(response.entries, SyntheticContext(cfg, block, START, tx, 0))
    case None => []
  }

  function Hooks(cfg: Config, block: Block, tx: CosmosTx, result: TxResult): seq<Entry> {
    match ResponseFor(cfg, result)
    case Some(response) => HookEvents(response.entries, SyntheticContext(cfg, block, START, tx, 0))
    case None => []
  }

  /** Whether a Cosmos transaction shows anything. */
  ghost predicate Shows(cfg: Config, block: Block, tx: CosmosTx, result: TxResult) {
    (tx.ethExtension && HasEthereum(tx.msgs, 0)) || Bank(cfg, block, tx, result) != [] ||
      Hooks(cfg, block, tx, result) != []
  }

  function Spent(cfg: Config, block: Block, tx: CosmosTx, result: TxResult): nat {
    (if tx.ethExtension then EthereumGasFrom(result, tx.msgs, 0) else 0) + HookGasOf(cfg, block, tx, result)
  }

  /** Whether its last receipt accounts for all its gas: an envelope absorbs the rest, or there is none. */
  predicate Accounts(cfg: Config, block: Block, tx: CosmosTx, result: TxResult) {
    Bank(cfg, block, tx, result) != [] || Spent(cfg, block, tx, result) == result.gasUsed
  }

  /** Whether the last receipt stands at the gas used so far, from transaction `i` on. */
  ghost predicate Settles(cfg: Config, block: Block, results: seq<Option<TxResult>>, i: nat, settled: bool)
    requires i <= |block.txs|
    decreases |block.txs| - i
  {
    if i == |block.txs| then settled
    else if i >= |results| || results[i].None? then Settles(cfg, block, results, i + 1, settled)
    else
      var tx, result := block.txs[i], results[i].value;
      Settles(cfg, block, results, i + 1,
              if Shows(cfg, block, tx, result) then Accounts(cfg, block, tx, result)
              else settled && result.gasUsed == 0)
  }

  /** A transaction that neither shows anything nor used any gas. */
  ghost predicate Quiet(cfg: Config, block: Block, results: seq<Option<TxResult>>, i: nat)
    requires i < |block.txs|
  {
    i >= |results| || results[i].None? ||
      (!Shows(cfg, block, block.txs[i], results[i].value) && results[i].value.gasUsed == 0)
  }

  ghost predicate QuietFrom(cfg: Config, block: Block, results: seq<Option<TxResult>>, i: nat) {
    forall j :: i <= j < |block.txs| ==> Quiet(cfg, block, results, j)
  }

  /** Transaction `i` shows something and accounts for all its gas. */
  ghost predicate Covered(cfg: Config, block: Block, results: seq<Option<TxResult>>, i: nat)
    requires i < |block.txs|
  {
    && i < |results| && results[i].Some? && Shows(cfg, block, block.txs[i], results[i].value)
    && Accounts(cfg, block, block.txs[i], results[i].value)
  }

  /** Some transaction from `i` on shows something, accounts for all its gas, and is followed by quiet ones only. */
  ghost predicate CoveredLast(cfg: Config, block: Block, results: seq<Option<TxResult>>, i: nat) {
    exists j :: i <= j < |block.txs| && Covered(cfg, block, results, j) && QuietFrom(cfg, block, results, j + 1)
  }

  lemma {:induction false} QuietNext(cfg: Config, block: Block, results: seq<Option<TxResult>>, i: nat)
    requires i < |block.txs|
    ensures QuietFrom(cfg, block, results, i) <==>
            Quiet(cfg, block, results, i) && QuietFrom(cfg, block, results, i + 1)
    ensures CoveredLast(cfg, block, results, i) <==>
            (Covered(cfg, block, results, i) && QuietFrom(cfg, block, results, i + 1)) ||
              CoveredLast(cfg, block, results, i + 1)
  {
    hide Quiet, Covered;
  }

  /** The walk over the transactions in closed form. */
  lemma {:induction false} SettlesExactly(
      cfg: Config, block: Block, results: seq<Option<TxResult>>, i: nat, settled: bool)
    requires i <= |block.txs|
    ensures Settles(cfg, block, results, i, settled) <==>
            CoveredLast(cfg, block, results, i) || (settled && QuietFrom(cfg, block, results, i))
    decreases |block.txs| - i
  {
    hide Shows, Accounts, CoveredLast, QuietFrom;
    if i == |block.txs| {
      NoneLeft(cfg, block, results);
    } else {
      QuietNext(cfg, block, results, i);
      if i >= |results| || results[i].None? {
        SettlesExactly(cfg, block, results, i + 1, settled);
      } else {
        var tx, result := block.txs[i], results[i].value;
        var next := if Shows(cfg, block, tx, result) then Accounts(cfg, block, tx, result)
                    else settled && result.gasUsed == 0;
        SettlesExactly(cfg, block, results, i + 1, next);
      }
    }
  }

  lemma {:induction false} NoneLeft(cfg: Config, block: Block, results: seq<Option<TxResult>>)
    ensures QuietFrom(cfg, block, results, |block.txs|) && !CoveredLast(cfg, block, results, |block.txs|)
  {
  }

  /** The cumulative gas the visible transactions so far end at; nothing shown stands at zero. */
  function End(items: seq<Item>): u64 {
    if items == [] then 0 else items[|items| - 1].tx.receipt.cumulativeGasUsed
  }

  lemma {:induction false} VirtualsEnd(cfg: Config, acc: Acc, txs: seq<Tx>)
    ensures End(StoreVirtuals(cfg, acc, txs).items) == if txs == [] then End(acc.items)
                                                       else txs[|txs| - 1].receipt.cumulativeGasUsed
    ensures txs == [] ==> StoreVirtuals(cfg, acc, txs) == acc
  {
  }

  lemma {:induction false} SyntheticNothing(r: Response, ctx: TxContext)
    requires SyntheticTxsOf(r, ctx).Some?
    ensures SyntheticTxsOf(r, ctx).value == [] <==> BankEvents(r.entries, ctx) == [] && HookEvents(r.entries, ctx) == []
  {
    hide HookTx, SyntheticTx;
    var found := HookEvents(r.entries, ctx);
    if found != [] {
      SortKeepsIndexes(found, ctx.totalMessages);
      SortPermutes(found);
      HookTxsAt(r, ctx, BankEvents(r.entries, ctx), SortHooks(found), |SortHooks(found)|);
    }
  }

  /** Where the synthetic transactions of a response end, if there are any. */
  lemma {:induction false} SyntheticEnd(
      cfg: Config, block: Block, acc: Acc, tx: CosmosTx, result: TxResult, response: Response, gas: u64)
    requires ResponseFor(cfg, result) == Some(response) && result.gasUsed >= 0
    requires IndexSynthetic(cfg, block, acc, tx, response, gas).Ok?
    requires gas + HookGasOf(cfg, block, tx, result) <= result.gasUsed && acc.gasBefore + result.gasUsed < TWO64
    ensures var all := IndexSynthetic(cfg, block, acc, tx, response, gas).value;
            var bank, hooks := Bank(cfg, block, tx, result), Hooks(cfg, block, tx, result);
            End(all.items) ==
            if bank == [] && hooks == [] then End(acc.items)
            else acc.gasBefore + if bank != [] then result.gasUsed else gas + HookGasOf(cfg, block, tx, result)
  {
    var ctx := SyntheticContext(cfg, block, acc, tx, gas);
    hide SyntheticTxsOf, SumGas, U64;
    SameSelection(response.entries, ctx, SyntheticContext(cfg, block, START, tx, 0));
    if cfg.virtualization {
      var txs := SyntheticTxsOf(response, ctx).value;
      VirtualsEnd(cfg, acc, txs);
      SyntheticNothing(response, ctx);
      if txs != [] {
        LastCumulative(response, ctx);
        Wrapped(ctx.cumulativeGasUsedBefore + SyntheticTotal(response, ctx), 0);
      }
    }
  }

  lemma {:induction false} MessageEnd(
      cfg: Config, block: Block, acc: Acc, i: nat, result: TxResult, response: Response, total: nat, m: nat,
      msg: EthMsg, spent: u64)
    requires result.parsed.Some?
    requires IndexMessage(cfg, block, acc, i, result, result.parsed.value, response, total, m, msg, spent).Ok?
    requires acc.gasBefore + spent + ClaimOf(msg, result, m).gasUsed < TWO64
    ensures var step :=
            IndexMessage(cfg, block, acc, i, result, result.parsed.value, response, total, m, msg, spent).value;
            && step.1 == spent + ClaimOf(msg, result, m).gasUsed && step.0.gasBefore == acc.gasBefore
            && End(step.0.items) == acc.gasBefore + step.1
  {
  }

  lemma {:induction false} MessagesEnd(
      cfg: Config, block: Block, acc: Acc, i: nat, result: TxResult, response: Response, msgs: seq<Msg>, m: nat,
      spent: u64)
    requires m <= |msgs| && result.parsed.Some?
    requires IndexMessages(cfg, block, acc, i, result, result.parsed.value, response, msgs, m, spent).Ok?
    requires acc.gasBefore + spent + EthereumGasFrom(result, msgs, m) < TWO64
    ensures var done := IndexMessages(cfg, block, acc, i, result, result.parsed.value, response, msgs, m, spent).value;
            && done.1 == spent + EthereumGasFrom(result, msgs, m) && done.0.gasBefore == acc.gasBefore
            && End(done.0.items) == (if HasEthereum(msgs, m) then acc.gasBefore + done.1 else End(acc.items))
            && (!HasEthereum(msgs, m) ==> EthereumGasFrom(result, msgs, m) == 0)
    decreases |msgs| - m
  {
    hide IndexMessage, ClaimOf;
    if m < |msgs| {
      if msgs[m].Other? {
        MessagesEnd(cfg, block, acc, i, result, response, msgs, m + 1, spent);
        assert HasEthereum(msgs, m) <==> HasEthereum(msgs, m + 1);
      } else {
        assert HasEthereum(msgs, m);
        MessageEnd(cfg, block, acc, i, result, response, |msgs|, m, msgs[m].eth, spent);
        var step := IndexMessage(cfg, block, acc, i, result, result.parsed.value, response, |msgs|, m, msgs[m].eth,
                                 spent).value;
        MessagesEnd(cfg, block, step.0, i, result, response, msgs, m + 1, step.1);
      }
    }
  }

  /** Where the visible transactions end after one more Cosmos transaction. */
  lemma {:induction false} TransactionEnd(cfg: Config, block: Block, results: seq<Option<TxResult>>, acc: Acc, i: nat)
    requires i < |block.txs| && IndexTransaction(cfg, block, results, acc, i).Ok?
    requires results[i].value.gasUsed >= 0 && GasFits(cfg, block, block.txs[i], results[i].value)
    requires acc.gasBefore + results[i].value.gasUsed < TWO64
    ensures var tx, result := block.txs[i], results[i].value;
            End(IndexTransaction(cfg, block, results, acc, i).value.items) ==
            if !Shows(cfg, block, tx, result) then End(acc.items)
            else acc.gasBefore + if Bank(cfg, block, tx, result) != [] then result.gasUsed
                                 else Spent(cfg, block, tx, result)
  {
    hide IndexMessages, IndexSynthetic, EthereumGasFrom, Bank, Hooks, HasEthereum, HookGasOf;
    var tx, result := block.txs[i], results[i].value;
    var response := ResponseFor(cfg, result).value;
    NoHooksNoGas(cfg, block, tx, result);
    if tx.ethExtension {
      MessagesEnd(cfg, block, acc, i, result, response, tx.msgs, 0, 0);
      var done := IndexMessages(cfg, block, acc, i, result, result.parsed.value, response, tx.msgs, 0, 0).value;
      SyntheticEnd(cfg, block, done.0, tx, result, response, done.1);
    } else {
      SyntheticEnd(cfg, block, acc, tx, result, response, 0);
    }
  }

  lemma {:induction false} NoHooksNoGas(cfg: Config, block: Block, tx: CosmosTx, result: TxResult)
    ensures Hooks(cfg, block, tx, result) == [] ==> HookGasOf(cfg, block, tx, result) == 0
  {
  }

  lemma {:induction false} TransactionsEnd(
      cfg: Config, block: Block, results: seq<Option<TxResult>>, acc: Acc, i: nat, settled: bool)
    requires i <= |block.txs| && IndexTransactions(cfg, block, results, acc, i).Ok?
    requires AllFit(cfg, block, results)
    requires Climbs(TxsOf(acc.items), 0, acc.gasBefore) && acc.gasBefore + GasFrom(results, i, |block.txs|) < TWO64
    requires settled <==> End(acc.items) == acc.gasBefore
    ensures var done := IndexTransactions(cfg, block, results, acc, i).value;
            Settles(cfg, block, results, i, settled) <==> End(done.items) == done.gasBefore
    decreases |block.txs| - i
  {
    hide IndexTransaction, Climbs, Shows, Accounts, Bank, Spent, GasFits;
    if i < |block.txs| {
      var next := IndexTransaction(cfg, block, results, acc, i).value;
      var tx := block.txs[i];
      TransactionCharged(cfg, block, results, acc, i);
      var result := results[i].value;
      GasFromNonNegative(cfg, block, results, i + 1);
      TransactionClimbs(cfg, block, results, acc, i);
      TransactionEnd(cfg, block, results, acc, i);
      SettledNext(cfg, block, tx, result, acc, next, settled);
      TransactionsEnd(cfg, block, results, next, i + 1,
                      if Shows(cfg, block, tx, result) then Accounts(cfg, block, tx, result)
                      else settled && result.gasUsed == 0);
    }
  }

  lemma {:induction false} SettledNext(
      cfg: Config, block: Block, tx: CosmosTx, result: TxResult, acc: Acc, next: Acc, settled: bool)
    requires Climbs(TxsOf(acc.items), 0, acc.gasBefore) && result.gasUsed >= 0 &&
             next.gasBefore == acc.gasBefore + result.gasUsed
    requires settled <==> End(acc.items) == acc.gasBefore
    requires End(next.items) ==
             if !Shows(cfg, block, tx, result) then End(acc.items)
             else acc.gasBefore + if Bank(cfg, block, tx, result) != [] then result.gasUsed
                                  else Spent(cfg, block, tx, result)
    ensures End(next.items) == next.gasBefore <==>
            if Shows(cfg, block, tx, result) then Accounts(cfg, block, tx, result) else settled && result.gasUsed == 0
  {
    hide Shows, Bank, Spent;
    assert End(acc.items) <= acc.gasBefore by {
      if acc.items != [] {
        assert TxsOf(acc.items)[|acc.items| - 1] == acc.items[|acc.items| - 1].tx;
      }
    }
  }

  /**
   When the gas fits, the last receipt of the block stands at the block's
   stored gas if and only if there are end-of-block events, or the last
   transaction that shows anything accounts for all its gas and none after it
   used any, or no transaction shows anything or used any gas.
   */
  lemma {:induction false} LastReceiptReaches(cfg: Config, block: Block, results: BlockResults)
    requires IndexedBlock(cfg, block, Some(results)).Ok?
    requires AllFit(cfg, block, results.normalized.value)
    requires GasFrom(results.normalized.value, 0, |block.txs|) < TWO64
    ensures var stored := IndexedBlock(cfg, block, Some(results)).value;
            End(stored.items) == stored.meta.gasUsed <==>
            || Phase(FinalizeEvents(cfg, Some(results)).value, false) != []
            || CoveredLast(cfg, block, results.normalized.value, 0)
            || QuietFrom(cfg, block, results.normalized.value, 0)
  {
    hide IndexTransactions, GasFrom, Climbs, AllFit, Phase, Settles, U64, CoveredLast, QuietFrom;
    var events, normalized := FinalizeEvents(cfg, Some(results)).value, results.normalized.value;
    var start := BeginBlock(cfg, block, Phase(events, true), START);
    BeginClimbs(cfg, block, Phase(events, true));
    assert End(start.items) == 0;
    TransactionsClimb(cfg, block, normalized, start, 0);
    TransactionsEnd(cfg, block, normalized, start, 0, true);
    SettlesExactly(cfg, block, normalized, 0, true);
    GasFromNonNegative(cfg, block, normalized, 0);
    StoredGas(cfg, block, Some(results));
    Wrapped(GasFrom(normalized, 0, |block.txs|), 0);
  }
}
