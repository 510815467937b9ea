/** How a stored block is laid out: begin events, then each transaction's messages and virtual events, end events. */
module BlockLayout {
  import opened Common
  import opened VirtualLogs
  import opened Synthetic
  import opened SyntheticContent
  import opened BlockModel
  import opened IndexFold
  import opened Gas
  import opened BlockGas
  import opened BlockContent

  // ---------- what a transaction's part holds ----------

  /** The setting in which a transaction's virtual events are shown. */
  ghost predicate OwnContext(cfg: Config, block: Block, results: seq<Option<TxResult>>, t: nat, ctx: TxContext)
    requires t < |block.txs| && t < |results| && results[t].Some?
  {
    var tx := block.txs[t];
    && ctx.chain == cfg.chain && ctx.cosmosHash == tx.hash && ctx.totalMessages == |tx.msgs|
    && (forall m :: m in ctx.ethereumMessages <==> 0 <= m < |tx.msgs| && tx.msgs[m].Ethereum?)
    && ctx.ethereumGasUsed == (if tx.ethExtension then U64(GasUpTo(tx.msgs, results[t].value, |tx.msgs|)) else 0)
    && ctx.cumulativeGasUsedBefore == U64(GasFrom(results, 0, t))
    && ctx.blockHash == block.hash && ctx.blockNumber == block.height
  }

  ghost predicate OwnResponse(result: TxResult, r: Response, at: seq<nat>) {
    && EntriesAt(r.entries, result.events, at) && r.code == result.code
    && r.gasUsed == if result.gasUsed < 0 then 0 else result.gasUsed
  }

  /** The transactions shown for the virtual events of transaction `t`. */
  ghost predicate ShowsEvents(cfg: Config, block: Block, results: seq<Option<TxResult>>, t: nat, txs: seq<Tx>)
    requires t < |block.txs| && t < |results| && results[t].Some?
  {
    exists r, ctx, at, bankAt, hookAt ::
      OwnContext(cfg, block, results, t, ctx) && OwnResponse(results[t].value, r, at) &&
        Listed(r, ctx, txs, bankAt, hookAt)
  }

  ghost predicate OfMessages(items: seq<Item>, t: nat) {
    forall i :: 0 <= i < |items| ==> items[i].record.Some? && items[i].record.value.txIndex == t
  }

  ghost predicate OfEvents(cfg: Config, block: Block, results: seq<Option<TxResult>>, t: nat, items: seq<Item>)
    requires t < |block.txs| && t < |results| && results[t].Some?
  {
    && (forall i :: 0 <= i < |items| ==> items[i].record.None?)
    && if cfg.virtualization then ShowsEvents(cfg, block, results, t, TxsOf(items)) else items == []
  }

  /** A transaction's part of the block: the items of its messages, then those of its virtual events. */
  ghost predicate LaidOut(cfg: Config, block: Block, results: seq<Option<TxResult>>, t: nat, part: seq<Item>) {
    && t < |block.txs| && t < |results| && results[t].Some?
    && exists k :: 0 <= k <= |part| && OfMessages(part[..k], t) && OfEvents(cfg, block, results, t, part[k..])
  }

  // ---------- one transaction ----------

  lemma {:induction false} VirtualsAppend(cfg: Config, acc: Acc, txs: seq<Tx>) returns (more: seq<Item>)
    ensures StoreVirtuals(cfg, acc, txs).items == acc.items + more
    ensures TxsOf(more) == txs && forall i :: 0 <= i < |more| ==> more[i].record.None?
  {
    if txs == [] {
      more := [];
      assert acc.items + [] == acc.items;
    } else {
      var n := |txs| - 1;
      var before := VirtualsAppend(cfg, acc, txs[..n]);
      more := before + [Item(txs[n], None)];
      assert acc.items + more == (acc.items + before) + [Item(txs[n], None)];
      forall i | 0 <= i < |txs| ensures TxsOf(more)[i] == txs[i] {
        assert i < n ==> TxsOf(before)[i] == txs[..n][i];
      }
    }
  }

  lemma {:induction false} SyntheticAppend(
      cfg: Config, block: Block, results: seq<Option<TxResult>>, acc: Acc, t: nat, response: Response, gas: u64)
    returns (more: seq<Item>)
    requires t < |block.txs| && t < |results| && results[t].Some?
    requires ResponseFor(cfg, results[t].value) == Some(response)
    requires IndexSynthetic(cfg, block, acc, block.txs[t], response, gas).Ok?
    requires acc.gasBefore == U64(GasFrom(results, 0, t))
    requires gas == if block.txs[t].ethExtension
                    then U64(GasUpTo(block.txs[t].msgs, results[t].value, |block.txs[t].msgs|)) else 0
    ensures IndexSynthetic(cfg, block, acc, block.txs[t], response, gas).value.items == acc.items + more
    ensures OfEvents(cfg, block, results, t, more)
  {
    hide SyntheticTxsOf, Listed, GasFrom, GasUpTo, U64, Parsed;
    if cfg.virtualization {
      var result, ctx := results[t].value, SyntheticContext(cfg, block, acc, block.txs[t], gas);
      var txs := SyntheticTxsOf(response, ctx).value;
      var at := ParsedExactly(result.events, result.code, result.gasUsed);
      var bankAt, hookAt := SyntheticTxsExact(response, ctx);
      more := VirtualsAppend(cfg, acc, txs);
      assert OwnContext(cfg, block, results, t, ctx) && OwnResponse(result, response, at);
      assert ShowsEvents(cfg, block, results, t, TxsOf(more));
    } else {
      more := [];
      assert acc.items + [] == acc.items;
    }
  }

  lemma {:induction false} MessagesAppend(
      cfg: Config, block: Block, acc: Acc, t: nat, result: TxResult, parsed: seq<ParsedTx>, response: Response,
      msgs: seq<Msg>, m: nat, spent: u64)
    returns (more: seq<Item>)
    requires m <= |msgs| && IndexMessages(cfg, block, acc, t, result, parsed, response, msgs, m, spent).Ok?
    ensures IndexMessages(cfg, block, acc, t, result, parsed, response, msgs, m, spent).value.0.items ==
            acc.items + more
    ensures IndexMessages(cfg, block, acc, t, result, parsed, response, msgs, m, spent).value.0.gasBefore ==
            acc.gasBefore
    ensures OfMessages(more, t)
    decreases |msgs| - m
  {
    hide MessageGroup, EthTx, Outcome, NativeLogs;
    if m == |msgs| {
      more := [];
      assert acc.items + [] == acc.items;
    } else if msgs[m].Other? {
      more := MessagesAppend(cfg, block, acc, t, result, parsed, response, msgs, m + 1, spent);
    } else {
      var step := IndexMessage(cfg, block, acc, t, result, parsed, response, |msgs|, m, msgs[m].eth, spent).value;
      var rest := MessagesAppend(cfg, block, step.0, t, result, parsed, response, msgs, m + 1, step.1);
      var item := step.0.items[|acc.items|];
      more := [item] + rest;
      assert step.0.items == acc.items + [item];
      assert (acc.items + [item]) + rest == acc.items + more;
    }
  }

  lemma {:induction false} Joined(
      cfg: Config, block: Block, results: seq<Option<TxResult>>, t: nat, front: seq<Item>, back: seq<Item>)
    requires t < |block.txs| && t < |results| && results[t].Some?
    requires OfMessages(front, t) && OfEvents(cfg, block, results, t, back)
    ensures LaidOut(cfg, block, results, t, front + back)
  {
    hide OfEvents;
    assert (front + back)[..|front|] == front && (front + back)[|front|..] == back;
  }

  lemma {:induction false} TransactionLaidOut(
      cfg: Config, block: Block, results: seq<Option<TxResult>>, acc: Acc, t: nat)
    returns (part: seq<Item>)
    requires t < |block.txs| && IndexTransaction(cfg, block, results, acc, t).Ok?
    requires Recorded(cfg, block, results, acc.items, t, 0) && acc.gasBefore == U64(GasFrom(results, 0, t))
    ensures IndexTransaction(cfg, block, results, acc, t).value.items == acc.items + part
    ensures LaidOut(cfg, block, results, t, part)
  {
    hide Recorded, IndexMessages, IndexSynthetic, ResponseFor, GasFrom, U64, OfMessages, OfEvents, LaidOut;
    var tx, result := block.txs[t], results[t].value;
    var response := ResponseFor(cfg, result).value;
    var front: seq<Item> := [];
    var back: seq<Item>;
    if tx.ethExtension {
      var parsed := result.parsed.value;
      NothingSpent();
      MessagesRecorded(cfg, block, results, acc, response, t, 0, 0);
      var done := IndexMessages(cfg, block, acc, t, result, parsed, response, tx.msgs, 0, 0).value;
      front := MessagesAppend(cfg, block, acc, t, result, parsed, response, tx.msgs, 0, 0);
      back := SyntheticAppend(cfg, block, results, done.0, t, response, done.1);
      assert (acc.items + front) + back == acc.items + (front + back);
    } else {
      NoMessages(t);
      back := SyntheticAppend(cfg, block, results, acc, t, response, 0);
      assert [] + back == back;
    }
    part := front + back;
    Joined(cfg, block, results, t, front, back);
  }

  lemma {:induction false} NoMessages(t: nat)
    ensures OfMessages([], t)
  {
  }

  // ---------- the block ----------

  /** Between cuts `j` and `j + 1` lies the part of the `j`-th transaction from `t` on. */
  ghost predicate Cut(
      cfg: Config, block: Block, results: seq<Option<TxResult>>, items: seq<Item>, t: nat, cuts: seq<nat>, j: nat)
    requires j + 1 < |cuts|
  {
    cuts[j] <= cuts[j + 1] <= |items| && LaidOut(cfg, block, results, t + j, items[cuts[j]..cuts[j + 1]])
  }

  /** From transaction `t` on, one part after the other up to the end of the items. */
  ghost predicate CutsAt(
      cfg: Config, block: Block, results: seq<Option<TxResult>>, items: seq<Item>, t: nat, cuts: seq<nat>)
  {
    && t <= |block.txs| && |cuts| == |block.txs| - t + 1
    && forall j :: 0 <= j < |cuts| - 1 ==> Cut(cfg, block, results, items, t, cuts, j)
  }

  lemma {:induction false} TransactionsLaidOut(
      cfg: Config, block: Block, results: seq<Option<TxResult>>, acc: Acc, t: nat)
    returns (cuts: seq<nat>)
    requires t <= |block.txs| && IndexTransactions(cfg, block, results, acc, t).Ok?
    requires Recorded(cfg, block, results, acc.items, t, 0) && acc.gasBefore == U64(GasFrom(results, 0, t))
    ensures var items := IndexTransactions(cfg, block, results, acc, t).value.items;
            && acc.items <= items && CutsAt(cfg, block, results, items, t, cuts)
            && cuts[0] == |acc.items| && cuts[|cuts| - 1] == |items|
    decreases |block.txs| - t
  {
    hide Recorded, IndexTransaction, GasFrom, U64, LaidOut;
    if t == |block.txs| {
      cuts := [|acc.items|];
    } else {
      var next := IndexTransaction(cfg, block, results, acc, t).value;
      var part := TransactionLaidOut(cfg, block, results, acc, t);
      TransactionRecorded(cfg, block, results, acc, t);
      TransactionCharged(cfg, block, results, acc, t);
      GasFromSnoc(results, 0, t);
      Wrapped(GasFrom(results, 0, t), results[t].value.gasUsed);
      var rest := TransactionsLaidOut(cfg, block, results, next, t + 1);
      cuts := [|acc.items|] + rest;
      var items := IndexTransactions(cfg, block, results, acc, t).value.items;
      FirstCut(cfg, block, results, items, t, acc.items, part, rest);
    }
  }

  lemma {:induction false} FirstCut(
      cfg: Config, block: Block, results: seq<Option<TxResult>>, items: seq<Item>, t: nat, before: seq<Item>,
      part: seq<Item>, rest: seq<nat>)
    requires t < |block.txs| && before + part <= items && LaidOut(cfg, block, results, t, part)
    requires CutsAt(cfg, block, results, items, t + 1, rest) && rest[0] == |before + part|
    ensures before <= items && CutsAt(cfg, block, results, items, t, [|before|] + rest)
  {
    hide LaidOut;
    var cuts := [|before|] + rest;
    assert items[|before|..|before + part|] == part;
    forall j | 0 <= j < |cuts| - 1 ensures Cut(cfg, block, results, items, t, cuts, j) {
      if j > 0 {
        assert Cut(cfg, block, results, items, t + 1, rest, j - 1);
        assert t + j == t + 1 + (j - 1);
      }
    }
  }

  /** Whether the block has events of one phase. */
  ghost predicate HasPhase(events: seq<BlockEvent>, begins: bool) {
    exists i :: 0 <= i < |events| && events[i].begins == begins
  }

  lemma {:induction false} PhaseShows(events: seq<BlockEvent>, begins: bool)
    ensures Phase(events, begins) != [] <==> HasPhase(events, begins)
  {
    hide Phase;
    var at := PhaseExact(events, begins);
    if at != [] {
      assert at[0] in at;
    }
    if i :| 0 <= i < |events| && events[i].begins == begins {
      assert i in at;
    }
  }

  lemma {:induction false} CutsStay(
      cfg: Config, block: Block, results: seq<Option<TxResult>>, items: seq<Item>, cuts: seq<nat>, more: seq<Item>)
    requires CutsAt(cfg, block, results, items, 0, cuts)
    ensures CutsAt(cfg, block, results, items + more, 0, cuts)
  {
    hide LaidOut;
    forall j | 0 <= j < |cuts| - 1 ensures Cut(cfg, block, results, items + more, 0, cuts, j) {
      assert Cut(cfg, block, results, items, 0, cuts, j);
      assert (items + more)[cuts[j]..cuts[j + 1]] == items[cuts[j]..cuts[j + 1]];
    }
  }

  /**
   A stored block consists of one item for begin events if there are any, then
   for each transaction in order the items of its Ethereum messages and those
   of its virtual events, then one item for end events if there are any.
   */
  lemma {:induction false} BlockLaidOut(cfg: Config, block: Block, results: Option<BlockResults>)
    returns (cuts: seq<nat>)
    requires IndexedBlock(cfg, block, results).Ok?
    ensures var items, events := IndexedBlock(cfg, block, results).value.items, FinalizeEvents(cfg, results).value;
            && CutsAt(cfg, block, NormalizedResults(results).value, items, 0, cuts)
            && cuts[0] == (if HasPhase(events, true) then 1 else 0)
            && |items| == cuts[|block.txs|] + if HasPhase(events, false) then 1 else 0
  {
    hide Recorded, IndexTransactions, GasFrom, U64, NewBlockTx, Phase, CutsAt;
    var events, normalized := FinalizeEvents(cfg, results).value, NormalizedResults(results).value;
    var begin, end := Phase(events, true), Phase(events, false);
    PhaseShows(events, true);
    PhaseShows(events, false);
    var start := BeginBlock(cfg, block, begin, START);
    BeginRecorded(cfg, block, normalized, begin);
    cuts := TransactionsLaidOut(cfg, block, normalized, start, 0);
    var acc := IndexTransactions(cfg, block, normalized, start, 0).value;
    var all := EndBlock(cfg, block, end, acc);
    CutsLength(cfg, block, normalized, acc.items, cuts);
    CutsStay(cfg, block, normalized, acc.items, cuts, all.items[|acc.items|..]);
    assert all.items == acc.items + all.items[|acc.items|..];
  }

  lemma {:induction false} CutsLength(
      cfg: Config, block: Block, results: seq<Option<TxResult>>, items: seq<Item>, cuts: seq<nat>)
    requires CutsAt(cfg, block, results, items, 0, cuts)
    ensures |cuts| == |block.txs| + 1
  {
  }
}
