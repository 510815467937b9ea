/** Which blocks the indexer accepts, named from the block and its results. */
module Acceptance {
  import opened Common
  import opened VirtualLogs
  import opened Synthetic
  import opened SyntheticContent
  import opened BlockModel
  import opened IndexFold
  import opened Numbering
  import opened BlockContent

  // ---------- Ethereum messages before a place ----------

  /** The messages of the block with a record of their own that come before message `m` of transaction `t`. */
  ghost function Before(block: Block, t: nat, m: nat): set<(nat, nat)> {
    set t': nat, m': nat |
      && t' < |block.txs| && m' < |block.txs[t'].msgs|
      && Indexable(block, t', m') && Earlier(t', m', t, m) :: (t', m')
  }

  lemma {:induction false} InBefore(block: Block, t: nat, m: nat, t': nat, m': nat)
    ensures (t', m') in Before(block, t, m) <==> Indexable(block, t', m') && Earlier(t', m', t, m)
  {
  }

  lemma {:induction false} NextMessage(block: Block, t: nat, m: nat)
    ensures |Before(block, t, m + 1)| == |Before(block, t, m)| + if Indexable(block, t, m) then 1 else 0
  {
    hide Indexable;
    var before := Before(block, t, m);
    forall x ensures x in Before(block, t, m + 1) <==> x in before || (x == (t, m) && Indexable(block, t, m)) {
      InBefore(block, t, m, x.0, x.1);
      InBefore(block, t, m + 1, x.0, x.1);
    }
    InBefore(block, t, m, t, m);
    assert Before(block, t, m + 1) == if Indexable(block, t, m) then before + {(t, m)} else before;
  }

  /** Nothing of transaction `t` is indexed from message `m` on. */
  lemma {:induction false} NextTransaction(block: Block, t: nat, m: nat)
    requires forall m': nat :: m <= m' ==> !Indexable(block, t, m')
    ensures Before(block, t + 1, 0) == Before(block, t, m)
  {
    forall x ensures x in Before(block, t + 1, 0) <==> x in Before(block, t, m) {
      InBefore(block, t, m, x.0, x.1);
      InBefore(block, t + 1, 0, x.0, x.1);
    }
  }

  lemma {:induction false} NoneBefore(block: Block)
    ensures Before(block, 0, 0) == {}
  {
  }

  // ---------- one message ----------

  /**
   A message can be indexed: it unpacks, has a sender and builds; unless the
   transaction failed before execution there is an outcome at its position,
   with no number or its own; its logs decode, or there is no data because it
   failed.
   */
  ghost predicate Fits(msg: EthMsg, result: TxResult, m: nat, number: nat) {
    var ante := result.code != 0 && !result.evmCodespace;
    && msg.unpacks && msg.sender.Some? && msg.builds
    && result.parsed.Some?
    && (ante || (&& m < |result.parsed.value|
                 && (result.parsed.value[m].ethTxIndex < 0 || result.parsed.value[m].ethTxIndex == number)))
    && (if result.hasData then msg.decodedLogs.Some? else ante || result.parsed.value[m].failed)
  }

  lemma {:induction false} MessageAccepted(
      cfg: Config, block: Block, acc: Acc, t: nat, result: TxResult, response: Response, total: nat, m: nat,
      msg: EthMsg, spent: u64)
    requires result.parsed.Some?
    ensures var step := IndexMessage(cfg, block, acc, t, result, result.parsed.value, response, total, m, msg, spent);
            && (step.Ok? <==> Fits(msg, result, m, acc.ethTxIndex))
            && (step.Ok? ==> step.value.0.ethTxIndex == acc.ethTxIndex + 1)
  {
    hide MessageGroup, EthTx;
  }

  /** Every Ethereum message from `m` on can be indexed, under its number in the block. */
  ghost predicate AllFit(block: Block, t: nat, result: TxResult, m: nat)
    requires t < |block.txs|
  {
    forall m': nat :: m <= m' < |block.txs[t].msgs| && block.txs[t].msgs[m'].Ethereum? ==>
      Fits(block.txs[t].msgs[m'].eth, result, m', |Before(block, t, m')|)
  }

  lemma {:induction false} MessagesAccepted(
      cfg: Config, block: Block, acc: Acc, t: nat, result: TxResult, response: Response, m: nat, spent: u64)
    requires t < |block.txs| && block.txs[t].ethExtension && m <= |block.txs[t].msgs| && result.parsed.Some?
    requires acc.ethTxIndex == |Before(block, t, m)|
    ensures var done := IndexMessages(cfg, block, acc, t, result, result.parsed.value, response, block.txs[t].msgs, m,
                                      spent);
            && (done.Ok? <==> AllFit(block, t, result, m))
            && (done.Ok? ==> done.value.0.ethTxIndex == |Before(block, t, |block.txs[t].msgs|)|)
    decreases |block.txs[t].msgs| - m
  {
    hide IndexMessage, Fits, Before;
    var msgs := block.txs[t].msgs;
    if m < |msgs| {
      NextMessage(block, t, m);
      if msgs[m].Other? {
        MessagesAccepted(cfg, block, acc, t, result, response, m + 1, spent);
        assert AllFit(block, t, result, m) <==> AllFit(block, t, result, m + 1);
      } else {
        MessageAccepted(cfg, block, acc, t, result, response, |msgs|, m, msgs[m].eth, spent);
        var step := IndexMessage(cfg, block, acc, t, result, result.parsed.value, response, |msgs|, m, msgs[m].eth,
                                 spent);
        FirstFits(block, t, result, m);
        if step.Ok? {
          MessagesAccepted(cfg, block, step.value.0, t, result, response, m + 1, step.value.1);
        }
      }
    }
  }

  lemma {:induction false} FirstFits(block: Block, t: nat, result: TxResult, m: nat)
    requires t < |block.txs| && m < |block.txs[t].msgs| && block.txs[t].msgs[m].Ethereum?
    ensures AllFit(block, t, result, m) <==>
            Fits(block.txs[t].msgs[m].eth, result, m, |Before(block, t, m)|) && AllFit(block, t, result, m + 1)
  {
    hide Fits, Before;
  }

  // ---------- virtual events ----------

  /**
   The virtual events can be shown: every event parses, and a hook with logs
   that no Ethereum message takes names a message of the transaction.
   */
  ghost predicate Showable(events: seq<Event>, msgs: seq<Msg>) {
    && Unparsable !in events
    && forall e: Entry ::
         && Tracked(e) in events && e.hook.Some? && e.logs != []
         && (forall m :: 0 <= m < |msgs| && msgs[m].Ethereum? ==> !Takes(m, e, |msgs|))
         ==> e.msgIndex.Some? && 0 <= e.msgIndex.value < |msgs|
  }

  lemma {:induction false} EntriesAre(events: seq<Event>, e: Entry)
    ensures e in Entries(events) <==> Tracked(e) in events
  {
    if events != [] {
      var n := |events| - 1;
      EntriesAre(events[..n], e);
      assert events == events[..n] + [events[n]];
    }
  }

  lemma {:induction false} HooksAre(entries: seq<Entry>, ctx: TxContext, e: Entry)
    ensures e in HookEvents(entries, ctx) <==> e in entries && Synthesized(e, ctx) && e.hook.Some?
  {
    hide Synthesized;
    if entries != [] {
      var n := |entries| - 1;
      HooksAre(entries[..n], ctx, e);
      assert entries == entries[..n] + [entries[n]];
    }
  }

  lemma {:induction false} IndexedIs(hooks: seq<Entry>, total: nat)
    ensures Indexed(hooks, total) <==>
            forall e :: e in hooks ==> e.msgIndex.Some? && 0 <= e.msgIndex.value < total
  {
  }

  lemma {:induction false} SyntheticNeedsIndexes(r: Response, ctx: TxContext)
    ensures SyntheticTxsOf(r, ctx).Some? <==> Indexed(HookEvents(r.entries, ctx), ctx.totalMessages)
  {
    hide BankEvents, HookEvents, BankPart, SortedHookTxs, SyntheticTx;
  }

  /** Synthetic transactions can be built exactly if the events they are built from can be shown. */
  lemma {:induction false} BuiltExactly(r: Response, ctx: TxContext, events: seq<Event>, msgs: seq<Msg>)
    requires Parsable(events) && r.entries == Entries(events)
    requires ctx.ethereumMessages == EthereumMessages(msgs) && ctx.totalMessages == |msgs|
    ensures SyntheticTxsOf(r, ctx).Some? <==> Showable(events, msgs)
  {
    hide SyntheticTxsOf, HookEvents, Indexed, Entries, Synthesized, Takes;
    var hooks := HookEvents(r.entries, ctx);
    SyntheticNeedsIndexes(r, ctx);
    IndexedIs(hooks, |msgs|);
    NothingUnparsable(events);
    forall e: Entry
      ensures e in hooks <==>
              && Tracked(e) in events && e.hook.Some? && e.logs != []
              && forall m :: 0 <= m < |msgs| && msgs[m].Ethereum? ==> !Takes(m, e, |msgs|)
    {
      EntriesAre(events, e);
      HooksAre(r.entries, ctx, e);
      OutsideExact(e, ctx);
    }
  }

  lemma {:induction false} SyntheticAccepted(
      cfg: Config, block: Block, acc: Acc, tx: CosmosTx, result: TxResult, response: Response, gas: u64)
    requires cfg.virtualization && ResponseFor(cfg, result) == Some(response)
    ensures IndexSynthetic(cfg, block, acc, tx, response, gas).Ok? <==> Showable(result.events, tx.msgs)
  {
    hide SyntheticTxsOf, Showable, Entries;
    BuiltExactly(response, SyntheticContext(cfg, block, acc, tx, gas), result.events, tx.msgs);
  }

  lemma {:induction false} NothingUnparsable(events: seq<Event>)
    ensures Parsable(events) <==> Unparsable !in events
  {
    if !Parsable(events) {
      var i :| 0 <= i < |events| && events[i].Unparsable?;
      assert events[i] in events;
    }
  }

  // ---------- the block ----------

  /** What a transaction and its result need. */
  ghost predicate Acceptable(cfg: Config, block: Block, results: seq<Option<TxResult>>, t: nat)
    requires t < |block.txs|
  {
    && t < |results| && results[t].Some? && block.txs[t].decodes
    && (cfg.virtualization ==> Showable(results[t].value.events, block.txs[t].msgs))
    && (block.txs[t].ethExtension ==>
          results[t].value.parsed.Some? && AllFit(block, t, results[t].value, 0))
  }

  lemma {:induction false} SyntheticKeepsCount(
      cfg: Config, block: Block, acc: Acc, tx: CosmosTx, response: Response, gas: u64)
    requires IndexSynthetic(cfg, block, acc, tx, response, gas).Ok?
    ensures IndexSynthetic(cfg, block, acc, tx, response, gas).value.ethTxIndex == acc.ethTxIndex
  {
    hide SyntheticTxsOf;
    if cfg.virtualization {
      VirtualsKeepCount(cfg, acc, SyntheticTxsOf(response, SyntheticContext(cfg, block, acc, tx, gas)).value);
    }
  }

  lemma {:induction false} VirtualsKeepCount(cfg: Config, acc: Acc, txs: seq<Tx>)
    ensures StoreVirtuals(cfg, acc, txs).ethTxIndex == acc.ethTxIndex
  {
    if txs != [] {
      VirtualsKeepCount(cfg, acc, txs[..|txs| - 1]);
    }
  }

  lemma {:induction false} BodyAccepted(
      cfg: Config, block: Block, acc: Acc, t: nat, result: TxResult, response: Response)
    requires t < |block.txs| && acc.ethTxIndex == |Before(block, t, 0)| && ResponseFor(cfg, result) == Some(response)
    ensures var tx := block.txs[t];
            var body := IndexBody(cfg, block, acc, t, tx, result, response);
            && (body.Ok? <==>
                && (cfg.virtualization ==> Showable(result.events, tx.msgs))
                && (tx.ethExtension ==> result.parsed.Some? && AllFit(block, t, result, 0)))
            && (body.Ok? ==> body.value.ethTxIndex == |Before(block, t + 1, 0)|)
  {
    hide IndexMessages, IndexSynthetic, Showable, AllFit, Before, ResponseFor;
    var tx := block.txs[t];
    if !tx.ethExtension {
      NextTransaction(block, t, 0);
      SyntheticPart(cfg, block, acc, tx, result, response, 0);
    } else if result.parsed.Some? {
      MessagesAccepted(cfg, block, acc, t, result, response, 0, 0);
      var done := IndexMessages(cfg, block, acc, t, result, result.parsed.value, response, tx.msgs, 0, 0);
      NextTransaction(block, t, |tx.msgs|);
      if done.Ok? {
        SyntheticPart(cfg, block, done.value.0, tx, result, response, done.value.1);
      }
    }
  }

  lemma {:induction false} SyntheticPart(
      cfg: Config, block: Block, acc: Acc, tx: CosmosTx, result: TxResult, response: Response, gas: u64)
    requires ResponseFor(cfg, result) == Some(response)
    ensures var all := IndexSynthetic(cfg, block, acc, tx, response, gas);
            && (all.Ok? <==> (cfg.virtualization ==> Showable(result.events, tx.msgs)))
            && (all.Ok? ==> all.value.ethTxIndex == acc.ethTxIndex)
  {
    hide SyntheticTxsOf, Showable;
    if cfg.virtualization {
      SyntheticAccepted(cfg, block, acc, tx, result, response, gas);
    }
    if IndexSynthetic(cfg, block, acc, tx, response, gas).Ok? {
      SyntheticKeepsCount(cfg, block, acc, tx, response, gas);
    }
  }

  lemma {:induction false} ParsesAtAll(cfg: Config, result: TxResult, msgs: seq<Msg>)
    ensures ResponseFor(cfg, result).None? ==> cfg.virtualization && !Showable(result.events, msgs)
  {
    NothingUnparsable(result.events);
  }

  lemma {:induction false} TransactionAccepted(
      cfg: Config, block: Block, results: seq<Option<TxResult>>, acc: Acc, t: nat)
    requires t < |block.txs| && acc.ethTxIndex == |Before(block, t, 0)|
    ensures var next := IndexTransaction(cfg, block, results, acc, t);
            && (next.Ok? <==> Acceptable(cfg, block, results, t))
            && (next.Ok? ==> next.value.ethTxIndex == |Before(block, t + 1, 0)|)
  {
    hide IndexBody, Showable, AllFit, Before, ResponseFor;
    if t < |results| && results[t].Some? {
      var result := results[t].value;
      ParsesAtAll(cfg, result, block.txs[t].msgs);
      if ResponseFor(cfg, result).Some? {
        BodyAccepted(cfg, block, acc, t, result, ResponseFor(cfg, result).value);
      }
    }
  }

  lemma {:induction false} TransactionsAccepted(
      cfg: Config, block: Block, results: seq<Option<TxResult>>, acc: Acc, t: nat)
    requires t <= |block.txs| && acc.ethTxIndex == |Before(block, t, 0)|
    ensures IndexTransactions(cfg, block, results, acc, t).Ok? <==>
            forall t': nat :: t <= t' < |block.txs| ==> Acceptable(cfg, block, results, t')
    decreases |block.txs| - t
  {
    hide IndexTransaction, Acceptable, Before;
    if t < |block.txs| {
      TransactionAccepted(cfg, block, results, acc, t);
      var next := IndexTransaction(cfg, block, results, acc, t);
      if next.Ok? {
        TransactionsAccepted(cfg, block, results, next.value, t + 1);
      }
    }
  }

  /**
   A block is accepted if and only if its results and, with virtualization,
   its block events could be read, and every transaction has a result, decodes,
   can show its virtual events, and if it is marked has outcomes that fit each
   of its Ethereum messages. Results may be missing only if it has no
   transactions.
   */
  lemma {:induction false} AcceptedExactly(cfg: Config, block: Block, results: Option<BlockResults>)
    ensures IndexedBlock(cfg, block, results).Ok? <==>
            if results.None? then block.txs == []
            else
              && results.value.normalized.Some? && (cfg.virtualization ==> results.value.finalize.Some?)
              && forall t: nat :: t < |block.txs| ==> Acceptable(cfg, block, results.value.normalized.value, t)
  {
    hide IndexTransactions, Acceptable, Phase, Finish;
    RootCountNeverMismatches(cfg, block, results);
    if NormalizedResults(results).Some? && FinalizeEvents(cfg, results).Some? {
      var start := BeginBlock(cfg, block, Phase(FinalizeEvents(cfg, results).value, true), START);
      NoneBefore(block);
      TransactionsAccepted(cfg, block, NormalizedResults(results).value, start, 0);
      if results.None? && block.txs != [] {
        NoResults(cfg, block);
      }
    }
  }

  lemma {:induction false} NoResults(cfg: Config, block: Block)
    requires block.txs != []
    ensures !Acceptable(cfg, block, [], 0)
  {
  }
}
