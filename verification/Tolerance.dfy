/**
 What the backend tolerates where the indexer fails: the live view of any
 block is what would be stored for the block with its gaps filled in.
 */
module Tolerance {
  import opened Common
  import opened VirtualLogs
  import opened Synthetic
  import opened BlockModel
  import opened IndexFold
  import opened LiveFold
  import opened Agreement
  import opened Acceptance

  // ---------- which blocks have a live view ----------

  predicate Usable(msg: Msg) {
    msg.Ethereum? ==> msg.eth.unpacks && msg.eth.sender.Some? && msg.eth.builds
  }

  /** What a transaction and its result need to be shown live. */
  ghost predicate Viewable(block: Block, results: seq<Option<TxResult>>, t: nat)
    requires t < |block.txs|
  {
    && t < |results| && results[t].Some?
    && (block.txs[t].decodes ==>
          && Showable(results[t].value.events, block.txs[t].msgs)
          && forall m :: 0 <= m < |block.txs[t].msgs| ==> Usable(block.txs[t].msgs[m]))
  }

  lemma {:induction false} LiveMessagesShown(
      block: Block, live: Live, result: TxResult, response: Response, msgs: seq<Msg>, m: nat, spent: u64)
    requires m <= |msgs|
    ensures LiveMessages(block, live, result, response, msgs, m, spent).Ok? <==>
            forall m' :: m <= m' < |msgs| ==> Usable(msgs[m'])
    decreases |msgs| - m
  {
    hide Stamped, MessageLogs, Show, ClaimOf, DecodableLogs;
    if m < |msgs| {
      if msgs[m].Other? {
        LiveMessagesShown(block, live, result, response, msgs, m + 1, spent);
      } else {
        var step := LiveMessage(block, live, result, response, |msgs|, m, msgs[m].eth, spent);
        assert step.Ok? <==> Usable(msgs[m]);
        if step.Ok? {
          LiveMessagesShown(block, step.value.0, result, response, msgs, m + 1, step.value.1);
        }
      }
    }
  }

  lemma {:induction false} LiveSyntheticShown(
      chain: Chain, block: Block, live: Live, tx: CosmosTx, result: TxResult, response: Response, gas: u64)
    requires Parsed(result.events, result.code, result.gasUsed) == Some(response)
    ensures LiveSynthetic(chain, block, live, tx, response, gas).Ok? <==> Showable(result.events, tx.msgs)
  {
    hide SyntheticTxsOf, Showable, Entries;
    BuiltExactly(response,
                 TxContext(chain, tx.hash, EthereumMessages(tx.msgs), gas, |tx.msgs|, block.hash, block.height,
                           live.rpcTxIndex, live.logIndex, live.gasBefore),
                 result.events, tx.msgs);
  }

  lemma {:induction false} LiveTransactionShown(
      chain: Chain, block: Block, results: seq<Option<TxResult>>, live: Live, t: nat)
    requires t < |block.txs|
    ensures LiveTransaction(chain, block, results, live, t).Ok? <==> Viewable(block, results, t)
  {
    hide LiveMessages, LiveSynthetic, Showable;
    if t < |results| && results[t].Some? && block.txs[t].decodes {
      var tx, result := block.txs[t], results[t].value;
      Unreadable(result.events, tx.msgs);
      if Parsable(result.events) {
        var response := Parsed(result.events, result.code, result.gasUsed).value;
        LiveMessagesShown(block, live, result, response, tx.msgs, 0, 0);
        var done := LiveMessages(block, live, result, response, tx.msgs, 0, 0);
        if done.Ok? {
          LiveSyntheticShown(chain, block, done.value.0, tx, result, response, done.value.1);
        }
      }
    }
  }

  lemma {:induction false} Unreadable(events: seq<Event>, msgs: seq<Msg>)
    ensures !Parsable(events) ==> !Showable(events, msgs)
  {
    NothingUnparsable(events);
  }

  lemma {:induction false} LiveTransactionsShown(
      chain: Chain, block: Block, results: seq<Option<TxResult>>, live: Live, t: nat)
    requires t <= |block.txs|
    ensures LiveTransactions(chain, block, results, live, t).Ok? <==>
            forall t': nat :: t <= t' < |block.txs| ==> Viewable(block, results, t')
    decreases |block.txs| - t
  {
    hide LiveTransaction, Viewable;
    if t < |block.txs| {
      LiveTransactionShown(chain, block, results, live, t);
      var next := LiveTransaction(chain, block, results, live, t);
      if next.Ok? {
        LiveTransactionsShown(chain, block, results, next.value, t + 1);
      }
    }
  }

  /**
   A block has a live view if and only if its results and block events could
   be read, every transaction has a result, and those that decode can show
   their virtual events and have only Ethereum messages that unpack, have a
   sender and build.
   */
  lemma {:induction false} ViewedExactly(chain: Chain, block: Block, results: Option<BlockResults>)
    ensures LiveView(chain, block, results).Ok? <==>
            && results.Some? && results.value.normalized.Some? && results.value.finalize.Some?
            && forall t: nat :: t < |block.txs| ==> Viewable(block, results.value.normalized.value, t)
  {
    hide LiveTransactions, Viewable, Phase;
    if results.Some? && results.value.normalized.Some? && results.value.finalize.Some? {
      LiveTransactionsShown(chain, block, results.value.normalized.value,
                            LiveBegin(chain, block, Phase(results.value.finalize.value, true), EMPTY), 0);
    }
  }

  // ---------- filling the gaps ----------

  /** Logs that do not decode count as none. */
  function MendedMsg(msg: Msg, result: TxResult): Msg {
    if msg.Other? then msg
    else Ethereum(msg.eth.(
      decodedLogs := Some(if result.hasData && msg.eth.decodedLogs.Some? then msg.eth.decodedLogs.value else [])))
  }

  /**
   A message without an outcome stands for itself, with its gas limit; it
   counts as failed if outcomes were read and the transaction failed.
   */
  function MendedOutcome(msg: Msg, result: TxResult, m: nat): ParsedTx {
    if result.parsed.Some? && m < |result.parsed.value| then result.parsed.value[m].(ethTxIndex := -1)
    else if msg.Other? then ParsedTx(ZERO_HASH, -1, 0, false)
    else ParsedTx(msg.eth.hash, -1, msg.eth.gas, result.parsed.Some? && result.code != 0)
  }

  /** Marked; a transaction that does not decode is one without messages and events. */
  function MendedTx(tx: CosmosTx, result: Option<TxResult>): CosmosTx {
    if result.None? then tx.(ethExtension := true)
    else if !tx.decodes then CosmosTx(tx.hash, true, true, [])
    else
      CosmosTx(tx.hash, true, true,
               seq(|tx.msgs|, m requires 0 <= m < |tx.msgs| => MendedMsg(tx.msgs[m], result.value)))
  }

  function MendedResult(tx: CosmosTx, result: TxResult): TxResult {
    if !tx.decodes then result.(hasData := true, parsed := Some([]), events := [])
    else
      result.(hasData := true,
              parsed := Some(seq(|tx.msgs|, m requires 0 <= m < |tx.msgs| => MendedOutcome(tx.msgs[m], result, m))))
  }

  function MendedBlock(block: Block, results: seq<Option<TxResult>>): Block {
    block.(txs := seq(|block.txs|, t requires 0 <= t < |block.txs| =>
                        MendedTx(block.txs[t], if t < |results| then results[t] else None)))
  }

  function MendedResults(block: Block, results: seq<Option<TxResult>>): seq<Option<TxResult>> {
    seq(|results|, t requires 0 <= t < |results| =>
      if results[t].Some? && t < |block.txs| then Some(MendedResult(block.txs[t], results[t].value)) else results[t])
  }

  // ---------- filling them does not change the live view ----------

  lemma {:induction false} SameMessage(
      block: Block, other: Block, live: Live, result: TxResult, mended: TxResult, response: Response, total: nat,
      m: nat, msg: Msg, spent: u64)
    requires msg.Ethereum? && other.hash == block.hash && other.height == block.height
    requires mended.code == result.code && mended.evmCodespace == result.evmCodespace && mended.hasData
    requires mended.parsed.Some? && m < |mended.parsed.value|
    requires mended.parsed.value[m] == MendedOutcome(msg, result, m)
    ensures LiveMessage(other, live, mended, response, total, m, MendedMsg(msg, result).eth, spent) ==
            LiveMessage(block, live, result, response, total, m, msg.eth, spent)
  {
    hide Stamped, MessageLogs, Show;
    var mendedMsg := MendedMsg(msg, result).eth;
    assert ClaimOf(mendedMsg, mended, m) == ClaimOf(msg.eth, result, m);
    assert DecodableLogs(mendedMsg, mended) == DecodableLogs(msg.eth, result);
  }

  lemma {:induction false} SameMessages(
      block: Block, other: Block, live: Live, tx: CosmosTx, result: TxResult, response: Response, m: nat, spent: u64)
    requires tx.decodes && m <= |tx.msgs| && other.hash == block.hash && other.height == block.height
    ensures LiveMessages(other, live, MendedResult(tx, result), response, MendedTx(tx, Some(result)).msgs, m, spent) ==
            LiveMessages(block, live, result, response, tx.msgs, m, spent)
    decreases |tx.msgs| - m
  {
    hide LiveMessage, MendedOutcome;
    var mended := MendedResult(tx, result);
    if m < |tx.msgs| {
      if tx.msgs[m].Other? {
        SameMessages(block, other, live, tx, result, response, m + 1, spent);
      } else {
        SameMessage(block, other, live, result, mended, response, |tx.msgs|, m, tx.msgs[m], spent);
        var step := LiveMessage(block, live, result, response, |tx.msgs|, m, tx.msgs[m].eth, spent);
        if step.Ok? {
          SameMessages(block, other, step.value.0, tx, result, response, m + 1, step.value.1);
        }
      }
    }
  }

  lemma {:induction false} SameEthereum(msgs: seq<Msg>, mended: seq<Msg>)
    requires |mended| == |msgs| && forall m :: 0 <= m < |msgs| ==> (mended[m].Ethereum? <==> msgs[m].Ethereum?)
    ensures EthereumMessages(mended) == EthereumMessages(msgs)
  {
  }

  lemma {:induction false} NoEvents(chain: Chain, block: Block, live: Live, hash: Hash, code: nat, gas: u64)
    ensures LiveSynthetic(chain, block, live, CosmosTx(hash, true, true, []), Response([], code, gas), 0) == Ok(live)
  {
  }

  lemma {:induction false} SameTransaction(
      chain: Chain, block: Block, results: seq<Option<TxResult>>, live: Live, t: nat)
    requires t < |block.txs|
    ensures LiveTransaction(chain, MendedBlock(block, results), MendedResults(block, results), live, t).Ok? <==>
            LiveTransaction(chain, block, results, live, t).Ok?
    ensures LiveTransaction(chain, block, results, live, t).Ok? ==>
              LiveTransaction(chain, MendedBlock(block, results), MendedResults(block, results), live, t) ==
              LiveTransaction(chain, block, results, live, t)
  {
    hide LiveMessages, LiveSynthetic, MendedMsg, MendedOutcome;
    if t < |results| && results[t].Some? {
      var tx, result, other := block.txs[t], results[t].value, MendedBlock(block, results);
      var mendedTx, mended := other.txs[t], MendedResults(block, results)[t].value;
      if !tx.decodes {
        var response := Parsed(mended.events, mended.code, mended.gasUsed).value;
        NothingLeft(other, live, mended, response);
        NoEvents(chain, other, live, tx.hash, response.code, response.gasUsed);
      } else if Parsable(result.events) {
        var response := Parsed(result.events, result.code, result.gasUsed).value;
        SameMessages(block, other, live, tx, result, response, 0, 0);
        var done := LiveMessages(block, live, result, response, tx.msgs, 0, 0);
        if done.Ok? {
          SameSynthetic(chain, block, other, done.value.0, tx, result, response, done.value.1);
        }
      }
    }
  }

  lemma {:induction false} NothingLeft(block: Block, live: Live, result: TxResult, response: Response)
    ensures LiveMessages(block, live, result, response, [], 0, 0) == Ok((live, 0))
  {
  }

  lemma {:induction false} SameSynthetic(
      chain: Chain, block: Block, other: Block, live: Live, tx: CosmosTx, result: TxResult, response: Response,
      gas: u64)
    requires tx.decodes && other.hash == block.hash && other.height == block.height
    ensures LiveSynthetic(chain, other, live, MendedTx(tx, Some(result)), response, gas) ==
            LiveSynthetic(chain, block, live, tx, response, gas)
  {
    hide SyntheticTxsOf;
    SameEthereum(tx.msgs, MendedTx(tx, Some(result)).msgs);
  }

  lemma {:induction false} SameTransactions(
      chain: Chain, block: Block, results: seq<Option<TxResult>>, live: Live, t: nat)
    requires t <= |block.txs| && LiveTransactions(chain, block, results, live, t).Ok?
    ensures LiveTransactions(chain, MendedBlock(block, results), MendedResults(block, results), live, t) ==
            LiveTransactions(chain, block, results, live, t)
    decreases |block.txs| - t
  {
    hide LiveTransaction, MendedTx, MendedResults;
    if t < |block.txs| {
      SameTransaction(chain, block, results, live, t);
      SameTransactions(chain, block, results, LiveTransaction(chain, block, results, live, t).value, t + 1);
    }
  }

  // ---------- the theorem ----------

  lemma {:induction false} MendedFits(block: Block, results: seq<Option<TxResult>>, t: nat, m: nat, number: nat)
    requires t < |block.txs| && t < |results| && results[t].Some? && block.txs[t].decodes
    requires m < |block.txs[t].msgs| && block.txs[t].msgs[m].Ethereum?
    ensures Fits(MendedBlock(block, results).txs[t].msgs[m].eth, MendedResults(block, results)[t].value, m, number) <==>
            Usable(block.txs[t].msgs[m])
  {
  }

  lemma {:induction false} MendedShowable(events: seq<Event>, msgs: seq<Msg>, mended: seq<Msg>)
    requires |mended| == |msgs| && forall m :: 0 <= m < |msgs| ==> (mended[m].Ethereum? <==> msgs[m].Ethereum?)
    ensures Showable(events, mended) <==> Showable(events, msgs)
  {
  }

  lemma {:induction false} NothingToShow()
    ensures Showable([], [])
  {
  }

  /** The indexer accepts a mended transaction exactly if the backend can show the original. */
  lemma {:induction false} MendedAcceptable(cfg: Config, block: Block, results: seq<Option<TxResult>>, t: nat)
    requires t < |block.txs| && cfg.virtualization
    ensures Acceptable(cfg, MendedBlock(block, results), MendedResults(block, results), t) <==>
            Viewable(block, results, t)
  {
    hide Showable, Fits, MendedMsg, MendedOutcome, Before, Usable;
    if t < |results| && results[t].Some? {
      var tx, result, other := block.txs[t], results[t].value, MendedBlock(block, results);
      var mended := MendedResults(block, results)[t].value;
      if !tx.decodes {
        NothingToShow();
      } else {
        KindsKept(tx, result);
        MendedShowable(result.events, tx.msgs, other.txs[t].msgs);
        forall m: nat | m < |tx.msgs|
          ensures other.txs[t].msgs[m].Ethereum? ==>
                    (Fits(other.txs[t].msgs[m].eth, mended, m, |Before(other, t, m)|) <==> Usable(tx.msgs[m]))
          ensures !other.txs[t].msgs[m].Ethereum? ==> Usable(tx.msgs[m])
        {
          if tx.msgs[m].Ethereum? {
            MendedFits(block, results, t, m, |Before(other, t, m)|);
          } else {
            OthersUsable(tx.msgs[m]);
          }
        }
      }
    }
  }

  lemma {:induction false} KindsKept(tx: CosmosTx, result: TxResult)
    requires tx.decodes
    ensures var mended := MendedTx(tx, Some(result)).msgs;
            |mended| == |tx.msgs| && forall m :: 0 <= m < |tx.msgs| ==> (mended[m].Ethereum? <==> tx.msgs[m].Ethereum?)
  {
  }

  lemma {:induction false} OthersUsable(msg: Msg)
    requires msg.Other?
    ensures Usable(msg)
  {
  }

  lemma {:induction false} MendedMarked(block: Block, results: seq<Option<TxResult>>)
    ensures EthereumMarked(MendedBlock(block, results).txs)
  {
  }

  /**
   The live view of any block, whatever the indexer would make of it, is what
   would be stored for it with its gaps filled in: every transaction marked,
   undecodable ones emptied, missing outcomes taken from the message itself and
   undecodable logs left out. One exists exactly if the other does.
   */
  lemma {:induction false} TolerantView(cfg: Config, block: Block, results: BlockResults)
    requires cfg.virtualization && results.normalized.Some?
    ensures var mended := MendedBlock(block, results.normalized.value);
            var filled := results.(normalized := Some(MendedResults(block, results.normalized.value)));
            var stored, view := IndexedBlock(cfg, mended, Some(filled)), LiveView(cfg.chain, block, Some(results));
            && (view.Ok? <==> stored.Ok?)
            && (view.Ok? ==> SameView(stored.value.items, stored.value.groups, view.value))
  {
    hide IndexedBlock, LiveTransactions, Acceptable, Viewable, MendedTx, MendedResults, EthereumMarked, SameView, Phase;
    var normalized := results.normalized.value;
    var mended := MendedBlock(block, normalized);
    var filled := results.(normalized := Some(MendedResults(block, normalized)));
    AcceptedExactly(cfg, mended, Some(filled));
    ViewedExactly(cfg.chain, block, Some(results));
    forall t: nat | t < |block.txs|
      ensures Acceptable(cfg, mended, filled.normalized.value, t) <==> Viewable(block, normalized, t)
    {
      MendedAcceptable(cfg, block, normalized, t);
    }
    if LiveView(cfg.chain, block, Some(results)).Ok? {
      MendedMarked(block, normalized);
      CachedViewIsLiveView(cfg, mended, filled);
      SameTransactions(cfg.chain, block, normalized,
                       LiveBegin(cfg.chain, block, Phase(results.finalize.value, true), EMPTY), 0);
    }
  }
}
