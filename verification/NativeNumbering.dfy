/**
 Log numbers of blocks stored without virtualization: they are those the
 normaliser gave, which also numbers the logs of transactions the indexer
 passes over.
 */
module NativeNumbering {
  import opened Common
  import opened VirtualLogs
  import opened Synthetic
  import opened BlockModel
  import opened IndexFold
  import opened Numbering
  import L = LogNumbering
  import N = Normalize

  function Numbers(logs: seq<RpcLog>): seq<nat> {
    seq(|logs|, i requires 0 <= i < |logs| => logs[i].index)
  }

  function EthNumbers(logs: seq<EthLog>): seq<nat> {
    seq(|logs|, i requires 0 <= i < |logs| => logs[i].index)
  }

  function GivenNumbers(logs: seq<L.Log>): seq<nat> {
    seq(|logs|, i requires 0 <= i < |logs| => logs[i].index)
  }

  // ---------- what the indexer stores ----------

  /** The numbers of the logs decoded for one message. */
  function MessageNumbers(msg: Msg, result: TxResult): seq<nat> {
    if msg.Ethereum? && result.hasData && msg.eth.decodedLogs.Some? then EthNumbers(msg.eth.decodedLogs.value) else []
  }

  function MessagesNumbers(msgs: seq<Msg>, result: TxResult, m: nat): seq<nat>
    requires m <= |msgs|
    decreases |msgs| - m
  {
    if m == |msgs| then [] else MessageNumbers(msgs[m], result) + MessagesNumbers(msgs, result, m + 1)
  }

  /** The numbers of the logs of the transactions that are indexed, from transaction `i` on. */
  function ShownNumbers(txs: seq<CosmosTx>, results: seq<Option<TxResult>>, i: nat): seq<nat>
    requires i <= |txs|
    decreases |txs| - i
  {
    if i == |txs| then []
    else
      (if txs[i].ethExtension && i < |results| && results[i].Some?
       then MessagesNumbers(txs[i].msgs, results[i].value, 0) else [])
      + ShownNumbers(txs, results, i + 1)
  }

  lemma {:induction false} MessageStored(
      cfg: Config, block: Block, acc: Acc, i: nat, result: TxResult, parsed: seq<ParsedTx>, response: Response,
      total: nat, m: nat, msg: EthMsg, spent: u64)
    requires !cfg.virtualization && IndexMessage(cfg, block, acc, i, result, parsed, response, total, m, msg, spent).Ok?
    ensures Numbers(IndexMessage(cfg, block, acc, i, result, parsed, response, total, m, msg,
                                 spent).value.0.flatLogs) ==
            Numbers(acc.flatLogs) + MessageNumbers(Ethereum(msg), result)
  {
  }

  lemma {:induction false} MessagesStored(
      cfg: Config, block: Block, acc: Acc, i: nat, result: TxResult, parsed: seq<ParsedTx>, response: Response,
      msgs: seq<Msg>, m: nat, spent: u64)
    requires !cfg.virtualization && m <= |msgs|
    requires IndexMessages(cfg, block, acc, i, result, parsed, response, msgs, m, spent).Ok?
    ensures Numbers(IndexMessages(cfg, block, acc, i, result, parsed, response, msgs, m, spent).value.0.flatLogs) ==
            Numbers(acc.flatLogs) + MessagesNumbers(msgs, result, m)
    decreases |msgs| - m
  {
    hide IndexMessage, Numbers, EthNumbers;
    if m < |msgs| {
      if msgs[m].Other? {
        MessagesStored(cfg, block, acc, i, result, parsed, response, msgs, m + 1, spent);
      } else {
        MessageStored(cfg, block, acc, i, result, parsed, response, |msgs|, m, msgs[m].eth, spent);
        var step := IndexMessage(cfg, block, acc, i, result, parsed, response, |msgs|, m, msgs[m].eth, spent).value;
        MessagesStored(cfg, block, step.0, i, result, parsed, response, msgs, m + 1, step.1);
      }
    }
  }

  lemma {:induction false} TransactionsStored(
      cfg: Config, block: Block, results: seq<Option<TxResult>>, acc: Acc, i: nat)
    requires !cfg.virtualization && i <= |block.txs| && IndexTransactions(cfg, block, results, acc, i).Ok?
    ensures Numbers(IndexTransactions(cfg, block, results, acc, i).value.flatLogs) ==
            Numbers(acc.flatLogs) + ShownNumbers(block.txs, results, i)
    decreases |block.txs| - i
  {
    hide IndexMessages, Numbers, MessagesNumbers;
    if i < |block.txs| {
      var tx, result := block.txs[i], results[i].value;
      if tx.ethExtension {
        MessagesStored(cfg, block, acc, i, result, result.parsed.value, ResponseFor(cfg, result).value, tx.msgs, 0, 0);
      }
      TransactionsStored(cfg, block, results, IndexTransaction(cfg, block, results, acc, i).value, i + 1);
    }
  }

  /** The stored logs carry the numbers decoded for the messages of marked transactions, in order. */
  lemma {:induction false} BlockStored(cfg: Config, block: Block, results: BlockResults)
    requires !cfg.virtualization && IndexedBlock(cfg, block, Some(results)).Ok?
    ensures Numbers(Flatten(IndexedBlock(cfg, block, Some(results)).value.groups)) ==
            ShownNumbers(block.txs, results.normalized.value, 0)
  {
    hide IndexTransactions, Numbers, ShownNumbers, ItemAt, LogsAt;
    CompletedNumbered(cfg, block, Some(results));
    TransactionsStored(cfg, block, results.normalized.value, START, 0);
    NoNumbers();
  }

  lemma {:induction false} NoNumbers()
    ensures Numbers([]) == []
  {
  }

  // ---------- what the normaliser gives ----------

  /** The logs decoded for each message are those of its response, and a response of another kind has none. */
  ghost predicate Decoded(msgs: seq<Msg>, result: TxResult, groups: seq<L.Group>) {
    if !result.hasData then L.GroupLogs(groups) == []
    else
      && |groups| == |msgs|
      && forall m :: 0 <= m < |msgs| ==> MessageNumbers(msgs[m], result) == GivenNumbers(groups[m].logs)
  }

  /** Every indexed transaction's logs are decoded from its normalised result. */
  ghost predicate AllDecoded(txs: seq<CosmosTx>, results: seq<Option<TxResult>>, parts: seq<L.Part>) {
    && |txs| <= |parts|
    && forall i :: 0 <= i < |txs| && txs[i].ethExtension && i < |results| && results[i].Some? ==>
                     Decoded(txs[i].msgs, results[i].value, parts[i].groups)
  }

  lemma {:induction false} GivenAppend(a: seq<L.Log>, b: seq<L.Log>)
    ensures GivenNumbers(a + b) == GivenNumbers(a) + GivenNumbers(b)
  {
  }

  lemma {:induction false} NothingDecoded(msgs: seq<Msg>, result: TxResult, m: nat)
    requires m <= |msgs| && !result.hasData
    ensures MessagesNumbers(msgs, result, m) == []
    decreases |msgs| - m
  {
    if m < |msgs| {
      NothingDecoded(msgs, result, m + 1);
    }
  }

  lemma {:induction false} DecodedFrom(msgs: seq<Msg>, result: TxResult, groups: seq<L.Group>, m: nat)
    requires result.hasData && Decoded(msgs, result, groups) && m <= |msgs|
    ensures GivenNumbers(L.GroupLogs(groups)) ==
            GivenNumbers(L.GroupLogs(groups[..m])) + MessagesNumbers(msgs, result, m)
    decreases |msgs| - m
  {
    hide GivenNumbers, MessageNumbers;
    if m == |msgs| {
      assert groups[..m] == groups;
    } else {
      DecodedFrom(msgs, result, groups, m + 1);
      assert groups[..m + 1][..m] == groups[..m];
      GivenAppend(L.GroupLogs(groups[..m]), groups[m].logs);
    }
  }

  lemma {:induction false} DecodedAll(msgs: seq<Msg>, result: TxResult, groups: seq<L.Group>)
    requires Decoded(msgs, result, groups)
    ensures MessagesNumbers(msgs, result, 0) == GivenNumbers(L.GroupLogs(groups))
  {
    if result.hasData {
      DecodedFrom(msgs, result, groups, 0);
    } else {
      NothingDecoded(msgs, result, 0);
    }
  }

  /** How many logs the parts before `i` have. */
  function Before(parts: seq<L.Part>, i: nat): nat
    requires i <= |parts|
  {
    |L.PartLogs(parts[..i])|
  }

  function Count(parts: seq<L.Part>, i: nat): nat
    requires i < |parts|
  {
    |L.GroupLogs(parts[i].groups)|
  }

  function From(first: nat, n: nat): seq<nat> {
    seq(n, i requires 0 <= i < n => first + i)
  }

  /** The logs of all parts are numbered 0, 1, 2, ... */
  ghost predicate InSequence(parts: seq<L.Part>) {
    GivenNumbers(L.PartLogs(parts)) == From(0, |L.PartLogs(parts)|)
  }

  lemma {:induction false} PartInSequence(parts: seq<L.Part>, i: nat)
    requires InSequence(parts) && i < |parts|
    ensures GivenNumbers(L.GroupLogs(parts[i].groups)) == From(Before(parts, i), Count(parts, i))
    ensures Before(parts, i + 1) == Before(parts, i) + Count(parts, i)
  {
    var n := |parts| - 1;
    var init := parts[..n];
    assert parts[..i + 1][..i] == parts[..i];
    if i == n {
      assert parts[..n + 1] == parts;
      var logs := L.GroupLogs(parts[n].groups);
      forall j | 0 <= j < |logs| ensures logs[j].index == Before(parts, n) + j {
        assert L.PartLogs(parts)[Before(parts, n) + j] == logs[j];
        assert GivenNumbers(L.PartLogs(parts))[Before(parts, n) + j] == Before(parts, n) + j;
      }
    } else {
      forall j | 0 <= j < |L.PartLogs(init)| ensures L.PartLogs(init)[j].index == j {
        assert L.PartLogs(parts)[j] == L.PartLogs(init)[j];
        assert GivenNumbers(L.PartLogs(parts))[j] == j;
      }
      PartInSequence(init, i);
      assert init[..i] == parts[..i];
    }
  }

  // ---------- when the stored numbers have no gap ----------

  predicate HasLogs(parts: seq<L.Part>, i: nat)
    requires i < |parts|
  {
    Count(parts, i) > 0
  }

  /** A marked transaction from `i` on has logs. */
  ghost predicate Later(txs: seq<CosmosTx>, parts: seq<L.Part>, i: nat)
    requires |txs| <= |parts|
  {
    exists k :: i <= k < |txs| && txs[k].ethExtension && HasLogs(parts, k)
  }

  /** No unmarked transaction with logs comes before a marked one with logs. */
  ghost predicate Unmixed(txs: seq<CosmosTx>, parts: seq<L.Part>, i: nat)
    requires |txs| <= |parts|
  {
    forall j :: i <= j < |txs| && !txs[j].ethExtension && HasLogs(parts, j) ==> !Later(txs, parts, j + 1)
  }

  lemma {:induction false} LaterNext(txs: seq<CosmosTx>, parts: seq<L.Part>, i: nat)
    requires i < |txs| <= |parts|
    ensures Later(txs, parts, i) <==> (txs[i].ethExtension && HasLogs(parts, i)) || Later(txs, parts, i + 1)
    ensures Unmixed(txs, parts, i) <==>
            (!txs[i].ethExtension && HasLogs(parts, i) ==> !Later(txs, parts, i + 1)) && Unmixed(txs, parts, i + 1)
  {
    hide HasLogs;
  }

  lemma {:induction false} FromSplit(a: seq<nat>, b: seq<nat>, first: nat)
    ensures a + b == From(first, |a| + |b|) <==> a == From(first, |a|) && b == From(first + |a|, |b|)
  {
    if a + b == From(first, |a| + |b|) {
      assert forall i :: 0 <= i < |a| ==> a[i] == (a + b)[i];
      assert forall i :: 0 <= i < |b| ==> b[i] == (a + b)[|a| + i];
    }
  }

  lemma {:induction false} FromMoved(first: nat, first': nat, n: nat)
    ensures From(first, n) == From(first', n) <==> n == 0 || first == first'
  {
    if n > 0 {
      assert From(first, n)[0] == first && From(first', n)[0] == first';
    }
  }

  ghost predicate AllPresent(txs: seq<CosmosTx>, results: seq<Option<TxResult>>) {
    |txs| <= |results| && forall i :: 0 <= i < |txs| ==> results[i].Some?
  }

  /** What an indexed transaction contributes. */
  lemma {:induction false} OwnNumbers(txs: seq<CosmosTx>, results: seq<Option<TxResult>>, parts: seq<L.Part>, i: nat)
    requires AllPresent(txs, results) && AllDecoded(txs, results, parts) && InSequence(parts)
    requires i < |txs| && txs[i].ethExtension
    ensures MessagesNumbers(txs[i].msgs, results[i].value, 0) == From(Before(parts, i), Count(parts, i))
  {
    hide Before, Count, InSequence, Decoded, MessagesNumbers, GivenNumbers, From;
    PartInSequence(parts, i);
    DecodedAll(txs[i].msgs, results[i].value, parts[i].groups);
  }

  lemma {:induction false} ShownStep(txs: seq<CosmosTx>, results: seq<Option<TxResult>>, i: nat)
    requires AllPresent(txs, results) && i < |txs|
    ensures ShownNumbers(txs, results, i) ==
            (if txs[i].ethExtension then MessagesNumbers(txs[i].msgs, results[i].value, 0) else [])
            + ShownNumbers(txs, results, i + 1)
  {
    hide MessagesNumbers;
  }

  /** Numbers from `at` on, put before numbers that are to follow from `first`. */
  lemma {:induction false} OwnThenRest(own: seq<nat>, rest: seq<nat>, first: nat, at: nat, more: bool, unmixed: bool)
    requires own == From(at, |own|)
    requires own == [] || first == at ==>
               (rest == From(first + |own|, |rest|) <==> (first == at || !more) && unmixed)
    ensures own + rest == From(first, |own| + |rest|) <==> (first == at || !(|own| > 0 || more)) && unmixed
  {
    hide From;
    FromSplit(own, rest, first);
    FromMoved(at, first, |own|);
  }

  lemma {:induction false} GapFreeFrom(
      txs: seq<CosmosTx>, results: seq<Option<TxResult>>, parts: seq<L.Part>, i: nat, first: nat)
    requires AllPresent(txs, results) && AllDecoded(txs, results, parts) && InSequence(parts)
    requires i <= |txs| && first <= Before(parts, i)
    ensures var shown := ShownNumbers(txs, results, i);
            shown == From(first, |shown|) <==>
            (first == Before(parts, i) || !Later(txs, parts, i)) && Unmixed(txs, parts, i)
    decreases |txs| - i
  {
    hide Before, Count, InSequence, Decoded, AllPresent, MessagesNumbers, Later, Unmixed, From, ShownNumbers;
    if i == |txs| {
      NothingMore(txs, results, parts, first);
    } else {
      PartInSequence(parts, i);
      LaterNext(txs, parts, i);
      ShownStep(txs, results, i);
      var rest := ShownNumbers(txs, results, i + 1);
      if txs[i].ethExtension {
        OwnNumbers(txs, results, parts, i);
        var own := From(Before(parts, i), Count(parts, i));
        FromLength(Before(parts, i), Count(parts, i));
        if own == [] || first == Before(parts, i) {
          GapFreeFrom(txs, results, parts, i + 1, first + |own|);
        }
        OwnThenRest(own, rest, first, Before(parts, i), Later(txs, parts, i + 1), Unmixed(txs, parts, i + 1));
      } else {
        assert [] + rest == rest;
        GapFreeFrom(txs, results, parts, i + 1, first);
      }
    }
  }

  lemma {:induction false} FromLength(first: nat, n: nat)
    ensures |From(first, n)| == n
  {
  }

  lemma {:induction false} NothingMore(
      txs: seq<CosmosTx>, results: seq<Option<TxResult>>, parts: seq<L.Part>, first: nat)
    requires |txs| <= |parts|
    ensures ShownNumbers(txs, results, |txs|) == [] == From(first, 0)
    ensures !Later(txs, parts, |txs|) && Unmixed(txs, parts, |txs|)
  {
  }

  lemma {:induction false} AcceptedPresent(cfg: Config, block: Block, results: seq<Option<TxResult>>, acc: Acc, i: nat)
    requires i <= |block.txs| && IndexTransactions(cfg, block, results, acc, i).Ok?
    ensures i < |block.txs| ==> |block.txs| <= |results|
    ensures forall j :: i <= j < |block.txs| ==> j < |results| && results[j].Some?
    decreases |block.txs| - i
  {
    hide IndexBody;
    if i < |block.txs| {
      AcceptedPresent(cfg, block, results, IndexTransaction(cfg, block, results, acc, i).value, i + 1);
    }
  }

  lemma {:induction false} Renumbered(c: N.Codec, raw: seq<Option<N.TxResult>>)
    requires N.Lawful(c) && N.Rewrite(c, raw).Some?
    requires |L.PartLogs(N.PartsOf(c, raw))| <= TWO64
    ensures InSequence(N.PartsOf(c, N.Rewrite(c, raw).value.0))
  {
    hide N.Lawful, N.PartsOf, N.Rewrite, N.AllSameButLogs, L.PartLogs, L.PartSlots, L.Positioned, L.Relabelled;
    N.LogsRenumbered(c, raw);
    var parts := N.PartsOf(c, raw);
    NumbersFromZero(L.PartLogs(N.PartsOf(c, N.Rewrite(c, raw).value.0)), L.PartLogs(parts), L.PartSlots(parts));
  }

  lemma {:induction false} NumbersFromZero(out: seq<L.Log>, logs: seq<L.Log>, slots: seq<nat>)
    requires L.Relabelled(out, logs, slots, 0) && |logs| <= TWO64
    ensures GivenNumbers(out) == From(0, |out|)
  {
  }

  /**
   Without virtualization, and with the logs of every indexed message decoded
   from what the normaliser returns, the logs of a stored block are numbered 0,
   1, 2, ... if and only if no transaction without the Ethereum extension option
   that has logs comes before one with the option that has logs.
   */
  lemma {:induction false} StoredNumbersExact(
      cfg: Config, block: Block, results: BlockResults, c: N.Codec, raw: seq<Option<N.TxResult>>)
    requires !cfg.virtualization && IndexedBlock(cfg, block, Some(results)).Ok?
    requires N.Lawful(c) && N.Rewrite(c, raw).Some? && |L.PartLogs(N.PartsOf(c, raw))| <= TWO64
    requires AllDecoded(block.txs, results.normalized.value, N.PartsOf(c, N.Rewrite(c, raw).value.0))
    ensures var numbers := Numbers(Flatten(IndexedBlock(cfg, block, Some(results)).value.groups));
            numbers == From(0, |numbers|) <==> Unmixed(block.txs, N.PartsOf(c, N.Rewrite(c, raw).value.0), 0)
  {
    hide IndexTransactions, Numbers, ShownNumbers, AllDecoded, InSequence, Unmixed, Later, N.Lawful, N.Rewrite,
         N.PartsOf;
    var parts, normalized := N.PartsOf(c, N.Rewrite(c, raw).value.0), results.normalized.value;
    BlockStored(cfg, block, results);
    AcceptedPresent(cfg, block, normalized, START, 0);
    Renumbered(c, raw);
    EnoughParts(block.txs, normalized, parts);
    NothingBefore(parts);
    GapFreeFrom(block.txs, normalized, parts, 0, 0);
  }

  lemma {:induction false} EnoughParts(txs: seq<CosmosTx>, results: seq<Option<TxResult>>, parts: seq<L.Part>)
    requires AllDecoded(txs, results, parts)
    ensures |txs| <= |parts|
  {
  }

  lemma {:induction false} NothingBefore(parts: seq<L.Part>)
    ensures Before(parts, 0) == 0
  {
  }
}
