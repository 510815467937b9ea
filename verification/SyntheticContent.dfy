/**
 What the virtual events of one Cosmos transaction become, named from the
 events themselves: which logs an Ethereum message takes, and which synthetic
 transactions there are, in what order and with what in every field.
 */
module SyntheticContent {
  import opened Common
  import opened VirtualLogs
  import opened Synthetic

  // ---------- parsing ----------

  ghost predicate TrackedAt(events: seq<Event>, at: seq<nat>) {
    Increasing(at) && forall i: nat :: i in at <==> i < |events| && events[i].Tracked?
  }

  ghost predicate EntriesAt(entries: seq<Entry>, events: seq<Event>, at: seq<nat>) {
    && TrackedAt(events, at) && |entries| == |at|
    && forall k :: 0 <= k < |at| ==> at[k] < |events| && events[at[k]] == Tracked(entries[k])
  }

  lemma {:induction false} EntriesExact(events: seq<Event>) returns (at: seq<nat>)
    ensures EntriesAt(Entries(events), events, at)
  {
    if events == [] {
      at := [];
    } else {
      var n := |events| - 1;
      var before := EntriesExact(events[..n]);
      at := before;
      if events[n].Tracked? {
        IncreasingSnoc(before, n);
        at := before + [n];
      }
    }
  }

  /** Parsing fails exactly on an event that cannot be parsed, and otherwise keeps the tracked ones in order. */
  lemma {:induction false} ParsedExactly(events: seq<Event>, code: nat, gasUsed: int) returns (at: seq<nat>)
    requires gasUsed < TWO64
    ensures Parsed(events, code, gasUsed).None? <==> Unparsable in events
    ensures var r := Parsed(events, code, gasUsed);
            r.Some? ==>
              && EntriesAt(r.value.entries, events, at) && r.value.code == code
              && r.value.gasUsed == if gasUsed < 0 then 0 else gasUsed
  {
    at := EntriesExact(events);
    if !Parsable(events) {
      var i :| 0 <= i < |events| && events[i].Unparsable?;
      assert events[i] in events;
    }
  }

  // ---------- logs ----------

  /** A message takes the events with its index, and the only message also those without one. */
  predicate Takes(m: int, e: Entry, total: int) {
    e.msgIndex == Some(m) || (e.msgIndex == None && total == 1 && m == 0)
  }

  function Chosen(entries: seq<Entry>, at: seq<nat>): seq<Entry>
    requires forall k :: 0 <= k < |at| ==> at[k] < |entries|
  {
    seq(|at|, k requires 0 <= k < |at| => entries[at[k]])
  }

  /** The logs of a list of events, each with the hook it came from. */
  function RawLogs(events: seq<Entry>): seq<(EthLog, Option<HookCall>)> {
    if events == [] then []
    else
      var e := events[|events| - 1];
      RawLogs(events[..|events| - 1]) + seq(|e.logs|, i requires 0 <= i < |e.logs| => (e.logs[i], e.hook))
  }

  /** A virtual log says what the event's log says, and names its Cosmos transaction and, for a hook, its message. */
  ghost predicate Shows(log: RpcLog, raw: (EthLog, Option<HookCall>), cosmosHash: Option<Hash>) {
    && log.address == raw.0.address && log.topics == raw.0.topics && log.data == raw.0.data
    && log.removed == raw.0.removed && log.isVirtual && log.cosmosHash == cosmosHash
    && log.cosmosMsgIndex == if raw.1.Some? &&
      raw.1.value.msgIndex.Some? then Some(U64(raw.1.value.msgIndex.value)) else None
  }

  ghost predicate AllShown(logs: seq<RpcLog>, events: seq<Entry>, cosmosHash: Option<Hash>) {
    |logs| == |RawLogs(events)| && forall i :: 0 <= i < |logs| ==> Shows(logs[i], RawLogs(events)[i], cosmosHash)
  }

  lemma {:induction false} LogsShown(events: seq<Entry>, cosmosHash: Option<Hash>)
    ensures AllShown(LogsOf(events, cosmosHash), events, cosmosHash)
  {
    if events != [] {
      LogsShown(events[..|events| - 1], cosmosHash);
    }
  }

  lemma {:induction false} StampedShown(
      logs: seq<RpcLog>, events: seq<Entry>, cosmosHash: Option<Hash>, ctx: LogContext)
    requires AllShown(logs, events, cosmosHash)
    ensures AllShown(Stamped(logs, ctx), events, ctx.cosmosHash)
  {
    hide RawLogs;
  }

  ghost predicate TakenAt(entries: seq<Entry>, m: int, total: int, at: seq<nat>) {
    Increasing(at) && forall i: nat :: i in at <==> i < |entries| && Takes(m, entries[i], total)
  }

  lemma {:induction false} InRange(entries: seq<Entry>, at: seq<nat>)
    requires forall i: nat :: i in at ==> i < |entries|
    ensures forall k :: 0 <= k < |at| ==> at[k] < |entries|
  {
    forall k | 0 <= k < |at| ensures at[k] < |entries| {
      assert at[k] in at;
    }
  }

  lemma {:induction false} TakesExact(e: Entry, m: int, total: int)
    ensures BelongsToMessage(e.msgIndex, m, total) <==> Takes(m, e, total)
  {
  }

  lemma {:induction false} OfMessageExact(entries: seq<Entry>, m: int, total: int) returns (at: seq<nat>)
    ensures TakenAt(entries, m, total, at)
    ensures (forall k :: 0 <= k < |at| ==> at[k] < |entries|) && OfMessage(entries, m, total) == Chosen(entries, at)
  {
    hide Takes, BelongsToMessage;
    if entries == [] {
      at := [];
    } else {
      var n := |entries| - 1;
      var before := OfMessageExact(entries[..n], m, total);
      at := before;
      TakesExact(entries[n], m, total);
      if Takes(m, entries[n], total) {
        IncreasingSnoc(before, n);
        at := before + [n];
      }
      InRange(entries, at);
    }
  }

  /** An Ethereum message shows the logs of exactly the events it takes, in event order. */
  lemma {:induction false} MessageLogsExact(r: Response, m: int, total: int, ctx: LogContext) returns (at: seq<nat>)
    ensures TakenAt(r.entries, m, total, at) && (forall k :: 0 <= k < |at| ==> at[k] < |r.entries|)
    ensures AllShown(MessageLogs(r, m, total, ctx), Chosen(r.entries, at), ctx.cosmosHash)
  {
    hide AllShown, TakenAt, OfMessage, LogsOf, Stamped;
    at := OfMessageExact(r.entries, m, total);
    LogsShown(Chosen(r.entries, at), None);
    StampedShown(LogsOf(Chosen(r.entries, at), None), Chosen(r.entries, at), None, ctx);
  }

  // ---------- which events become transactions ----------

  /** The event has logs, and no Ethereum message of the transaction takes it. */
  ghost predicate Outside(e: Entry, ctx: TxContext) {
    e.logs != [] && forall m :: m in ctx.ethereumMessages ==> !Takes(m, e, ctx.totalMessages)
  }

  lemma {:induction false} OutsideExact(e: Entry, ctx: TxContext)
    ensures Synthesized(e, ctx) <==> Outside(e, ctx)
  {
    var m := if e.msgIndex.Some? then e.msgIndex.value else 0;
    if e.msgIndex.Some? || ctx.totalMessages == 1 {
      assert Takes(m, e, ctx.totalMessages);
    }
  }

  /** The events outside Ethereum messages, with or without a hook, in event order. */
  ghost predicate FoundAt(entries: seq<Entry>, ctx: TxContext, hooks: bool, at: seq<nat>) {
    && Increasing(at)
    && forall i: nat :: i in at <==> i < |entries| && Outside(entries[i], ctx) && entries[i].hook.Some? == hooks
  }

  lemma {:induction false} BankExact(entries: seq<Entry>, ctx: TxContext) returns (at: seq<nat>)
    ensures FoundAt(entries, ctx, false, at)
    ensures (forall k :: 0 <= k < |at| ==> at[k] < |entries|) && BankEvents(entries, ctx) == Chosen(entries, at)
  {
    hide Outside, Synthesized;
    if entries == [] {
      at := [];
    } else {
      var n := |entries| - 1;
      var before := BankExact(entries[..n], ctx);
      at := before;
      OutsideExact(entries[n], ctx);
      if Outside(entries[n], ctx) && entries[n].hook.None? {
        IncreasingSnoc(before, n);
        at := before + [n];
      }
      InRange(entries, at);
    }
  }

  lemma {:induction false} HooksExact(entries: seq<Entry>, ctx: TxContext) returns (at: seq<nat>)
    ensures FoundAt(entries, ctx, true, at)
    ensures (forall k :: 0 <= k < |at| ==> at[k] < |entries|) && HookEvents(entries, ctx) == Chosen(entries, at)
  {
    hide Outside, Synthesized;
    if entries == [] {
      at := [];
    } else {
      var n := |entries| - 1;
      var before := HooksExact(entries[..n], ctx);
      at := before;
      OutsideExact(entries[n], ctx);
      if Outside(entries[n], ctx) && entries[n].hook.Some? {
        IncreasingSnoc(before, n);
        at := before + [n];
      }
      InRange(entries, at);
    }
  }

  // ---------- the order of hooks ----------

  /** By message, and within a message by event. */
  predicate Precedes(entries: seq<Entry>, i: nat, j: nat)
    requires i < |entries| && j < |entries|
  {
    MsgOf(entries[i]) < MsgOf(entries[j]) || (MsgOf(entries[i]) == MsgOf(entries[j]) && i < j)
  }

  ghost predicate InMessageOrder(entries: seq<Entry>, at: seq<nat>)
    requires forall k :: 0 <= k < |at| ==> at[k] < |entries|
  {
    forall j, k :: 0 <= j < k < |at| ==> Precedes(entries, at[j], at[k])
  }

  lemma {:induction false} OrderSnoc(entries: seq<Entry>, at: seq<nat>, n: nat)
    requires n < |entries| && (forall k :: 0 <= k < |at| ==> at[k] < |entries|) && InMessageOrder(entries, at)
    requires forall k :: 0 <= k < |at| ==> Precedes(entries, at[k], n)
    ensures InMessageOrder(entries, at + [n])
  {
    hide Precedes;
  }

  lemma {:induction false} InsertedAt(hooks: seq<Entry>, at: seq<nat>, n: nat) returns (next: seq<nat>)
    requires n < |hooks| && (forall k :: 0 <= k < |at| ==> at[k] < n) && InMessageOrder(hooks, at)
    ensures (forall k :: 0 <= k < |next| ==> next[k] < |hooks|) && InMessageOrder(hooks, next)
    ensures Chosen(hooks, next) == Insert(Chosen(hooks, at), hooks[n])
    ensures forall x :: x in next <==> x in at || x == n
  {
    hide Precedes, InMessageOrder, Insert;
    var end := |at| - 1;
    if at == [] || MsgOf(hooks[at[end]]) <= MsgOf(hooks[n]) {
      next := at + [n];
      LastOfItsMessage(hooks, at, n);
      OrderSnoc(hooks, at, n);
      InsertedLast(hooks, at, n);
    } else {
      var init, last := at[..end], at[end];
      OrderInit(hooks, at);
      var before := InsertedAt(hooks, init, n);
      next := before + [last];
      BeforeLast(hooks, at, before, n);
      OrderSnoc(hooks, before, last);
      InsertedBefore(hooks, at, before, n);
      assert at == init + [last];
    }
  }

  lemma {:induction false} OrderInit(hooks: seq<Entry>, at: seq<nat>)
    requires at != [] && (forall k :: 0 <= k < |at| ==> at[k] < |hooks|) && InMessageOrder(hooks, at)
    ensures InMessageOrder(hooks, at[..|at| - 1])
  {
  }

  lemma {:induction false} LastOfItsMessage(hooks: seq<Entry>, at: seq<nat>, n: nat)
    requires n < |hooks| && (forall k :: 0 <= k < |at| ==> at[k] < n) && InMessageOrder(hooks, at)
    requires at == [] || MsgOf(hooks[at[|at| - 1]]) <= MsgOf(hooks[n])
    ensures forall k :: 0 <= k < |at| ==> Precedes(hooks, at[k], n)
  {
    var end := |at| - 1;
    forall k | 0 <= k < |at| ensures Precedes(hooks, at[k], n) {
      assert k < end ==> Precedes(hooks, at[k], at[end]);
    }
  }

  lemma {:induction false} InsertedLast(hooks: seq<Entry>, at: seq<nat>, n: nat)
    requires n < |hooks| && forall k :: 0 <= k < |at| ==> at[k] < |hooks|
    requires at == [] || MsgOf(hooks[at[|at| - 1]]) <= MsgOf(hooks[n])
    ensures Chosen(hooks, at + [n]) == Insert(Chosen(hooks, at), hooks[n])
  {
    assert Chosen(hooks, at + [n]) == Chosen(hooks, at) + [hooks[n]];
  }

  /** Whatever precedes the last hook still does when a hook of an earlier message joins. */
  lemma {:induction false} BeforeLast(hooks: seq<Entry>, at: seq<nat>, before: seq<nat>, n: nat)
    requires n < |hooks| && at != [] && (forall k :: 0 <= k < |at| ==> at[k] < n) && InMessageOrder(hooks, at)
    requires MsgOf(hooks[at[|at| - 1]]) > MsgOf(hooks[n])
    requires (forall k :: 0 <= k < |before| ==> before[k] < |hooks|)
    requires forall x :: x in before <==> x in at[..|at| - 1] || x == n
    ensures forall j :: 0 <= j < |before| ==> Precedes(hooks, before[j], at[|at| - 1])
  {
    var end := |at| - 1;
    forall j | 0 <= j < |before| ensures Precedes(hooks, before[j], at[end]) {
      assert before[j] in before;
      if before[j] != n {
        var i :| 0 <= i < end && at[..end][i] == before[j];
        assert Precedes(hooks, at[i], at[end]);
      }
    }
  }

  lemma {:induction false} InsertedBefore(hooks: seq<Entry>, at: seq<nat>, before: seq<nat>, n: nat)
    requires n < |hooks| && at != [] && forall k :: 0 <= k < |at| ==> at[k] < |hooks|
    requires (forall k :: 0 <= k < |before| ==> before[k] < |hooks|) && MsgOf(hooks[at[|at| - 1]]) > MsgOf(hooks[n])
    requires Chosen(hooks, before) == Insert(Chosen(hooks, at[..|at| - 1]), hooks[n])
    ensures Chosen(hooks, before + [at[|at| - 1]]) == Insert(Chosen(hooks, at), hooks[n])
  {
    assert Chosen(hooks, at)[..|at| - 1] == Chosen(hooks, at[..|at| - 1]);
    assert Chosen(hooks, before + [at[|at| - 1]]) == Chosen(hooks, before) + [hooks[at[|at| - 1]]];
  }

  lemma {:induction false} SortedAt(hooks: seq<Entry>, n: nat) returns (at: seq<nat>)
    requires n <= |hooks|
    ensures (forall k :: 0 <= k < |at| ==> at[k] < n) && InMessageOrder(hooks, at)
    ensures Chosen(hooks, at) == SortHooks(hooks[..n])
    ensures forall x :: x in at <==> 0 <= x < n
  {
    hide Insert, InMessageOrder;
    if n == 0 {
      at := [];
      NoOrder(hooks);
    } else {
      var before := SortedAt(hooks, n - 1);
      at := InsertedAt(hooks, before, n - 1);
      assert hooks[..n][..n - 1] == hooks[..n - 1];
      forall k | 0 <= k < |at| ensures at[k] < n {
        assert at[k] in at;
      }
    }
  }

  lemma {:induction false} NoOrder(hooks: seq<Entry>)
    ensures InMessageOrder(hooks, [])
  {
  }

  /** The hook events outside Ethereum messages, in message order. */
  ghost predicate HooksAt(entries: seq<Entry>, ctx: TxContext, at: seq<nat>) {
    && (forall i: nat :: i in at <==> i < |entries| && Outside(entries[i], ctx) && entries[i].hook.Some?)
    && (forall k :: 0 <= k < |at| ==> at[k] < |entries|)
    && InMessageOrder(entries, at)
  }

  lemma {:induction false} Composed(entries: seq<Entry>, found: seq<nat>, order: seq<nat>) returns (at: seq<nat>)
    requires Increasing(found) && forall k :: 0 <= k < |found| ==> found[k] < |entries|
    requires (forall k :: 0 <= k < |order| ==> order[k] < |found|) && (forall x :: x in order <==> 0 <= x < |found|)
    requires InMessageOrder(Chosen(entries, found), order)
    ensures (forall k :: 0 <= k < |at| ==> at[k] < |entries|) && InMessageOrder(entries, at)
    ensures Chosen(entries, at) == Chosen(Chosen(entries, found), order)
    ensures forall x :: x in at <==> x in found
  {
    at := seq(|order|, k requires 0 <= k < |order| => found[order[k]]);
    forall x ensures x in at <==> x in found {
      if x in found {
        var i :| 0 <= i < |found| && found[i] == x;
        assert i in order;
        var k :| 0 <= k < |order| && order[k] == i;
        assert at[k] == x;
      }
    }
    var hooks := Chosen(entries, found);
    forall j, k | 0 <= j < k < |at| ensures Precedes(entries, at[j], at[k]) {
      assert Precedes(hooks, order[j], order[k]);
      assert hooks[order[j]] == entries[at[j]] && hooks[order[k]] == entries[at[k]];
    }
  }

  /** Sorting the hooks found puts them in message order. */
  lemma {:induction false} SortedExact(entries: seq<Entry>, ctx: TxContext) returns (at: seq<nat>)
    ensures HooksAt(entries, ctx, at) && SortHooks(HookEvents(entries, ctx)) == Chosen(entries, at)
  {
    hide InMessageOrder, SortHooks, Outside, HookEvents;
    var found := HooksExact(entries, ctx);
    var hooks := Chosen(entries, found);
    var order := SortedAt(hooks, |hooks|);
    assert hooks[..|hooks|] == hooks;
    at := Composed(entries, found, order);
  }

  // ---------- the transactions ----------

  /** What all synthetic transactions share, and who sent what where. */
  ghost predicate IsVirtual(
      tx: Tx, ctx: TxContext, from: Address, target: Address, gas: u64, input: Bytes, msgIndex: Option<u64>)
  {
    && tx.transaction.isVirtual && tx.transaction.cosmosHash == Some(ctx.cosmosHash)
    && tx.transaction.cosmosMsgIndex == msgIndex
    && tx.transaction.from == from && tx.transaction.to == Some(target)
    && tx.transaction.gas == gas && tx.transaction.input == input && tx.transaction.txType == 0
    && tx.receipt.from == from && tx.receipt.to == Some(target) && tx.receipt.txType == 0 && tx.receipt.contract == None
  }

  /** The envelope of the bank events: from nobody to the bank contract, successful exactly if the transaction was. */
  ghost predicate IsEnvelope(tx: Tx, r: Response, ctx: TxContext, events: seq<Entry>) {
    && IsVirtual(tx, ctx, ZERO_ADDRESS, BANK_CONTRACT, 0, [], None)
    && tx.receipt.status == (if r.code == 0 then 1 else 0)
    && AllShown(tx.receipt.logs, events, Some(ctx.cosmosHash))
  }

  /**
   A hook's own transaction: its caller, contract, input and gas, successful
   exactly if both it and the transaction were.
   */
  ghost predicate IsHookTx(tx: Tx, r: Response, ctx: TxContext, e: Entry) {
    && e.hook.Some?
    && var hook := e.hook.value;
       && IsVirtual(tx, ctx, ctx.chain.hookCaller, hook.contract, hook.gasUsed, hook.input,
                    if hook.msgIndex.Some? then Some(U64(hook.msgIndex.value)) else None)
       && tx.receipt.gasUsed == hook.gasUsed
       && tx.receipt.status == (if r.code == 0 && hook.success then 1 else 0)
       && AllShown(tx.receipt.logs, [e], Some(ctx.cosmosHash))
  }

  lemma {:induction false} SyntheticTxIs(
      r: Response, ctx: TxContext, events: seq<Entry>, hook: Option<HookCall>, hash: Hash, gas: u64)
    ensures var tx := SyntheticTx(r, ctx, events, hook, hash, gas);
            && tx.transaction.hash == hash
            && tx.receipt.gasUsed == (if hook.Some? then hook.value.gasUsed else gas)
            && tx.receipt.cumulativeGasUsed == U64(ctx.cumulativeGasUsedBefore + tx.receipt.gasUsed)
            && (hook.None? ==> IsEnvelope(tx, r, ctx, events))
            && (events != [] && events == [events[0]] && hook.Some? && events[0].hook == hook ==>
                  IsHookTx(tx, r, ctx, events[0]))
  {
    hide AllShown, LogsOf, Stamped, U64, Add64;
    var logCtx :=
        LogContext(ctx.blockHash, ctx.blockNumber, hash, ctx.txIndex, ctx.firstLogIndex, Some(ctx.cosmosHash));
    LogsShown(events, Some(ctx.cosmosHash));
    StampedShown(LogsOf(events, Some(ctx.cosmosHash)), events, Some(ctx.cosmosHash), logCtx);
    AddIsWrapped(ctx.cumulativeGasUsedBefore, if hook.Some? then hook.value.gasUsed else gas);
  }

  // ---------- names ----------

  /** The hooks among the first `n` that belong to the message of hook `k`. */
  ghost function OfSameMessage(hooks: seq<Entry>, n: nat, k: nat): set<nat>
    requires n <= |hooks| && k < |hooks|
  {
    set j: nat | j < n && MsgOf(hooks[j]) == MsgOf(hooks[k])
  }

  lemma {:induction false} CountedMsg(hooks: seq<Entry>, n: nat, k: nat)
    requires n <= |hooks| && k < |hooks|
    ensures CountMsg(hooks[..n], MsgOf(hooks[k])) == |OfSameMessage(hooks, n, k)|
  {
    if n == 0 {
      assert OfSameMessage(hooks, n, k) == {};
    } else {
      CountedMsg(hooks, n - 1, k);
      assert hooks[..n][..n - 1] == hooks[..n - 1];
      var before := OfSameMessage(hooks, n - 1, k);
      assert OfSameMessage(hooks, n, k) == if MsgOf(hooks[n - 1]) == MsgOf(hooks[k]) then before + {n - 1} else before;
    }
  }

  /** A lone hook is named by "@" and its message, one of several also by "#" and its place among them. */
  ghost predicate NamedHook(hash: Hash, ctx: TxContext, hooks: seq<Entry>, k: nat)
    requires k < |hooks|
  {
    && MsgOf(hooks[k]) >= 0
    && hash == ctx.chain.keccak(
         ctx.cosmosHash + [64] + Decimal(MsgOf(hooks[k])) +
         if |OfSameMessage(hooks, |hooks|, k)| > 1 then [35] + Decimal(|OfSameMessage(hooks, k, k)|) else [])
  }

  lemma {:induction false} HookNamed(ctx: TxContext, hooks: seq<Entry>, k: nat)
    requires k < |hooks| && MsgOf(hooks[k]) >= 0
    ensures NamedHook(ctx.chain.keccak(PreimageOf(ctx.cosmosHash, hooks, k)), ctx, hooks, k)
  {
    hide Decimal, OfSameMessage, CountMsg;
    CountedMsg(hooks, |hooks|, k);
    CountedMsg(hooks, k, k);
    assert hooks[..|hooks|] == hooks;
    var stem := ctx.cosmosHash + [64] + Decimal(MsgOf(hooks[k]));
    assert stem + [] == stem;
    var place := Decimal(Rank(hooks, k));
    assert stem + [35] + place == stem + ([35] + place);
  }

  // ---------- the whole list ----------

  function GasOf(txs: seq<Tx>): nat {
    if txs == [] then 0 else GasOf(txs[..|txs| - 1]) + txs[|txs| - 1].receipt.gasUsed
  }

  /** Every cumulative gas is the one before it plus the transaction's own. */
  ghost predicate RunningTotal(txs: seq<Tx>, start: int) {
    forall k :: 0 <= k < |txs| ==> Totals(txs, start, k)
  }

  ghost predicate Totals(txs: seq<Tx>, start: int, k: nat)
    requires k < |txs|
  {
    txs[k].receipt.cumulativeGasUsed ==
    U64((if k == 0 then start else txs[k - 1].receipt.cumulativeGasUsed) + txs[k].receipt.gasUsed)
  }

  /** The hook transactions: one per hook, in message order. */
  ghost predicate HooksListed(r: Response, ctx: TxContext, txs: seq<Tx>, hooks: seq<Entry>) {
    && |txs| == |hooks|
    && forall k :: 0 <= k < |txs| ==>
         IsHookTx(txs[k], r, ctx, hooks[k]) && NamedHook(txs[k].transaction.hash, ctx, hooks, k)
  }

  /**
   The synthetic transactions of a response: first the envelope of the bank
   events, if there are any, then every hook's own.
   */
  ghost predicate Listed(r: Response, ctx: TxContext, txs: seq<Tx>, bankAt: seq<nat>, hookAt: seq<nat>) {
    && FoundAt(r.entries, ctx, false, bankAt) && (forall k :: 0 <= k < |bankAt| ==> bankAt[k] < |r.entries|)
    && HooksAt(r.entries, ctx, hookAt)
    && var first := if bankAt == [] then 0 else 1;
       && |txs| >= first
       && HooksListed(r, ctx, txs[first..], Chosen(r.entries, hookAt))
       && (bankAt != [] ==>
             && IsEnvelope(txs[0], r, ctx, Chosen(r.entries, bankAt))
             && txs[0].transaction.hash == ctx.chain.keccak(ctx.cosmosHash)
             && txs[0].receipt.gasUsed == EnvelopeGas(r, ctx, txs))
       && RunningTotal(txs, ctx.cumulativeGasUsedBefore + if hookAt == [] then 0 else ctx.ethereumGasUsed)
  }

  /** Alone the envelope has all the gas of the response; before hooks what Ethereum messages and hooks leave of it. */
  ghost function EnvelopeGas(r: Response, ctx: TxContext, txs: seq<Tx>): int
    requires txs != []
  {
    if |txs| == 1 then r.gasUsed
    else
      var rest := r.gasUsed - ctx.ethereumGasUsed - GasOf(txs[1..]);
      if rest < 0 then 0 else rest
  }

  lemma {:induction false} HookTxIs(r: Response, ctx: TxContext, bank: seq<Entry>, hooks: seq<Entry>, k: nat)
    requires k < |hooks| && MsgOf(hooks[k]) >= 0 && hooks[k].hook.Some?
    ensures var tx := HookTx(r, ctx, bank, hooks, k);
            && IsHookTx(tx, r, ctx, hooks[k]) && NamedHook(tx.transaction.hash, ctx, hooks, k)
            && tx.receipt.gasUsed == HookGas(hooks[k])
            && tx.receipt.cumulativeGasUsed ==
               U64(HookContext(r, ctx, bank, hooks, k).cumulativeGasUsedBefore + tx.receipt.gasUsed)
  {
    hide SyntheticTx, NamedHook, PreimageOf, AllShown, U64;
    var cur := HookContext(r, ctx, bank, hooks, k);
    SyntheticTxIs(r, cur, [hooks[k]], hooks[k].hook, ctx.chain.keccak(PreimageOf(ctx.cosmosHash, hooks, k)),
                  HookGas(hooks[k]));
    HookNamed(ctx, hooks, k);
  }

  ghost predicate AllHooks(hooks: seq<Entry>) {
    forall i :: 0 <= i < |hooks| ==> hooks[i].hook.Some?
  }

  lemma {:induction false} HookTxsListed(r: Response, ctx: TxContext, bank: seq<Entry>, hooks: seq<Entry>)
    requires Indexed(hooks, ctx.totalMessages) && AllHooks(hooks)
    ensures HooksListed(r, ctx, HookTxs(r, ctx, bank, hooks, |hooks|), hooks)
  {
    hide HookTx, HookTxs, IsHookTx, NamedHook, HookContext;
    HookTxsAt(r, ctx, bank, hooks, |hooks|);
    forall k | 0 <= k < |hooks|
      ensures IsHookTx(HookTxs(r, ctx, bank, hooks, |hooks|)[k], r, ctx, hooks[k])
      ensures NamedHook(HookTxs(r, ctx, bank, hooks, |hooks|)[k].transaction.hash, ctx, hooks, k)
    {
      HookTxIs(r, ctx, bank, hooks, k);
    }
  }

  lemma {:induction false} HookGasSums(r: Response, ctx: TxContext, bank: seq<Entry>, hooks: seq<Entry>, n: nat)
    requires n <= |hooks| && Indexed(hooks, ctx.totalMessages) && AllHooks(hooks)
    ensures GasOf(HookTxs(r, ctx, bank, hooks, n)) == SumGas(hooks[..n])
  {
    hide HookTx, HookContext, IsHookTx, NamedHook;
    if n > 0 {
      HookGasSums(r, ctx, bank, hooks, n - 1);
      HookTxIs(r, ctx, bank, hooks, n - 1);
      assert hooks[..n][..n - 1] == hooks[..n - 1];
      var init := HookTxs(r, ctx, bank, hooks, n - 1);
      assert (init + [HookTx(r, ctx, bank, hooks, n - 1)])[..|init|] == init;
    }
  }

  /** Behind an envelope that ends where the first hook starts, the totals run on. */
  lemma {:induction false} HooksTotal(
      r: Response, ctx: TxContext, bank: seq<Entry>, hooks: seq<Entry>, txs: seq<Tx>, k: nat)
    requires Indexed(hooks, ctx.totalMessages) && AllHooks(hooks) && 0 < k < |hooks|
    requires txs == HookTxs(r, ctx, bank, hooks, |hooks|)
    ensures |txs| == |hooks| && txs[k].receipt.cumulativeGasUsed ==
            U64(txs[k - 1].receipt.cumulativeGasUsed + txs[k].receipt.gasUsed)
  {
    hide HookTx, HookTxs, HookContext, IsHookTx, NamedHook, U64;
    HookTxsAt(r, ctx, bank, hooks, |hooks|);
    HookTxIs(r, ctx, bank, hooks, k);
    NextHookContext(r, ctx, bank, hooks, k - 1);
  }

  lemma {:induction false} AllTotal(r: Response, ctx: TxContext, bank: seq<Entry>, hooks: seq<Entry>)
    requires Indexed(hooks, ctx.totalMessages) && AllHooks(hooks) && hooks != []
    ensures RunningTotal(BankPart(r, ctx, bank, hooks) + HookTxs(r, ctx, bank, hooks, |hooks|),
                         ctx.cumulativeGasUsedBefore + ctx.ethereumGasUsed)
  {
    hide HookTx, HookTxs, HookContext, IsHookTx, NamedHook, U64, SyntheticTx, BankPart, IsEnvelope;
    var front, rest := BankPart(r, ctx, bank, hooks), HookTxs(r, ctx, bank, hooks, |hooks|);
    var txs, start := front + rest, ctx.cumulativeGasUsedBefore + ctx.ethereumGasUsed;
    HookTxsAt(r, ctx, bank, hooks, |hooks|);
    HookTxIs(r, ctx, bank, hooks, 0);
    FrontTotal(r, ctx, bank, hooks, rest[0].receipt.gasUsed);
    forall k | 0 <= k < |txs| ensures Totals(txs, start, k) {
      if k > |front| {
        HooksTotal(r, ctx, bank, hooks, rest, k - |front|);
      }
    }
  }

  lemma {:induction false} FrontTotal(r: Response, ctx: TxContext, bank: seq<Entry>, hooks: seq<Entry>, gas: int)
    ensures var front, start := BankPart(r, ctx, bank, hooks), ctx.cumulativeGasUsedBefore + ctx.ethereumGasUsed;
            && |front| == (if bank == [] then 0 else 1)
            && (bank != [] ==>
                  && IsEnvelope(front[0], r, ctx, bank)
                  && front[0].transaction.hash == ctx.chain.keccak(ctx.cosmosHash)
                  && front[0].receipt.gasUsed == BankGas(r, ctx, hooks)
                  && front[0].receipt.cumulativeGasUsed == U64(start + front[0].receipt.gasUsed)
                  && HookContext(r, ctx, bank, hooks, 0).cumulativeGasUsedBefore == front[0].receipt.cumulativeGasUsed)
            && (bank == [] ==>
                  U64(HookContext(r, ctx, bank, hooks, 0).cumulativeGasUsedBefore + gas) == U64(start + gas))
  {
    hide SyntheticTx, HookContext, U64, AllShown, BankGas;
    FirstHookContext(r, ctx, bank, hooks);
    AddIsWrapped(ctx.cumulativeGasUsedBefore, ctx.ethereumGasUsed);
    var start := ctx.cumulativeGasUsedBefore + ctx.ethereumGasUsed;
    if bank == [] {
      Wrapped(start, gas);
    } else {
      var own := BankGas(r, ctx, hooks);
      SyntheticTxIs(r, BankContext(ctx), bank, None, ctx.chain.keccak(ctx.cosmosHash), own);
      Wrapped(start, own);
    }
  }

  lemma {:induction false} NoHooksListed(r: Response, ctx: TxContext, bankAt: seq<nat>, hookAt: seq<nat>)
    requires SyntheticTxsOf(r, ctx).Some? && HookEvents(r.entries, ctx) == []
    requires FoundAt(r.entries, ctx, false, bankAt) && (forall k :: 0 <= k < |bankAt| ==> bankAt[k] < |r.entries|)
    requires BankEvents(r.entries, ctx) == Chosen(r.entries, bankAt)
    requires HooksAt(r.entries, ctx, hookAt) && hookAt == []
    ensures Listed(r, ctx, SyntheticTxsOf(r, ctx).value, bankAt, hookAt)
  {
    hide FoundAt, HooksAt, SyntheticTx, IsEnvelope, BankEvents, HookEvents, U64;
    SyntheticTxIs(r, ctx, BankEvents(r.entries, ctx), None, ctx.chain.keccak(ctx.cosmosHash), r.gasUsed);
  }

  lemma {:induction false} HooksFoundListed(r: Response, ctx: TxContext, bankAt: seq<nat>, hookAt: seq<nat>)
    requires SyntheticTxsOf(r, ctx).Some? && HookEvents(r.entries, ctx) != []
    requires FoundAt(r.entries, ctx, false, bankAt) && (forall k :: 0 <= k < |bankAt| ==> bankAt[k] < |r.entries|)
    requires BankEvents(r.entries, ctx) == Chosen(r.entries, bankAt)
    requires HooksAt(r.entries, ctx, hookAt) && SortHooks(HookEvents(r.entries, ctx)) == Chosen(r.entries, hookAt)
    ensures Listed(r, ctx, SyntheticTxsOf(r, ctx).value, bankAt, hookAt)
  {
    hide FoundAt, HooksAt, SyntheticTx, IsEnvelope, BankEvents, HookEvents, U64, HookTxs, BankPart, SortHooks,
         HookContext, HooksListed, RunningTotal, EnvelopeGas, GasOf, SumGas;
    var found := HookEvents(r.entries, ctx);
    var bank, hooks := BankEvents(r.entries, ctx), SortHooks(found);
    SortKeepsIndexes(found, ctx.totalMessages);
    SortKeepsHooks(found);
    SortPermutes(found);
    HookTxsListed(r, ctx, bank, hooks);
    HookTxsAt(r, ctx, bank, hooks, |hooks|);
    FrontTotal(r, ctx, bank, hooks, 0);
    AllTotal(r, ctx, bank, hooks);
    HookGasSums(r, ctx, bank, hooks, |hooks|);
    assert hooks[..|hooks|] == hooks;
    var front, rest := BankPart(r, ctx, bank, hooks), HookTxs(r, ctx, bank, hooks, |hooks|);
    assert (front + rest)[|front|..] == rest;
    if bank != [] {
      EnvelopeGasIs(r, ctx, front, rest);
    }
  }

  lemma {:induction false} EnvelopeGasIs(r: Response, ctx: TxContext, front: seq<Tx>, rest: seq<Tx>)
    requires |front| == 1 && rest != []
    ensures EnvelopeGas(r, ctx, front + rest) == Max(0, r.gasUsed - ctx.ethereumGasUsed - GasOf(rest))
  {
    assert (front + rest)[1..] == rest;
  }

  /**
   The synthetic transactions of any response, field by field from its events:
   the envelope of the bank events outside Ethereum messages comes first, then
   one transaction for each hook outside them, by message and then by event.
   */
  lemma {:induction false} SyntheticTxsExact(r: Response, ctx: TxContext) returns (bankAt: seq<nat>, hookAt: seq<nat>)
    requires SyntheticTxsOf(r, ctx).Some?
    ensures Listed(r, ctx, SyntheticTxsOf(r, ctx).value, bankAt, hookAt)
  {
    hide Listed, SyntheticTxsOf, FoundAt, HooksAt, SortHooks, BankEvents, HookEvents;
    bankAt := BankExact(r.entries, ctx);
    hookAt := SortedExact(r.entries, ctx);
    SortPermutes(HookEvents(r.entries, ctx));
    if HookEvents(r.entries, ctx) == [] {
      NoHooksListed(r, ctx, bankAt, hookAt);
    } else {
      HooksFoundListed(r, ctx, bankAt, hookAt);
    }
  }
}
