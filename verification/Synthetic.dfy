/**
 Synthetic transactions: how the virtual events of one Cosmos transaction are
 attached to its Ethereum messages or turned into transactions of their own.
 */
module Synthetic {
  import opened Common
  import opened VirtualLogs

  /** What comes from outside: the hash function and the caller recorded for IBC hooks. */
  datatype Chain = Chain(keccak: Bytes -> Hash, hookCaller: Address)

  datatype HookCall = HookCall(
    contract: Address, input: Bytes, success: bool, gasUsed: u64, msgIndex: Option<int>)

  datatype Entry = Entry(logs: seq<EthLog>, msgIndex: Option<int>, hook: Option<HookCall>)

  datatype Response = Response(entries: seq<Entry>, code: nat, gasUsed: u64)

  /** One ABCI event, after the bank and IBC parsers have looked at it. */
  datatype Event = Untracked | Unparsable | Tracked(entry: Entry)

  datatype TxContext = TxContext(
    chain: Chain, cosmosHash: Hash, ethereumMessages: set<int>, ethereumGasUsed: u64,
    totalMessages: nat, blockHash: Hash, blockNumber: u64, txIndex: nat, firstLogIndex: nat,
    cumulativeGasUsedBefore: u64)

  const CODE_OK: nat := 0

  const BANK_CONTRACT: Address := [0, 0, 0, 0, 0, 0, 0, 0, 0, 0, 0, 0, 0, 0, 0, 0, 0, 0, 8, 0]

  // ---------- parsing ----------

  predicate Parsable(events: seq<Event>) {
    forall i :: 0 <= i < |events| ==> !events[i].Unparsable?
  }

  function Entries(events: seq<Event>): seq<Entry> {
    if events == [] then []
    else
      var rest := Entries(events[..|events| - 1]);
      match events[|events| - 1]
      case Tracked(e) => rest + [e]
      case _ => rest
  }

  function Parsed(events: seq<Event>, code: nat, gasUsed: int): Option<Response>
    requires gasUsed < TWO64
  {
    if Parsable(events) then Some(Response(Entries(events), code, Max(0, gasUsed))) else None
  }

  method ParseResponse(events: seq<Event>, code: nat, gasUsed: int) returns (r: Option<Response>)
    requires gasUsed < TWO64
    ensures r == Parsed(events, code, gasUsed)
  {
    var entries := [];
    for i := 0 to |events|
      invariant forall j :: 0 <= j < i ==> !events[j].Unparsable?
      invariant entries == Entries(events[..i])
    {
      assert events[..i + 1][..i] == events[..i];
      match events[i]
      case Unparsable => return None;
      case Untracked =>
      case Tracked(e) => entries := entries + [e];
    }
    assert events[..|events|] == events;
    var gas: u64 := 0;
    if gasUsed > 0 {
      gas := gasUsed;
    }
    r := Some(Response(entries, code, gas));
  }

  // ---------- who owns an event ----------

  predicate BelongsToMessage(msgIndex: Option<int>, wanted: int, total: int) {
    if msgIndex.Some? then msgIndex.value == wanted else total == 1 && wanted == 0
  }

  predicate BelongsToNonEthereumMessage(msgIndex: Option<int>, ethereum: set<int>, total: int) {
    if msgIndex.Some? then msgIndex.value !in ethereum else !(total == 1 && 0 in ethereum)
  }

  function HookMsgIndex(hook: HookCall): Option<u64> {
    if hook.msgIndex.Some? then Some(U64(hook.msgIndex.value)) else None
  }

  /** The logs of one event, marked virtual and, for hooks, with the message they came from. */
  function EventLogs(e: Entry, cosmosHash: Option<Hash>): seq<RpcLog> {
    if e.hook.Some? then MarkMessage(WrapLogs(e.logs, true, cosmosHash), HookMsgIndex(e.hook.value))
    else WrapLogs(e.logs, true, cosmosHash)
  }

  function WithMessage(log: RpcLog, msgIndex: Option<u64>): RpcLog {
    log.(cosmosMsgIndex := msgIndex)
  }

  function MarkMessage(logs: seq<RpcLog>, msgIndex: Option<u64>): seq<RpcLog> {
    seq(|logs|, i requires 0 <= i < |logs| => WithMessage(logs[i], msgIndex))
  }

  function LogsOf(events: seq<Entry>, cosmosHash: Option<Hash>): seq<RpcLog> {
    if events == [] then []
    else LogsOf(events[..|events| - 1], cosmosHash) + EventLogs(events[|events| - 1], cosmosHash)
  }

  // ---------- logs of a genuine Ethereum message ----------

  function OfMessage(entries: seq<Entry>, msgIndex: int, total: int): seq<Entry> {
    if entries == [] then []
    else
      var rest, e := OfMessage(entries[..|entries| - 1], msgIndex, total), entries[|entries| - 1];
      if BelongsToMessage(e.msgIndex, msgIndex, total) then rest + [e] else rest
  }

  function MessageLogs(r: Response, msgIndex: int, total: int, ctx: LogContext): seq<RpcLog> {
    Stamped(LogsOf(OfMessage(r.entries, msgIndex, total), None), ctx)
  }

  method LogsForMessage(r: Response, msgIndex: int, total: int, ctx: LogContext) returns (logs: seq<RpcLog>)
    ensures logs == MessageLogs(r, msgIndex, total, ctx)
  {
    logs := [];
    for i := 0 to |r.entries|
      invariant logs == LogsOf(OfMessage(r.entries[..i], msgIndex, total), None)
    {
      var event := r.entries[i];
      assert r.entries[..i + 1][..i] == r.entries[..i];
      if BelongsToMessage(event.msgIndex, msgIndex, total) {
        ghost var before := OfMessage(r.entries[..i], msgIndex, total);
        assert (before + [event])[..|before|] == before;
        logs := logs + EventLogs(event, None);
      }
    }
    assert r.entries[..|r.entries|] == r.entries;
    logs := NumberLogs(logs, ctx);
  }

  // ---------- selection, order and gas of the synthetic transactions ----------

  predicate Synthesized(e: Entry, ctx: TxContext) {
    e.logs != [] && BelongsToNonEthereumMessage(e.msgIndex, ctx.ethereumMessages, ctx.totalMessages)
  }

  function BankEvents(entries: seq<Entry>, ctx: TxContext): seq<Entry> {
    if entries == [] then []
    else
      var rest, e := BankEvents(entries[..|entries| - 1], ctx), entries[|entries| - 1];
      if Synthesized(e, ctx) && e.hook.None? then rest + [e] else rest
  }

  function HookEvents(entries: seq<Entry>, ctx: TxContext): (hooks: seq<Entry>)
    ensures forall i :: 0 <= i < |hooks| ==> hooks[i].hook.Some?
  {
    if entries == [] then []
    else
      var rest, e := HookEvents(entries[..|entries| - 1], ctx), entries[|entries| - 1];
      if Synthesized(e, ctx) && e.hook.Some? then rest + [e] else rest
  }

  predicate Indexed(hooks: seq<Entry>, total: nat) {
    forall i :: 0 <= i < |hooks| ==> hooks[i].msgIndex.Some? && 0 <= hooks[i].msgIndex.value < total
  }

  /** The message of a hook; -1 only where `Indexed` fails. */
  function MsgOf(e: Entry): int {
    if e.msgIndex.Some? then e.msgIndex.value else -1
  }

  /** Inserts behind every hook of the same or an earlier message. */
  function Insert(sorted: seq<Entry>, e: Entry): seq<Entry> {
    if sorted == [] || MsgOf(sorted[|sorted| - 1]) <= MsgOf(e) then sorted + [e]
    else Insert(sorted[..|sorted| - 1], e) + [sorted[|sorted| - 1]]
  }

  /** A stable sort by message. */
  function SortHooks(hooks: seq<Entry>): seq<Entry> {
    if hooks == [] then [] else Insert(SortHooks(hooks[..|hooks| - 1]), hooks[|hooks| - 1])
  }

  ghost predicate Sorted(hooks: seq<Entry>) {
    forall i, j :: 0 <= i < j < |hooks| ==> MsgOf(hooks[i]) <= MsgOf(hooks[j])
  }

  function CountMsg(hooks: seq<Entry>, m: int): nat {
    if hooks == [] then 0
    else CountMsg(hooks[..|hooks| - 1], m) + if MsgOf(hooks[|hooks| - 1]) == m then 1 else 0
  }

  /** Position of hook `i` among the hooks of its own message. */
  function Rank(hooks: seq<Entry>, i: nat): nat
    requires i < |hooks|
  {
    CountMsg(hooks[..i], MsgOf(hooks[i]))
  }

  function HookGas(e: Entry): u64 {
    if e.hook.Some? then e.hook.value.gasUsed else 0
  }

  function SumGas(hooks: seq<Entry>): nat {
    if hooks == [] then 0 else SumGas(hooks[..|hooks| - 1]) + HookGas(hooks[|hooks| - 1])
  }

  function SumLogs(events: seq<Entry>): nat {
    if events == [] then 0 else SumLogs(events[..|events| - 1]) + |events[|events| - 1].logs|
  }

  // ---------- one synthetic transaction ----------

  function SyntheticTx(
      r: Response, ctx: TxContext, events: seq<Entry>, hook: Option<HookCall>, hash: Hash, gas: u64): Tx
  {
    var logCtx :=
        LogContext(ctx.blockHash, ctx.blockNumber, hash, ctx.txIndex, ctx.firstLogIndex, Some(ctx.cosmosHash));
    var logs := Stamped(LogsOf(events, Some(ctx.cosmosHash)), logCtx);
    var from := if hook.Some? then ctx.chain.hookCaller else ZERO_ADDRESS;
    var to := if hook.Some? then hook.value.contract else BANK_CONTRACT;
    var input: Bytes := if hook.Some? then hook.value.input else [];
    var txGas: u64 := if hook.Some? then hook.value.gasUsed else 0;
    var receiptGas := if hook.Some? then hook.value.gasUsed else gas;
    var failed := r.code != CODE_OK || (hook.Some? && !hook.value.success);
    Tx(RpcTx(hash, ctx.blockHash, ctx.blockNumber, ctx.txIndex, from, Some(to), txGas, input, LEGACY_TX_TYPE,
             true, Some(ctx.cosmosHash), if hook.Some? then HookMsgIndex(hook.value) else None),
       Receipt(if failed then STATUS_FAILED else STATUS_SUCCESSFUL,
               Add64(ctx.cumulativeGasUsedBefore, receiptGas), receiptGas, logs, hash, None,
               ctx.blockHash, ctx.blockNumber, ctx.txIndex, from, Some(to), LEGACY_TX_TYPE))
  }

  method BuildSyntheticTx(r: Response, ctx: TxContext, events: seq<Entry>, hook: Option<HookCall>, hash: Hash, gas: u64)
    returns (tx: Tx)
    ensures tx == SyntheticTx(r, ctx, events, hook, hash, gas)
  {
    var cosmosHash := ctx.cosmosHash;
    var logs := [];
    for i := 0 to |events|
      invariant logs == LogsOf(events[..i], Some(cosmosHash))
    {
      assert events[..i + 1][..i] == events[..i];
      logs := logs + EventLogs(events[i], Some(cosmosHash));
    }
    assert events[..|events|] == events;
    logs := NumberLogs(logs,
                       LogContext(ctx.blockHash, ctx.blockNumber, hash, ctx.txIndex, ctx.firstLogIndex,
                                  Some(cosmosHash)));

    var from, to, input: Bytes, txGas: u64, receiptGas := ZERO_ADDRESS, BANK_CONTRACT, [], 0, gas;
    var msgIndex: Option<u64> := None;
    var status := STATUS_SUCCESSFUL;
    if r.code != CODE_OK {
      status := STATUS_FAILED;
    }
    if hook.Some? {
      from, to, input := ctx.chain.hookCaller, hook.value.contract, hook.value.input;
      txGas, receiptGas := hook.value.gasUsed, hook.value.gasUsed;
      msgIndex := HookMsgIndex(hook.value);
      if !hook.value.success {
        status := STATUS_FAILED;
      }
    }
    tx := Tx(
      RpcTx(hash, ctx.blockHash, ctx.blockNumber, ctx.txIndex, from, Some(to), txGas, input, LEGACY_TX_TYPE,
            true, Some(cosmosHash), msgIndex),
      Receipt(status, Add64(ctx.cumulativeGasUsedBefore, receiptGas), receiptGas, logs, hash, None,
              ctx.blockHash, ctx.blockNumber, ctx.txIndex, from, Some(to), LEGACY_TX_TYPE));
  }

  // ---------- identities ----------

  /** Decimal digits in ASCII, most significant first. */
  function Decimal(n: nat): Bytes {
    if n < 10 then [48 + n] else Decimal(n / 10) + [48 + n % 10]
  }

  const AT: byte := 64
  const NUMBER_SIGN: byte := 35

  function HookPreimage(cosmosHash: Hash, msgIndex: nat): Bytes {
    cosmosHash + [AT] + Decimal(msgIndex)
  }

  function NestedHookPreimage(cosmosHash: Hash, msgIndex: nat, position: nat): Bytes {
    cosmosHash + [AT] + Decimal(msgIndex) + [NUMBER_SIGN] + Decimal(position)
  }

  /** What is hashed to identify hook `i`: a lone hook by its message, several by message and position. */
  function PreimageOf(cosmosHash: Hash, hooks: seq<Entry>, i: nat): Bytes
    requires i < |hooks| && MsgOf(hooks[i]) >= 0
  {
    if CountMsg(hooks, MsgOf(hooks[i])) > 1
    then NestedHookPreimage(cosmosHash, MsgOf(hooks[i]), Rank(hooks, i))
    else HookPreimage(cosmosHash, MsgOf(hooks[i]))
  }

  // ---------- the whole list ----------

  function BankGas(r: Response, ctx: TxContext, hooks: seq<Entry>): u64 {
    Max(0, r.gasUsed - ctx.ethereumGasUsed - SumGas(hooks))
  }

  /** The context in which the bank envelope (if any) of a response with hooks is built. */
  function BankContext(ctx: TxContext): TxContext {
    ctx.(cumulativeGasUsedBefore := Add64(ctx.cumulativeGasUsedBefore, ctx.ethereumGasUsed))
  }

  function BankPart(r: Response, ctx: TxContext, bank: seq<Entry>, hooks: seq<Entry>): seq<Tx> {
    if bank == [] then []
    else [SyntheticTx(r, BankContext(ctx), bank, None, ctx.chain.keccak(ctx.cosmosHash), BankGas(r, ctx, hooks))]
  }

  /** The context of hook `i`: everything before it has been numbered and charged. */
  function HookContext(r: Response, ctx: TxContext, bank: seq<Entry>, hooks: seq<Entry>, i: nat): TxContext
    requires i <= |hooks|
  {
    var bankGas := if bank == [] then 0 else BankGas(r, ctx, hooks);
    ctx.(txIndex := ctx.txIndex + (if bank == [] then 0 else 1) + i,
         firstLogIndex := ctx.firstLogIndex + SumLogs(bank) + SumLogs(hooks[..i]),
         cumulativeGasUsedBefore :=
           U64(ctx.cumulativeGasUsedBefore + ctx.ethereumGasUsed + bankGas + SumGas(hooks[..i])))
  }

  function HookTx(r: Response, ctx: TxContext, bank: seq<Entry>, hooks: seq<Entry>, i: nat): Tx
    requires i < |hooks| && MsgOf(hooks[i]) >= 0
  {
    SyntheticTx(r, HookContext(r, ctx, bank, hooks, i), [hooks[i]], hooks[i].hook,
                ctx.chain.keccak(PreimageOf(ctx.cosmosHash, hooks, i)), HookGas(hooks[i]))
  }

  function HookTxs(r: Response, ctx: TxContext, bank: seq<Entry>, hooks: seq<Entry>, n: nat): seq<Tx>
    requires n <= |hooks| && Indexed(hooks, ctx.totalMessages)
  {
    if n == 0 then [] else HookTxs(r, ctx, bank, hooks, n - 1) + [HookTx(r, ctx, bank, hooks, n - 1)]
  }

  lemma {:induction false} HookTxsAt(r: Response, ctx: TxContext, bank: seq<Entry>, hooks: seq<Entry>, n: nat)
    requires n <= |hooks| && Indexed(hooks, ctx.totalMessages)
    ensures |HookTxs(r, ctx, bank, hooks, n)| == n
    ensures forall i :: 0 <= i < n ==> HookTxs(r, ctx, bank, hooks, n)[i] == HookTx(r, ctx, bank, hooks, i)
  {
    hide HookTx;
    if n > 0 {
      HookTxsAt(r, ctx, bank, hooks, n - 1);
    }
  }

  function SortedHookTxs(r: Response, ctx: TxContext, bank: seq<Entry>, found: seq<Entry>): seq<Tx>
    requires Indexed(found, ctx.totalMessages)
  {
    SortKeepsIndexes(found, ctx.totalMessages);
    HookTxs(r, ctx, bank, SortHooks(found), |SortHooks(found)|)
  }

  /** All synthetic transactions of a response, or nothing when a hook has no usable message index. */
  function SyntheticTxsOf(r: Response, ctx: TxContext): Option<seq<Tx>> {
    var bank, found := BankEvents(r.entries, ctx), HookEvents(r.entries, ctx);
    if found == [] then
      if bank == [] then Some([])
      else Some([SyntheticTx(r, ctx, bank, None, ctx.chain.keccak(ctx.cosmosHash), r.gasUsed)])
    else if !Indexed(found, ctx.totalMessages) then None
    else Some(BankPart(r, ctx, bank, SortHooks(found)) + SortedHookTxs(r, ctx, bank, found))
  }

  // ---------- facts about the sort ----------

  lemma {:induction false} InsertPermutes(sorted: seq<Entry>, e: Entry)
    ensures multiset(Insert(sorted, e)) == multiset(sorted) + multiset{e}
    ensures |Insert(sorted, e)| == |sorted| + 1
  {
    if sorted != [] && MsgOf(sorted[|sorted| - 1]) > MsgOf(e) {
      InsertPermutes(sorted[..|sorted| - 1], e);
      assert sorted == sorted[..|sorted| - 1] + [sorted[|sorted| - 1]];
    }
  }

  lemma {:induction false} SortPermutes(hooks: seq<Entry>)
    ensures multiset(SortHooks(hooks)) == multiset(hooks)
    ensures |SortHooks(hooks)| == |hooks|
  {
    hide Insert;
    if hooks != [] {
      SortPermutes(hooks[..|hooks| - 1]);
      InsertPermutes(SortHooks(hooks[..|hooks| - 1]), hooks[|hooks| - 1]);
      assert hooks == hooks[..|hooks| - 1] + [hooks[|hooks| - 1]];
    }
  }

  lemma {:induction false} SortKeepsIndexes(hooks: seq<Entry>, total: nat)
    requires Indexed(hooks, total)
    ensures Indexed(SortHooks(hooks), total)
  {
    SortPermutes(hooks);
    forall i | 0 <= i < |SortHooks(hooks)|
      ensures SortHooks(hooks)[i].msgIndex.Some? && 0 <= SortHooks(hooks)[i].msgIndex.value < total
    {
      assert SortHooks(hooks)[i] in multiset(hooks);
    }
  }

  lemma {:induction false} InsertSorted(sorted: seq<Entry>, e: Entry)
    requires Sorted(sorted)
    ensures Sorted(Insert(sorted, e))
  {
    if sorted != [] && MsgOf(sorted[|sorted| - 1]) > MsgOf(e) {
      var init, last := sorted[..|sorted| - 1], sorted[|sorted| - 1];
      InsertSorted(init, e);
      InsertPermutes(init, e);
      forall i | 0 <= i < |Insert(init, e)| ensures MsgOf(Insert(init, e)[i]) <= MsgOf(last) {
        assert Insert(init, e)[i] in multiset(init) + multiset{e};
      }
    }
  }

  lemma {:induction false} SortSorts(hooks: seq<Entry>)
    ensures Sorted(SortHooks(hooks))
  {
    if hooks != [] {
      SortSorts(hooks[..|hooks| - 1]);
      InsertSorted(SortHooks(hooks[..|hooks| - 1]), hooks[|hooks| - 1]);
    }
  }

  /** The hooks of one message, in the order given. */
  function Those(hooks: seq<Entry>, m: int): seq<Entry> {
    if hooks == [] then []
    else Those(hooks[..|hooks| - 1], m) + if MsgOf(hooks[|hooks| - 1]) == m then [hooks[|hooks| - 1]] else []
  }

  lemma {:induction false} ThoseSnoc(hooks: seq<Entry>, e: Entry, m: int)
    ensures Those(hooks + [e], m) == Those(hooks, m) + if MsgOf(e) == m then [e] else []
  {
    assert (hooks + [e])[..|hooks|] == hooks;
  }

  lemma {:induction false} InsertStable(sorted: seq<Entry>, e: Entry, m: int)
    requires Sorted(sorted)
    ensures Those(Insert(sorted, e), m) == Those(sorted, m) + if MsgOf(e) == m then [e] else []
  {
    if sorted != [] && MsgOf(sorted[|sorted| - 1]) > MsgOf(e) {
      var init, last := sorted[..|sorted| - 1], sorted[|sorted| - 1];
      InsertStable(init, e, m);
      ThoseSnoc(Insert(init, e), last, m);
    } else {
      ThoseSnoc(sorted, e, m);
    }
  }

  /** Hooks that share a message keep their event order. */
  lemma {:induction false} SortStable(hooks: seq<Entry>, m: int)
    ensures Those(SortHooks(hooks), m) == Those(hooks, m)
  {
    if hooks != [] {
      SortStable(hooks[..|hooks| - 1], m);
      SortSorts(hooks[..|hooks| - 1]);
      InsertStable(SortHooks(hooks[..|hooks| - 1]), hooks[|hooks| - 1], m);
    }
  }

  lemma {:induction false} CountIsThose(hooks: seq<Entry>, m: int)
    ensures CountMsg(hooks, m) == |Those(hooks, m)|
  {
    if hooks != [] {
      CountIsThose(hooks[..|hooks| - 1], m);
    }
  }

  lemma {:induction false} SortKeepsCounts(hooks: seq<Entry>, m: int)
    ensures CountMsg(SortHooks(hooks), m) == CountMsg(hooks, m)
  {
    CountIsThose(hooks, m);
    CountIsThose(SortHooks(hooks), m);
    SortStable(hooks, m);
  }

  lemma {:induction false} CountAbsent(hooks: seq<Entry>, m: int)
    requires forall i :: 0 <= i < |hooks| ==> MsgOf(hooks[i]) != m
    ensures CountMsg(hooks, m) == 0
  {
    if hooks != [] {
      CountAbsent(hooks[..|hooks| - 1], m);
    }
  }

  /** In message order, a running counter that restarts with each message is the rank. */
  lemma {:induction false} RankStep(hooks: seq<Entry>, i: nat)
    requires 0 < i < |hooks| && Sorted(hooks)
    ensures Rank(hooks, i) == if MsgOf(hooks[i - 1]) == MsgOf(hooks[i]) then Rank(hooks, i - 1) + 1 else 0
  {
    assert hooks[..i][..i - 1] == hooks[..i - 1];
    if MsgOf(hooks[i - 1]) != MsgOf(hooks[i]) {
      CountAbsent(hooks[..i], MsgOf(hooks[i]));
    }
  }

  lemma {:induction false} LogCount(events: seq<Entry>, cosmosHash: Option<Hash>)
    ensures |LogsOf(events, cosmosHash)| == SumLogs(events)
  {
    if events != [] {
      LogCount(events[..|events| - 1], cosmosHash);
    }
  }

  // ---------- the source's loops ----------

  method SelectEvents(r: Response, ctx: TxContext) returns (bank: seq<Entry>, hooks: seq<Entry>)
    ensures bank == BankEvents(r.entries, ctx) && hooks == HookEvents(r.entries, ctx)
  {
    bank, hooks := [], [];
    for i := 0 to |r.entries|
      invariant bank == BankEvents(r.entries[..i], ctx)
      invariant hooks == HookEvents(r.entries[..i], ctx)
    {
      var event := r.entries[i];
      assert r.entries[..i + 1][..i] == r.entries[..i];
      if event.logs == [] || !BelongsToNonEthereumMessage(event.msgIndex, ctx.ethereumMessages, ctx.totalMessages) {
        continue;
      }
      if event.hook.Some? {
        hooks := hooks + [event];
      } else {
        bank := bank + [event];
      }
    }
    assert r.entries[..|r.entries|] == r.entries;
  }

  /** Counts the hooks of each message; fails on a hook without a usable index. */
  method CountHooks(hooks: seq<Entry>, total: nat) returns (perMessage: Option<map<int, nat>>)
    ensures perMessage.Some? <==> Indexed(hooks, total)
    ensures perMessage.Some? ==>
      forall i :: 0 <= i < |hooks| ==>
        MsgOf(hooks[i]) in perMessage.value && perMessage.value[MsgOf(hooks[i])] == CountMsg(hooks, MsgOf(hooks[i]))
  {
    var counts: map<int, nat> := map[];
    for i := 0 to |hooks|
      invariant Indexed(hooks[..i], total)
      invariant forall m: int :: (if m in counts then counts[m] else 0) == CountMsg(hooks[..i], m)
      invariant forall j :: 0 <= j < i ==> MsgOf(hooks[j]) in counts
    {
      assert hooks[..i + 1][..i] == hooks[..i];
      var event := hooks[i];
      if event.msgIndex.None? || event.msgIndex.value < 0 || event.msgIndex.value >= total {
        return None;
      }
      var m := event.msgIndex.value;
      counts := counts[m := (if m in counts then counts[m] else 0) + 1];
    }
    assert hooks[..|hooks|] == hooks;
    perMessage := Some(counts);
  }

  /** What is left of the transaction's gas once Ethereum messages and hooks have taken theirs. */
  method RemainingGas(r: Response, ctx: TxContext, hooks: seq<Entry>) returns (bankGasUsed: u64)
    ensures bankGasUsed == BankGas(r, ctx, hooks)
  {
    bankGasUsed := r.gasUsed;
    bankGasUsed := if ctx.ethereumGasUsed >= bankGasUsed then 0 else bankGasUsed - ctx.ethereumGasUsed;
    for i := 0 to |hooks|
      invariant bankGasUsed == Max(0, r.gasUsed - ctx.ethereumGasUsed - SumGas(hooks[..i]))
    {
      assert hooks[..i + 1][..i] == hooks[..i];
      var gas := HookGas(hooks[i]);
      bankGasUsed := if gas >= bankGasUsed then 0 else bankGasUsed - gas;
    }
    assert hooks[..|hooks|] == hooks;
  }

  /** The context after one more transaction has been appended. */
  function Advance(ctx: TxContext, tx: Tx): TxContext {
    ctx.(txIndex := ctx.txIndex + 1,
         firstLogIndex := ctx.firstLogIndex + |tx.receipt.logs|,
         cumulativeGasUsedBefore := tx.receipt.cumulativeGasUsed)
  }

  /** What of a synthetic transaction the next context depends on. */
  lemma {:induction false} AdvanceBy(
      r: Response, cur: TxContext, events: seq<Entry>, hook: Option<HookCall>, hash: Hash, gas: u64, before: nat)
    requires cur.cumulativeGasUsedBefore == U64(before)
    ensures var spent := if hook.Some? then hook.value.gasUsed else gas;
            Advance(cur, SyntheticTx(r, cur, events, hook, hash, gas)) ==
            cur.(txIndex := cur.txIndex + 1, firstLogIndex := cur.firstLogIndex + SumLogs(events),
                 cumulativeGasUsedBefore := U64(before + spent))
  {
    var spent := if hook.Some? then hook.value.gasUsed else gas;
    LogCount(events, Some(cur.cosmosHash));
    Wrapped(before, spent);
    AddIsWrapped(U64(before), spent);
  }

  lemma {:induction false} FirstHookContext(r: Response, ctx: TxContext, bank: seq<Entry>, hooks: seq<Entry>)
    ensures HookContext(r, ctx, bank, hooks, 0) ==
            if bank == [] then BankContext(ctx)
            else Advance(BankContext(ctx), BankPart(r, ctx, bank, hooks)[0])
  {
    hide SyntheticTx, Advance, U64, Add64, BankGas;
    assert hooks[..0] == [];
    AddIsWrapped(ctx.cumulativeGasUsedBefore, ctx.ethereumGasUsed);
    if bank != [] {
      AdvanceBy(r, BankContext(ctx), bank, None, ctx.chain.keccak(ctx.cosmosHash), BankGas(r, ctx, hooks),
                ctx.cumulativeGasUsedBefore + ctx.ethereumGasUsed);
    }
  }

  lemma {:induction false} NextHookContext(r: Response, ctx: TxContext, bank: seq<Entry>, hooks: seq<Entry>, i: nat)
    requires i < |hooks| && MsgOf(hooks[i]) >= 0 && hooks[i].hook.Some?
    ensures HookContext(r, ctx, bank, hooks, i + 1) ==
            Advance(HookContext(r, ctx, bank, hooks, i), HookTx(r, ctx, bank, hooks, i))
  {
    hide SyntheticTx, Advance, U64, Add64, BankGas, PreimageOf;
    assert hooks[..i + 1][..i] == hooks[..i];
    assert SumLogs([hooks[i]]) == |hooks[i].logs|;
    var bankGas := if bank == [] then 0 else BankGas(r, ctx, hooks);
    AdvanceBy(r, HookContext(r, ctx, bank, hooks, i), [hooks[i]], hooks[i].hook,
              ctx.chain.keccak(PreimageOf(ctx.cosmosHash, hooks, i)), HookGas(hooks[i]),
              ctx.cumulativeGasUsedBefore + ctx.ethereumGasUsed + bankGas + SumGas(hooks[..i]));
  }

  /** Gives every hook, in message order, its own transaction behind the bank envelope. */
  method AppendHookTxs(
      r: Response, ctx: TxContext, bank: seq<Entry>, hooks: seq<Entry>, perMessage: map<int, nat>, envelope: seq<Tx>,
      start: TxContext)
    returns (txs: seq<Tx>)
    requires Sorted(hooks) && Indexed(hooks, ctx.totalMessages)
    requires forall i :: 0 <= i < |hooks| ==> hooks[i].hook.Some?
    requires forall i :: 0 <= i < |hooks| ==>
      MsgOf(hooks[i]) in perMessage && perMessage[MsgOf(hooks[i])] == CountMsg(hooks, MsgOf(hooks[i]))
    requires start == HookContext(r, ctx, bank, hooks, 0)
    ensures txs == envelope + HookTxs(r, ctx, bank, hooks, |hooks|)
  {
    hide SyntheticTx, HookContext, HookPreimage, NestedHookPreimage;
    txs := envelope;
    var cur := start;
    var ordinal := 0;
    for i := 0 to |hooks|
      invariant txs == envelope + HookTxs(r, ctx, bank, hooks, i)
      invariant cur == HookContext(r, ctx, bank, hooks, i)
      invariant ordinal == if i == 0 then 0 else Rank(hooks, i - 1) + 1
    {
      var event := hooks[i];
      var m := event.msgIndex.value;
      if i > 0 {
        RankStep(hooks, i);
        if hooks[i - 1].msgIndex.value != m {
          ordinal := 0;
        }
      }
      var preimage := HookPreimage(ctx.cosmosHash, m);
      if perMessage[m] > 1 {
        preimage := NestedHookPreimage(ctx.cosmosHash, m, ordinal);
      }
      ordinal := ordinal + 1;
      var tx := BuildSyntheticTx(r, cur, [event], event.hook, ctx.chain.keccak(preimage), event.hook.value.gasUsed);
      NextHookContext(r, ctx, bank, hooks, i);
      txs := txs + [tx];
      cur := Advance(cur, tx);
    }
  }

  lemma {:induction false} SortKeepsHooks(found: seq<Entry>)
    requires forall i :: 0 <= i < |found| ==> found[i].hook.Some?
    ensures forall i :: 0 <= i < |SortHooks(found)| ==> SortHooks(found)[i].hook.Some? && SortHooks(found)[i] in found
  {
    SortPermutes(found);
    forall i | 0 <= i < |SortHooks(found)| ensures SortHooks(found)[i].hook.Some? && SortHooks(found)[i] in found {
      assert SortHooks(found)[i] in multiset(found);
    }
  }

  method SyntheticTxs(r: Response, ctx: TxContext) returns (result: Option<seq<Tx>>)
    ensures result == SyntheticTxsOf(r, ctx)
  {
    var bank, found := SelectEvents(r, ctx);
    if found == [] {
      if bank == [] {
        return Some([]);
      }
      var only := BuildSyntheticTx(r, ctx, bank, None, ctx.chain.keccak(ctx.cosmosHash), r.gasUsed);
      return Some([only]);
    }
    var perMessage := CountHooks(found, ctx.totalMessages);
    if perMessage.None? {
      return None;
    }
    var hooks := SortHooks(found);
    SortSorts(found);
    SortKeepsIndexes(found, ctx.totalMessages);
    SortKeepsHooks(found);
    forall i | 0 <= i < |hooks|
      ensures MsgOf(hooks[i]) in perMessage.value &&
              perMessage.value[MsgOf(hooks[i])] == CountMsg(hooks, MsgOf(hooks[i]))
    {
      SortKeepsCounts(found, MsgOf(hooks[i]));
    }
    var bankGasUsed := RemainingGas(r, ctx, hooks);
    var cur := BankContext(ctx);
    var envelope := [];
    FirstHookContext(r, ctx, bank, hooks);
    if bank != [] {
      var tx := BuildSyntheticTx(r, cur, bank, None, ctx.chain.keccak(ctx.cosmosHash), bankGasUsed);
      envelope := [tx];
      cur := Advance(cur, tx);
    }
    var txs := AppendHookTxs(r, ctx, bank, hooks, perMessage.value, envelope, cur);
    result := Some(txs);
  }
}
