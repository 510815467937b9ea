/** No two synthetic transactions hash the same bytes. */
module SyntheticIdentity {
  import opened Common
  import opened ByteOrder
  import opened Synthetic

  ghost predicate Digits(s: Bytes) {
    forall i :: 0 <= i < |s| ==> 48 <= s[i] < 58
  }

  lemma {:induction false} DecimalDigits(n: nat)
    ensures Digits(Decimal(n)) && Decimal(n) != []
  {
    if n >= 10 {
      DecimalDigits(n / 10);
    }
  }

  lemma {:induction false} DecimalInjective(m: nat, n: nat)
    requires Decimal(m) == Decimal(n)
    ensures m == n
  {
    DecimalDigits(m / 10);
    DecimalDigits(n / 10);
    var last := |Decimal(m)| - 1;
    assert Decimal(m)[last] == Decimal(n)[last];
    if m >= 10 && n >= 10 {
      assert Decimal(m)[..last] == Decimal(m / 10) && Decimal(n)[..last] == Decimal(n / 10);
      DecimalInjective(m / 10, n / 10);
    }
  }

  /** Digits end at the first byte that is not one. */
  lemma {:induction false} DigitsFramed(a: Bytes, x: Bytes, b: Bytes, y: Bytes)
    requires Digits(a) && Digits(b) && a + x == b + y
    requires x == [] || x[0] == NUMBER_SIGN
    requires y == [] || y[0] == NUMBER_SIGN
    ensures a == b && x == y
  {
    var whole := a + x;
    assert forall i :: 0 <= i < |a| ==> whole[i] == a[i];
    assert forall i :: 0 <= i < |b| ==> whole[i] == b[i];
    assert x != [] ==> whole[|a|] == x[0];
    assert y != [] ==> whole[|b|] == y[0];
    assert |a| == |b|;
    assert a == (a + x)[..|a|] == (b + y)[..|a|] == b;
    assert x == (a + x)[|a|..] == (b + y)[|a|..] == y;
  }

  /** The part of a hook preimage behind the "@". */
  function Tail(msgIndex: nat, position: Option<nat>): Bytes {
    Decimal(msgIndex) + if position.Some? then [NUMBER_SIGN] + Decimal(position.value) else []
  }

  lemma {:induction false} TailInjective(m: nat, p: Option<nat>, n: nat, q: Option<nat>)
    requires Tail(m, p) == Tail(n, q)
    ensures m == n && p == q
  {
    DecimalDigits(m);
    DecimalDigits(n);
    var x: Bytes := if p.Some? then [NUMBER_SIGN] + Decimal(p.value) else [];
    var y: Bytes := if q.Some? then [NUMBER_SIGN] + Decimal(q.value) else [];
    DigitsFramed(Decimal(m), x, Decimal(n), y);
    DecimalInjective(m, n);
    if p.Some? && q.Some? {
      assert x[1..] == Decimal(p.value) && y[1..] == Decimal(q.value);
      DecimalInjective(p.value, q.value);
    }
  }

  function PositionOf(hooks: seq<Entry>, i: nat): Option<nat>
    requires i < |hooks|
  {
    if CountMsg(hooks, MsgOf(hooks[i])) > 1 then Some(Rank(hooks, i)) else None
  }

  lemma {:induction false} PreimageShape(cosmosHash: Hash, hooks: seq<Entry>, i: nat)
    requires i < |hooks| && MsgOf(hooks[i]) >= 0
    ensures PreimageOf(cosmosHash, hooks, i) == cosmosHash + [AT] + Tail(MsgOf(hooks[i]), PositionOf(hooks, i))
  {
  }

  lemma {:induction false} CountGrows(hooks: seq<Entry>, i: nat, j: nat, m: int)
    requires i <= j <= |hooks|
    ensures CountMsg(hooks[..i], m) <= CountMsg(hooks[..j], m)
    decreases j
  {
    if i < j {
      CountGrows(hooks, i, j - 1, m);
      assert hooks[..j][..j - 1] == hooks[..j - 1];
    }
  }

  lemma {:induction false} HookPreimagesDistinct(cosmosHash: Hash, hooks: seq<Entry>, i: nat, j: nat)
    requires i < j < |hooks| && MsgOf(hooks[i]) >= 0 && MsgOf(hooks[j]) >= 0
    ensures PreimageOf(cosmosHash, hooks, i) != PreimageOf(cosmosHash, hooks, j)
  {
    PreimageShape(cosmosHash, hooks, i);
    PreimageShape(cosmosHash, hooks, j);
    var m := MsgOf(hooks[i]);
    if m == MsgOf(hooks[j]) {
      assert hooks[..i + 1][..i] == hooks[..i] && hooks[..j + 1][..j] == hooks[..j] && hooks[..|hooks|] == hooks;
      CountGrows(hooks, i + 1, j, m);
      CountGrows(hooks, j + 1, |hooks|, m);
      assert Rank(hooks, i) < Rank(hooks, j);
    }
    if PreimageOf(cosmosHash, hooks, i) == PreimageOf(cosmosHash, hooks, j) {
      var ti, tj := Tail(m, PositionOf(hooks, i)), Tail(MsgOf(hooks[j]), PositionOf(hooks, j));
      assert (cosmosHash + [AT] + ti)[33..] == ti && (cosmosHash + [AT] + tj)[33..] == tj;
      TailInjective(m, PositionOf(hooks, i), MsgOf(hooks[j]), PositionOf(hooks, j));
    }
  }

  /** Every hook that needs a transaction of its own names a message of the transaction. */
  predicate Synthesizable(r: Response, ctx: TxContext) {
    Indexed(HookEvents(r.entries, ctx), ctx.totalMessages)
  }

  /** What the envelope (if any) and the hooks are named after, in order. */
  function Names(cosmosHash: Hash, envelope: bool, hooks: seq<Entry>, total: nat): seq<Bytes>
    requires Indexed(hooks, total)
  {
    (if envelope then [cosmosHash] else []) +
    seq(|hooks|, i requires 0 <= i < |hooks| => PreimageOf(cosmosHash, hooks, i))
  }

  lemma {:induction false} HookPreimageLong(cosmosHash: Hash, hooks: seq<Entry>, i: nat)
    requires i < |hooks| && MsgOf(hooks[i]) >= 0
    ensures cosmosHash < PreimageOf(cosmosHash, hooks, i)
  {
    PreimageShape(cosmosHash, hooks, i);
  }

  lemma {:induction false} NamesDistinct(
      cosmosHash: Hash, envelope: bool, hooks: seq<Entry>, total: nat, a: nat, b: nat)
    requires Indexed(hooks, total) && a < b < |Names(cosmosHash, envelope, hooks, total)|
    ensures Names(cosmosHash, envelope, hooks, total)[a] != Names(cosmosHash, envelope, hooks, total)[b]
  {
    hide PreimageOf;
    if !envelope {
      HookPreimagesDistinct(cosmosHash, hooks, a, b);
    } else if a == 0 {
      HookPreimageLong(cosmosHash, hooks, b - 1);
    } else {
      HookPreimagesDistinct(cosmosHash, hooks, a - 1, b - 1);
    }
  }

  /** What each synthetic transaction of a response is named after, in order. */
  function Preimages(r: Response, ctx: TxContext): seq<Bytes>
    requires Synthesizable(r, ctx)
  {
    SortKeepsIndexes(HookEvents(r.entries, ctx), ctx.totalMessages);
    Names(ctx.cosmosHash, BankEvents(r.entries, ctx) != [], SortHooks(HookEvents(r.entries, ctx)), ctx.totalMessages)
  }

  lemma {:induction false} TxHashes(
      r: Response, ctx: TxContext, events: seq<Entry>, hook: Option<HookCall>, hash: Hash, gas: u64)
    ensures SyntheticTx(r, ctx, events, hook, hash, gas).transaction.hash == hash
    ensures SyntheticTx(r, ctx, events, hook, hash, gas).receipt.txHash == hash
  {
  }

  lemma {:induction false} HookTxNamed(r: Response, ctx: TxContext, bank: seq<Entry>, hooks: seq<Entry>, i: nat)
    requires i < |hooks| && MsgOf(hooks[i]) >= 0
    ensures HookTx(r, ctx, bank, hooks, i).transaction.hash == ctx.chain.keccak(PreimageOf(ctx.cosmosHash, hooks, i))
    ensures HookTx(r, ctx, bank, hooks, i).receipt.txHash == ctx.chain.keccak(PreimageOf(ctx.cosmosHash, hooks, i))
  {
    TxHashes(r, HookContext(r, ctx, bank, hooks, i), [hooks[i]], hooks[i].hook,
             ctx.chain.keccak(PreimageOf(ctx.cosmosHash, hooks, i)), HookGas(hooks[i]));
  }

  /** Transaction k is named by the hash of preimage k, in its record and in its receipt. */
  lemma {:induction false} SyntheticTxNamed(r: Response, ctx: TxContext, k: nat)
    requires SyntheticTxsOf(r, ctx).Some? && k < |SyntheticTxsOf(r, ctx).value|
    ensures Synthesizable(r, ctx) && |Preimages(r, ctx)| == |SyntheticTxsOf(r, ctx).value|
    ensures SyntheticTxsOf(r, ctx).value[k].transaction.hash == ctx.chain.keccak(Preimages(r, ctx)[k])
    ensures SyntheticTxsOf(r, ctx).value[k].receipt.txHash == ctx.chain.keccak(Preimages(r, ctx)[k])
  {
    hide HookTx, SyntheticTx, SortHooks, PreimageOf, BankEvents, HookEvents;
    var bank, found := BankEvents(r.entries, ctx), HookEvents(r.entries, ctx);
    var hooks, name := SortHooks(found), ctx.chain.keccak(ctx.cosmosHash);
    SortPermutes(found);
    if found == [] {
      TxHashes(r, ctx, bank, None, name, r.gasUsed);
    } else {
      SortKeepsIndexes(found, ctx.totalMessages);
      HookTxsAt(r, ctx, bank, hooks, |hooks|);
      if bank == [] {
        HookTxNamed(r, ctx, bank, hooks, k);
      } else if k == 0 {
        TxHashes(r, BankContext(ctx), bank, None, name, BankGas(r, ctx, hooks));
      } else {
        HookTxNamed(r, ctx, bank, hooks, k - 1);
      }
    }
  }

  /** The preimages of all synthetic transactions of one Cosmos transaction are pairwise distinct. */
  lemma {:induction false} SyntheticPreimagesDistinct(r: Response, ctx: TxContext, a: nat, b: nat)
    requires Synthesizable(r, ctx) && a < b < |Preimages(r, ctx)|
    ensures Preimages(r, ctx)[a] != Preimages(r, ctx)[b]
  {
    SortKeepsIndexes(HookEvents(r.entries, ctx), ctx.totalMessages);
    NamesDistinct(ctx.cosmosHash, BankEvents(r.entries, ctx) != [], SortHooks(HookEvents(r.entries, ctx)),
                  ctx.totalMessages, a, b);
  }

  lemma {:induction false} PreimageStart(r: Response, ctx: TxContext, k: nat)
    requires Synthesizable(r, ctx) && k < |Preimages(r, ctx)|
    ensures ctx.cosmosHash <= Preimages(r, ctx)[k]
  {
    var shift := if BankEvents(r.entries, ctx) == [] then 0 else 1;
    if k >= shift {
      SortKeepsIndexes(HookEvents(r.entries, ctx), ctx.totalMessages);
      HookPreimageLong(ctx.cosmosHash, SortHooks(HookEvents(r.entries, ctx)), k - shift);
    }
  }

  /** "begin_block" and "end_block", each followed by the height. */
  function BeginPreimage(height: u64): Bytes {
    [98, 101, 103, 105, 110, 95, 98, 108, 111, 99, 107] + Word(height)
  }

  function EndPreimage(height: u64): Bytes {
    [101, 110, 100, 95, 98, 108, 111, 99, 107] + Word(height)
  }

  /** Nor do they clash with another transaction's or with the block's own begin and end transactions. */
  lemma {:induction false} BlockPreimagesDistinct(
      r: Response, ctx: TxContext, k: nat, r': Response, ctx': TxContext, k': nat, height: u64)
    requires Synthesizable(r, ctx) && k < |Preimages(r, ctx)|
    requires Synthesizable(r', ctx') && k' < |Preimages(r', ctx')|
    requires ctx.cosmosHash != ctx'.cosmosHash
    ensures Preimages(r, ctx)[k] != Preimages(r', ctx')[k']
    ensures Preimages(r, ctx)[k] != BeginPreimage(height) && Preimages(r, ctx)[k] != EndPreimage(height)
    ensures BeginPreimage(height) != EndPreimage(height)
  {
    PreimageStart(r, ctx, k);
    PreimageStart(r', ctx', k');
    assert |BeginPreimage(height)| == 19 && |EndPreimage(height)| == 17;
  }
}
