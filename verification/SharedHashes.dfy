/**
 Hashes that recur. A transaction may be included again at another height: what
 is filed under its hash then belongs to whichever height touched it last, and
 the block that lost it cannot be read back in full.
 */
module SharedHashes {
  import opened Common
  import opened BlockModel
  import opened Keys
  import opened KeyOwnership
  import opened IndexFold
  import opened Numbering
  import opened IndexRefinement
  import opened FiledForms
  import opened IndexRuns
  import opened CacheReader

  // ---------- the whole store, key by key ----------

  ghost function KeyAfterDelete(blocks: Blocks, h: Height, k: Bytes, before: Option<Value>): Option<Value> {
    if Dropped(blocks, h, k) then None else before
  }

  ghost function KeyAfterIndex(
      blocks: Blocks, h: Height, b: StoredBlock, k: Bytes, before: Option<Value>): Option<Value>
  {
    if k in KeysOf(BlockOps(h, b)) then LastWrite(BlockOps(h, b), k) else KeyAfterDelete(blocks, h, k, before)
  }

  /** What one action leaves under one key, given the blocks present and what was there. */
  ghost function KeyStep(blocks: Blocks, a: Action, k: Bytes, before: Option<Value>): Option<Value> {
    match a
    case DeleteAt(h) => KeyAfterDelete(blocks, h, k, before)
    case PutTrace(t, raw) => if k == t then Some(TraceValue(raw)) else before
    case Index(cfg, block, results) =>
      (match IndexedBlock(cfg, block, results)
       case Ok(b) => KeyAfterIndex(blocks, block.height, b, k, before)
       case Err(_) => before)
    case Sync(cfg, block, results) =>
      (match IndexedBlock(cfg, block, results)
       case Ok(b) => KeyAfterIndex(blocks, block.height, b, k, before)
       case Err(_) => KeyAfterDelete(blocks, block.height, k, before))
  }

  ghost function KeyRun(blocks: Blocks, run: seq<Action>, k: Bytes, before: Option<Value>): Option<Value> {
    if run == [] then before
    else
      var init := run[..|run| - 1];
      KeyStep(RunBlocks(blocks, init), run[|run| - 1], k, KeyRun(blocks, init, k, before))
  }

  lemma {:induction false} StepExact(store: Store, blocks: Blocks, a: Action, k: Bytes)
    requires Located(store, blocks)
    ensures Lookup(StepStore(store, a), k) == KeyStep(blocks, a, k, Lookup(store, k))
  {
    hide Located, IndexedBlock, Deleted, Reindexed, Dropped, KeysOf, BlockOps, LastWrite;
    match a
    case DeleteAt(h) => DeletedLookup(store, blocks, h, k);
    case PutTrace(_, _) =>
    case Index(cfg, block, results) =>
      if IndexedBlock(cfg, block, results).Ok? {
        ReindexExact(store, blocks, block.height, IndexedBlock(cfg, block, results).value, k);
      }
    case Sync(cfg, block, results) =>
      if IndexedBlock(cfg, block, results).Ok? {
        ReindexExact(store, blocks, block.height, IndexedBlock(cfg, block, results).value, k);
      } else {
        DeletedLookup(store, blocks, block.height, k);
      }
  }

  /** After any run, whatever hashes recur, every key holds what the last action that touched it left there. */
  lemma {:induction false} RunExact(store: Store, blocks: Blocks, run: seq<Action>, k: Bytes)
    requires Located(store, blocks) && Attributed(store, blocks) && SizedRun(run)
    ensures Lookup(RunStore(store, run), k) == KeyRun(blocks, run, k, Lookup(store, k))
  {
    hide Located, Attributed, Sized, StepStore, StepBlocks, KeyStep;
    if run != [] {
      var init := run[..|run| - 1];
      RunExact(store, blocks, init, k);
      RunRefines(store, blocks, init);
      StepExact(RunStore(store, init), RunBlocks(blocks, init), run[|run| - 1], k);
    }
  }

  // ---------- who holds a transaction ----------

  /** The block an action stores, if it stores one. */
  function Stores(a: Action): Option<StoredBlock> {
    if !(a.Index? || a.Sync?) then None
    else
      match IndexedBlock(a.cfg, a.block, a.results)
      case Ok(b) => Some(b)
      case Err(_) => None
  }

  /** The height whose block an action replaces or removes. */
  function Resets(a: Action): Option<Height> {
    match a
    case DeleteAt(h) => Some(h)
    case PutTrace(_, _) => None
    case Index(_, block, _) => if Stores(a).Some? then Some(block.height) else None
    case Sync(_, block, _) => Some(block.height)
  }

  /** Resetting a block drops what is filed under the hash; a record only if the block has it as Ethereum. */
  ghost predicate Clears(b: StoredBlock, family: byte, x: Hash) {
    exists i :: 0 <= i < |b.items| && b.items[i].tx.transaction.hash == x &&
                (family == TX_HASH ==> b.items[i].record.Some?)
  }

  /** An action touches what is filed under a hash if the block it resets clears it or the one it stores files it. */
  ghost predicate Touches(blocks: Blocks, a: Action, family: byte, x: Hash) {
    || (Resets(a).Some? && Resets(a).value in blocks && Clears(blocks[Resets(a).value], family, x))
    || (Stores(a).Some? && Files(Stores(a).value, family, x))
  }

  ghost predicate Untouched(blocks: Blocks, run: seq<Action>, family: byte, x: Hash) {
    run == [] ||
    (Untouched(blocks, run[..|run| - 1], family, x) &&
     !Touches(RunBlocks(blocks, run[..|run| - 1]), run[|run| - 1], family, x))
  }

  /** No action of the run replaces or removes the block at a height. */
  predicate LeavesAlone(run: seq<Action>, h: Height) {
    forall i :: 0 <= i < |run| ==> Resets(run[i]) != Some(h)
  }

  /** What is filed under the hash says that it is of height `h`. */
  predicate HeldBy(v: Option<Value>, h: Height) {
    v.Some? && Names(v.value, h)
  }

  lemma {:induction false} FormDropped(blocks: Blocks, h: Height, family: byte, x: Hash)
    requires HashFamily(family)
    ensures Dropped(blocks, h, HashKey(family, x)) <==> h in blocks && Clears(blocks[h], family, x)
  {
    HashKeyShape(family, x);
  }

  /** A block that files something under the hash leaves the form of its own transaction there. */
  lemma {:induction false} FormIsOwn(h: Height, b: StoredBlock, family: byte, x: Hash) returns (i: nat)
    requires HashFamily(family) && Files(b, family, x)
    ensures i < |b.items| && b.items[i].tx.transaction.hash == x && Form(b.items[i], family).Some?
    ensures LastWrite(BlockOps(h, b), HashKey(family, x)) == Form(b.items[i], family)
  {
    hide BlockOps, HashKey, LastWrite, Form;
    FilesExactly(h, b, family, x);
    BlockOpsSet(h, b);
    LastWriteInBatch(BlockOps(h, b), HashKey(family, x));
    i := WrittenForm(h, b, family, x, LastWrite(BlockOps(h, b), HashKey(family, x)).value);
  }

  /** Records, receipts and RPC forms name the block's height. */
  lemma {:induction false} FormNamesOwner(h: Height, b: StoredBlock, i: nat, family: byte, other: Height)
    requires WellPlaced(h, b) && i < |b.items| && Form(b.items[i], family).Some? && family != VIRTUAL_RPC_TX
    ensures HeldBy(Form(b.items[i], family), other) <==> other == h
  {
    assert ItemWell(h, b, i);
  }

  lemma {:induction false} HasHash(b: StoredBlock, x: Hash)
    ensures x in TxHashes(b) <==> Files(b, RPC_TX_HASH, x)
  {
    if x in TxHashes(b) {
      var i :| 0 <= i < |b.items| && b.items[i].tx.transaction.hash == x;
      assert Form(b.items[i], RPC_TX_HASH).Some?;
    }
  }

  lemma {:induction false} StoresPlaced(a: Action)
    requires Sized(a) && Stores(a).Some?
    ensures Resets(a).Some? && WellPlaced(Resets(a).value, Stores(a).value)
  {
    hide IndexedBlock, WellPlaced;
    AcceptedIsNumbered(a.cfg, a.block, a.results);
  }

  /** In terms of touching: what an action leaves under a transaction's hash. */
  lemma {:induction false} FormStep(blocks: Blocks, a: Action, family: byte, x: Hash, before: Option<Value>)
    requires Sized(a) && HashFamily(family)
    ensures KeyStep(blocks, a, HashKey(family, x), before) ==
            if Stores(a).Some? && Files(Stores(a).value, family, x)
            then LastWrite(BlockOps(Resets(a).value, Stores(a).value), HashKey(family, x))
            else if Touches(blocks, a, family, x) then None else before
  {
    hide IndexedBlock, Dropped, KeysOf, BlockOps, LastWrite, HashKey, Files, Clears, IsTraceKey;
    if Resets(a).Some? {
      FormDropped(blocks, Resets(a).value, family, x);
    }
    if Stores(a).Some? {
      FilesExactly(Resets(a).value, Stores(a).value, family, x);
    }
    HashKeyFamily(family, x);
  }

  /** What an action elsewhere makes of a transaction's key: nothing, or it is no longer held by `h`. */
  lemma {:induction false} ElsewhereStep(
      blocks: Blocks, a: Action, h: Height, family: byte, x: Hash, before: Option<Value>)
    requires Sized(a) && Resets(a) != Some(h) && HashFamily(family) && family != VIRTUAL_RPC_TX
    ensures var v := KeyStep(blocks, a, HashKey(family, x), before);
            if Touches(blocks, a, family, x) then !HeldBy(v, h) else v == before
  {
    hide Sized, KeyStep, HashKey, BlockOps, LastWrite, Files, Clears, WellPlaced, Stores, Resets, Names;
    FormStep(blocks, a, family, x, before);
    if Stores(a).Some? && Files(Stores(a).value, family, x) {
      StoresPlaced(a);
      var i := FormIsOwn(Resets(a).value, Stores(a).value, family, x);
      FormNamesOwner(Resets(a).value, Stores(a).value, i, family, h);
    }
  }

  /** A transaction of `h` stays filed as it is exactly as long as no other height touches its hash. */
  lemma {:induction false} ElsewhereRun(
      blocks: Blocks, run: seq<Action>, h: Height, family: byte, x: Hash, before: Option<Value>)
    requires SizedRun(run) && LeavesAlone(run, h) && HashFamily(family) && family != VIRTUAL_RPC_TX
    ensures var v := KeyRun(blocks, run, HashKey(family, x), before);
            if Untouched(blocks, run, family, x) then v == before else !HeldBy(v, h)
  {
    hide Sized, KeyStep, HashKey, Touches, Resets, StepBlocks, HeldBy;
    if run != [] {
      var init, last := run[..|run| - 1], run[|run| - 1];
      ElsewhereRun(blocks, init, h, family, x, before);
      ElsewhereStep(RunBlocks(blocks, init), last, h, family, x, KeyRun(blocks, init, HashKey(family, x), before));
    }
  }

  // ---------- reading a block back ----------

  lemma {:induction false} AllChecked(store: Store, meta: BlockMeta, hashes: seq<Hash>, n: nat, fullTx: bool)
    requires n <= |hashes|
    ensures CheckAll(store, meta, hashes, n, fullTx).Ok? <==>
            forall i :: 0 <= i < n ==> CheckTx(store, meta, hashes[i], i, fullTx).Ok?
  {
    hide CheckTx;
    if n > 0 {
      AllChecked(store, meta, hashes, n - 1, fullTx);
    }
  }

  /** The store still holds, under every hash of the block, what indexing the block filed there. */
  ghost predicate StillFiled(store: Store, h: Height, b: StoredBlock) {
    forall x: Hash :: x in TxHashes(b) ==> HeldBy(Lookup(store, RpcTxHashKey(x)), h)
  }

  /** What is held for the block is what the block filed. */
  ghost predicate HeldAsFiled(store: Store, h: Height, b: StoredBlock) {
    forall x: Hash :: x in TxHashes(b) && HeldBy(Lookup(store, RpcTxHashKey(x)), h) ==>
      Lookup(store, RpcTxHashKey(x)) == LastWrite(BlockOps(h, b), RpcTxHashKey(x))
  }

  /** The check of one transaction passes if the block still holds its hash, and for it and no other. */
  lemma {:induction false} CheckExact(store: Store, h: Height, b: StoredBlock, i: nat) returns (j: nat)
    requires WellPlaced(h, b) && HeldAsFiled(store, h, b) && i < |b.items|
    ensures j < |b.items| && b.items[j].tx.transaction.hash == b.items[i].tx.transaction.hash
    ensures var x := b.items[i].tx.transaction.hash;
            CheckTx(store, b.meta, x, i, true).Ok? <==>
              x != ZERO_HASH && HeldBy(Lookup(store, RpcTxHashKey(x)), h) && i == j
  {
    hide BlockOps, HashKey, LastWrite;
    var x := b.items[i].tx.transaction.hash;
    assert x in TxHashes(b);
    j := FormIsOwn(h, b, RPC_TX_HASH, x);
    assert ItemWell(h, b, j);
    assert b.meta.height == h;
  }

  lemma {:induction false} ChecksExact(store: Store, h: Height, b: StoredBlock)
    requires WellPlaced(h, b) && HeldAsFiled(store, h, b)
    ensures CheckAll(store, b.meta, HashesOf(b.items), |b.items|, true).Ok? <==>
            NoZeroHash(HashesOf(b.items)) && DistinctHashes(b.items) && StillFiled(store, h, b)
  {
    hide WellPlaced, HeldAsFiled, CheckTx, RpcTxHashKey, HeldBy;
    var hashes := HashesOf(b.items);
    AllChecked(store, b.meta, hashes, |b.items|, true);
    if CheckAll(store, b.meta, hashes, |b.items|, true).Ok? {
      forall i | 0 <= i < |b.items|
        ensures hashes[i] != ZERO_HASH && HeldBy(Lookup(store, RpcTxHashKey(hashes[i])), h)
        ensures forall m :: i < m < |b.items| ==> hashes[i] != hashes[m]
      {
        assert CheckTx(store, b.meta, hashes[i], i, true).Ok?;
        var j := CheckExact(store, h, b, i);
        forall m | i < m < |b.items| ensures hashes[i] != hashes[m] {
          assert CheckTx(store, b.meta, hashes[m], m, true).Ok?;
          if hashes[i] == hashes[m] {
            SameHashSameForm(store, h, b, i, m);
          }
        }
      }
      forall x: Hash | x in TxHashes(b) ensures HeldBy(Lookup(store, RpcTxHashKey(x)), h) {
        var i :| 0 <= i < |b.items| && b.items[i].tx.transaction.hash == x;
        assert hashes[i] == x;
      }
      assert DistinctHashes(b.items) by {
        forall i, m | 0 <= i < m < |b.items| ensures b.items[i].tx.transaction.hash != b.items[m].tx.transaction.hash {
          assert hashes[i] != hashes[m];
        }
      }
    } else {
      var i :| 0 <= i < |b.items| && !CheckTx(store, b.meta, hashes[i], i, true).Ok?;
      var j := CheckExact(store, h, b, i);
      assert hashes[i] in TxHashes(b);
    }
  }

  /** Of two transactions of a block with one hash at most one passes. */
  lemma {:induction false} SameHashSameForm(store: Store, h: Height, b: StoredBlock, i: nat, m: nat)
    requires i < |b.items| && m < |b.items| && b.items[i].tx.transaction.hash == b.items[m].tx.transaction.hash
    requires var x := b.items[i].tx.transaction.hash;
             CheckTx(store, b.meta, x, i, true).Ok? && CheckTx(store, b.meta, x, m, true).Ok?
    ensures i == m
  {
  }

  /** What is filed under a hash of a block when it is indexed and when other heights have been worked on since. */
  lemma {:induction false} FiledAfter(
      store: Store, blocks: Blocks, a: Action, rest: seq<Action>, family: byte, x: Hash)
    requires Located(store, blocks) && Attributed(store, blocks) && Sized(a) && SizedRun(rest)
    requires HashFamily(family) && family != VIRTUAL_RPC_TX
    requires Stores(a).Some? && Files(Stores(a).value, family, x)
    requires Resets(a).Some? && LeavesAlone(rest, Resets(a).value)
    ensures var v := Lookup(RunStore(StepStore(store, a), rest), HashKey(family, x));
            if Untouched(StepBlocks(blocks, a), rest, family, x)
            then v == LastWrite(BlockOps(Resets(a).value, Stores(a).value), HashKey(family, x)) &&
              HeldBy(v, Resets(a).value)
            else !HeldBy(v, Resets(a).value)
  {
    hide Located, Attributed, Sized, StepStore, StepBlocks, KeyRun, KeyStep, BlockOps, LastWrite, HashKey, Files,
         HeldBy, Untouched, LeavesAlone, WellPlaced, Stores, Resets, Touches;
    var next, now := StepStore(store, a), StepBlocks(blocks, a);
    StepRefines(store, blocks, a);
    StoresPlaced(a);
    StepExact(store, blocks, a, HashKey(family, x));
    FormStep(blocks, a, family, x, Lookup(store, HashKey(family, x)));
    var i := FormIsOwn(Resets(a).value, Stores(a).value, family, x);
    FormNamesOwner(Resets(a).value, Stores(a).value, i, family, Resets(a).value);
    RunExact(next, now, rest, HashKey(family, x));
    ElsewhereRun(now, rest, Resets(a).value, family, x, Lookup(next, HashKey(family, x)));
  }

  /**
   After a block without equal hashes is indexed and other heights have been
   worked on, what lies under a transaction's hash is still its receipt, its
   RPC form and its record if and only if no other height has since stored,
   replaced or removed a block that has the hash.
   */
  lemma {:induction false} FormsKeptExactly(
      store: Store, blocks: Blocks, a: Action, rest: seq<Action>, i: nat, family: byte)
    requires Located(store, blocks) && Attributed(store, blocks) && Sized(a) && SizedRun(rest)
    requires family == RECEIPT || family == RPC_TX_HASH || family == TX_HASH
    requires Stores(a).Some? && DistinctHashes(Stores(a).value.items) && i < |Stores(a).value.items|
    requires Form(Stores(a).value.items[i], family).Some?
    requires Resets(a).Some? && LeavesAlone(rest, Resets(a).value)
    ensures var item, after := Stores(a).value.items[i], RunStore(StepStore(store, a), rest);
            var x := item.tx.transaction.hash;
            Lookup(after, HashKey(family, x)) == Form(item, family) <==>
            Untouched(StepBlocks(blocks, a), rest, family, x)
  {
    hide Located, Attributed, Sized, StepStore, StepBlocks, BlockOps, LastWrite, HashKey, Form, HeldBy, Untouched,
         LeavesAlone, WellPlaced, Stores, Resets;
    var b, h, x := Stores(a).value, Resets(a).value, Stores(a).value.items[i].tx.transaction.hash;
    assert Files(b, family, x);
    StoresPlaced(a);
    FiledAfter(store, blocks, a, rest, family, x);
    var j := FormIsOwn(h, b, family, x);
    FormNamesOwner(h, b, i, family, h);
  }

  // ---------- the last action that touched a hash ----------

  lemma {:induction false} UntouchedSnoc(blocks: Blocks, run: seq<Action>, n: nat, family: byte, x: Hash)
    requires n < |run|
    ensures Untouched(RunBlocks(blocks, run[..n]), run[n..], family, x) <==>
            && Untouched(RunBlocks(blocks, run[..n]), run[n..|run| - 1], family, x)
            && !Touches(RunBlocks(blocks, run[..|run| - 1]), run[|run| - 1], family, x)
  {
    hide Touches, StepBlocks;
    var init := run[..|run| - 1];
    RunSplit(map[], blocks, init, n);
    assert init[..n] == run[..n] && init[n..] == run[n..|run| - 1] == run[n..][..|run| - n - 1];
  }

  /** What an action leaves under a hash it touches: its own transaction's form if it stores one, else nothing. */
  ghost predicate LeftBy(a: Action, family: byte, x: Hash, i: nat, v: Option<Value>) {
    if Stores(a).Some? && Files(Stores(a).value, family, x) then
      var items := Stores(a).value.items;
      && i < |items| && items[i].tx.transaction.hash == x && Form(items[i], family).Some?
      && v == Form(items[i], family)
    else v == None
  }

  lemma {:induction false} StepLeaves(blocks: Blocks, a: Action, family: byte, x: Hash, before: Option<Value>)
    returns (i: nat)
    requires Sized(a) && HashFamily(family)
    ensures var v := KeyStep(blocks, a, HashKey(family, x), before);
            if Touches(blocks, a, family, x) then LeftBy(a, family, x, i, v) else v == before
  {
    hide Sized, KeyStep, BlockOps, LastWrite, HashKey, Form, Files, Clears, Stores, Resets, WellPlaced;
    FormStep(blocks, a, family, x, before);
    i := 0;
    if Stores(a).Some? && Files(Stores(a).value, family, x) {
      StoresPlaced(a);
      i := FormIsOwn(Resets(a).value, Stores(a).value, family, x);
    }
  }

  /** The `n`-th action of the run, counted from 1, is the last that touches the hash; none is if `n` is 0. */
  ghost predicate LastTouch(blocks: Blocks, run: seq<Action>, family: byte, x: Hash, n: nat) {
    && n <= |run| && Untouched(RunBlocks(blocks, run[..n]), run[n..], family, x)
    && (n > 0 ==> Touches(RunBlocks(blocks, run[..n - 1]), run[n - 1], family, x))
  }

  lemma {:induction false} TouchedLast(blocks: Blocks, run: seq<Action>, family: byte, x: Hash)
    requires run != [] ==> Touches(RunBlocks(blocks, run[..|run| - 1]), run[|run| - 1], family, x)
    ensures LastTouch(blocks, run, family, x, |run|)
  {
    hide Touches, RunBlocks;
    assert run[|run|..] == [];
  }

  lemma {:induction false} TouchedBefore(blocks: Blocks, run: seq<Action>, family: byte, x: Hash, n: nat)
    requires run != [] && LastTouch(blocks, run[..|run| - 1], family, x, n)
    requires !Touches(RunBlocks(blocks, run[..|run| - 1]), run[|run| - 1], family, x)
    ensures LastTouch(blocks, run, family, x, n)
  {
    hide Touches, RunBlocks, Untouched;
    var init := run[..|run| - 1];
    UntouchedSnoc(blocks, run, n, family, x);
    assert init[..n] == run[..n] && init[n..] == run[n..|run| - 1];
    assert n > 0 ==> init[..n - 1] == run[..n - 1];
  }

  lemma {:induction false} KeyAfterRun(
      blocks: Blocks, run: seq<Action>, family: byte, x: Hash, before: Option<Value>)
    returns (n: nat, i: nat)
    requires SizedRun(run) && HashFamily(family)
    ensures n <= |run| && LastTouch(blocks, run, family, x, n)
    ensures var v := KeyRun(blocks, run, HashKey(family, x), before);
            if n == 0 then v == before else LeftBy(run[n - 1], family, x, i, v)
  {
    hide Sized, KeyStep, HashKey, Touches, LastTouch, LeftBy, RunBlocks;
    n, i := 0, 0;
    if run == [] {
      TouchedLast(blocks, run, family, x);
    } else {
      var init, last := run[..|run| - 1], run[|run| - 1];
      n, i := KeyAfterRun(blocks, init, family, x, before);
      var was := KeyRun(blocks, init, HashKey(family, x), before);
      var j := StepLeaves(RunBlocks(blocks, init), last, family, x, was);
      if Touches(RunBlocks(blocks, init), last, family, x) {
        n, i := |run|, j;
        TouchedLast(blocks, run, family, x);
      } else {
        TouchedBefore(blocks, run, family, x, n);
      }
    }
  }

  /**
   What lies under a hash after any run: what lay there before if nothing
   touched it; else nothing or, if the last action that touched it stored a
   block that files something there, the form of that block's transaction.
   */
  lemma {:induction false} FiledAfterRun(store: Store, blocks: Blocks, run: seq<Action>, family: byte, x: Hash)
    returns (n: nat, i: nat)
    requires Located(store, blocks) && Attributed(store, blocks) && SizedRun(run) && HashFamily(family)
    ensures n <= |run| && LastTouch(blocks, run, family, x, n)
    ensures var v := Lookup(RunStore(store, run), HashKey(family, x));
            if n == 0 then v == Lookup(store, HashKey(family, x)) else LeftBy(run[n - 1], family, x, i, v)
  {
    hide Located, Attributed, SizedRun, KeyRun, HashKey, LastTouch, LeftBy, RunStore, Lookup;
    RunExact(store, blocks, run, HashKey(family, x));
    n, i := KeyAfterRun(blocks, run, family, x, Lookup(store, HashKey(family, x)));
  }

  /**
   A block can be read back in full after any further work on other heights if
   and only if none of its transactions has the zero hash, no two share a hash,
   and no other height has since stored, replaced or removed a block with one
   of its hashes. Its hashes alone can be read back whatever happens to them.
   */
  lemma {:induction false} ReadBackExactly(store: Store, blocks: Blocks, a: Action, rest: seq<Action>)
    requires Located(store, blocks) && Attributed(store, blocks) && Sized(a) && SizedRun(rest)
    requires Stores(a).Some? && Resets(a).Some? && LeavesAlone(rest, Resets(a).value)
    ensures var b, after := Stores(a).value, RunStore(StepStore(store, a), rest);
            CheckAll(after, b.meta, HashesOf(b.items), |b.items|, true).Ok? <==>
            && NoZeroHash(HashesOf(b.items)) && DistinctHashes(b.items)
            && forall x: Hash :: x in TxHashes(b) ==> Untouched(StepBlocks(blocks, a), rest, RPC_TX_HASH, x)
  {
    hide Located, Attributed, Sized, StepStore, StepBlocks, BlockOps, LastWrite, HashKey, TxHashes, HeldBy,
         Untouched, LeavesAlone,
         WellPlaced, NoZeroHash, DistinctHashes, CheckAll, Stores, Resets;
    var b, h, after := Stores(a).value, Resets(a).value, RunStore(StepStore(store, a), rest);
    StoresPlaced(a);
    forall x: Hash | x in TxHashes(b)
      ensures HeldBy(Lookup(after, RpcTxHashKey(x)), h) <==> Untouched(StepBlocks(blocks, a), rest, RPC_TX_HASH, x)
      ensures HeldBy(Lookup(after, RpcTxHashKey(x)), h) ==>
                Lookup(after, RpcTxHashKey(x)) == LastWrite(BlockOps(h, b), RpcTxHashKey(x))
    {
      HasHash(b, x);
      FiledAfter(store, blocks, a, rest, RPC_TX_HASH, x);
    }
    ChecksExact(after, h, b);
  }

  // ---------- over whole runs ----------

  lemma {:induction false} RunSplit(store: Store, blocks: Blocks, run: seq<Action>, n: nat)
    requires n <= |run|
    ensures RunStore(store, run) == RunStore(RunStore(store, run[..n]), run[n..])
    ensures RunBlocks(blocks, run) == RunBlocks(RunBlocks(blocks, run[..n]), run[n..])
  {
    hide StepStore, StepBlocks;
    if n == |run| {
      assert run[..n] == run && run[n..] == [];
    } else {
      var init := run[..|run| - 1];
      RunSplit(store, blocks, init, n);
      assert init[..n] == run[..n];
      assert run[n..][..|run[n..]| - 1] == init[n..];
    }
  }

  lemma {:induction false} StepAt(blocks: Blocks, a: Action, h: Height)
    ensures Stores(a).Some? && Resets(a) == Some(h) ==>
              h in StepBlocks(blocks, a) && StepBlocks(blocks, a)[h] == Stores(a).value
    ensures !(Stores(a).Some? && Resets(a) == Some(h)) ==>
              && (h in StepBlocks(blocks, a) <==> h in blocks && Resets(a) != Some(h))
              && (h in StepBlocks(blocks, a) ==> h in blocks && StepBlocks(blocks, a)[h] == blocks[h])
  {
    hide IndexedBlock;
  }

  /** A height present after a run was stored by one action of it, and no later one replaced or removed it. */
  lemma {:induction false} LastStored(run: seq<Action>, h: Height) returns (n: nat)
    requires h in RunBlocks(map[], run)
    ensures n < |run| && Stores(run[n]) == Some(RunBlocks(map[], run)[h]) && Resets(run[n]) == Some(h)
    ensures LeavesAlone(run[n + 1..], h)
  {
    hide StepBlocks, Stores, Resets;
    var init, last := run[..|run| - 1], run[|run| - 1];
    StepAt(RunBlocks(map[], init), last, h);
    if Stores(last).Some? && Resets(last) == Some(h) {
      n := |run| - 1;
      assert run[n + 1..] == [];
    } else {
      n := LastStored(init, h);
      assert run[n + 1..] == init[n + 1..] + [last];
    }
  }

  /**
   After any run from an empty index, a present block can be read back in full
   if and only if it has no zero hash, no two equal hashes, and no action after
   the one that stored it touched one of its hashes.
   */
  lemma {:induction false} RunReadsBack(run: seq<Action>, h: Height) returns (n: nat)
    requires SizedRun(run) && h in RunBlocks(map[], run)
    ensures n < |run| && Stores(run[n]) == Some(RunBlocks(map[], run)[h]) && Resets(run[n]) == Some(h)
    ensures LeavesAlone(run[n + 1..], h)
    ensures var b := RunBlocks(map[], run)[h];
            CheckAll(RunStore(map[], run), b.meta, HashesOf(b.items), |b.items|, true).Ok? <==>
            && NoZeroHash(HashesOf(b.items)) && DistinctHashes(b.items)
            && forall x: Hash :: x in TxHashes(b) ==> 
              Untouched(RunBlocks(map[], run[..n + 1]), run[n + 1..], RPC_TX_HASH, x)
  {
    hide Located, Attributed, Sized, StepStore, StepBlocks, TxHashes, Untouched, LeavesAlone, NoZeroHash,
         DistinctHashes, CheckAll,
         Stores, Resets;
    n := LastStored(run, h);
    var before, rest := run[..n], run[n + 1..];
    EmptyRepresents();
    RunRefines(map[], map[], before);
    RunSplit(map[], map[], run, n + 1);
    assert run[..n + 1][..n] == before;
    ReadBackExactly(RunStore(map[], before), RunBlocks(map[], before), run[n], rest);
  }

  // ---------- what the earlier height loses ----------

  /** Storing a block with a known hash takes the transaction away from the height that had it. */
  lemma {:induction false} LaterTakesOver(
      store: Store, blocks: Blocks, h: Height, i: nat, later: Height, b: StoredBlock)
    requires Located(store, blocks) && WellPlaced(later, b) && h in blocks && i < |blocks[h].items| && h != later
    requires blocks[h].items[i].tx.transaction.hash in TxHashes(b) &&
             blocks[h].items[i].tx.transaction.hash != ZERO_HASH
    ensures CheckTx(Reindexed(store, later, b), blocks[h].meta, blocks[h].items[i].tx.transaction.hash, i, true) ==
            Err(if blocks[h].meta.hash != b.meta.hash then BadBlockHash else BadBlockNumber)
  {
    hide BlockOps, LastWrite, HashKey, TxHashes, Reindexed, WellPlaced, Dropped, KeysOf, InPlace, ByBlock;
    var x := blocks[h].items[i].tx.transaction.hash;
    HasHash(b, x);
    FilesExactly(later, b, RPC_TX_HASH, x);
    ReindexExact(store, blocks, later, b, RpcTxHashKey(x));
    var j := FormIsOwn(later, b, RPC_TX_HASH, x);
    Placed(later, b, j);
    Placed(h, blocks[h], i);
  }

  lemma {:induction false} Placed(h: Height, b: StoredBlock, i: nat)
    requires WellPlaced(h, b) && i < |b.items|
    ensures b.meta.height == h && b.items[i].tx.transaction.blockHash == b.meta.hash
    ensures b.items[i].tx.transaction.blockNumber == h
  {
    assert ItemWell(h, b, i);
  }

  /**
   Deleting a height drops the receipt, the RPC form, the marker and, for an
   Ethereum transaction, the record under every hash it shares with another
   height. That height keeps its index entries, so its reader finds the
   transaction missing.
   */
  lemma {:induction false} DeletingStrands(store: Store, blocks: Blocks, h: Height, i: nat, later: Height)
    requires Located(store, blocks) && h in blocks && later in blocks && i < |blocks[h].items| && h != later
    requires blocks[h].items[i].tx.transaction.hash in TxHashes(blocks[later])
    ensures var x, after := blocks[h].items[i].tx.transaction.hash, Deleted(store, later);
            && h in Without(blocks, later) && Located(after, Without(blocks, later))
            && ReceiptKey(x) !in after && RpcTxHashKey(x) !in after && VirtualRpcTxKey(x) !in after
            && (EthHash(blocks[later], x) ==> TxHashKey(x) !in after)
            && (x != ZERO_HASH ==> CheckTx(after, blocks[h].meta, x, i, true) == Err(TxMissing))
  {
    hide Located, Deleted, ReceiptKey, RpcTxHashKey, VirtualRpcTxKey, TxHashKey, Dropped, EthHash, TxHashes;
    var x := blocks[h].items[i].tx.transaction.hash;
    DeleteLocates(store, blocks, later);
    SharedDropped(blocks, later, x);
    DeletedLookup(store, blocks, later, ReceiptKey(x));
    DeletedLookup(store, blocks, later, RpcTxHashKey(x));
    DeletedLookup(store, blocks, later, VirtualRpcTxKey(x));
    DeletedLookup(store, blocks, later, TxHashKey(x));
  }

  lemma {:induction false} SharedDropped(blocks: Blocks, h: Height, x: Hash)
    requires h in blocks && x in TxHashes(blocks[h])
    ensures Dropped(blocks, h, ReceiptKey(x)) && Dropped(blocks, h, RpcTxHashKey(x)) &&
            Dropped(blocks, h, VirtualRpcTxKey(x))
    ensures EthHash(blocks[h], x) ==> Dropped(blocks, h, TxHashKey(x))
  {
    HashKeyShape(RECEIPT, x);
    HashKeyShape(RPC_TX_HASH, x);
    HashKeyShape(VIRTUAL_RPC_TX, x);
    HashKeyShape(TX_HASH, x);
  }
}
