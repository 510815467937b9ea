/**
 Filling a gap through the concurrent fetcher: in every interleaving of
 workers, announcer and consumer in which the node answers as it does and the
 consumer's handler is the sync handler, the store ends as if the gap had been
 walked height by height.
 */
module GetterSync {
  import opened Common
  import opened ByteOrder
  import opened BlockModel
  import opened Keys
  import opened IndexRefinement
  import opened IndexRuns
  import opened Ranges
  import opened GapSync
  import G = BlockGetter

  type Payload = (Block, Option<BlockResults>)

  /** What a worker gets from the node for a height. */
  function Delivery(src: Source, h: Height): G.Data<Payload> {
    match src.fetch(h)
    case Skipped => G.Skipped(h)
    case Data(block, results) => G.Fetched(h, (block, results))
  }

  predicate Genuine(src: Source, data: G.Data<Payload>) {
    data.height <= MAX_INT64 ==> data == Delivery(src, data.height)
  }

  /** The block is one at which the handler reports an error. */
  predicate Fails(src: Source, data: G.Data<Payload>) {
    data.height <= MAX_INT64 && Stops(src, data.height)
  }

  /**
   Workers insert what the node serves, and the handler accepts a block exactly
   when it can be indexed or gaps are allowed.
   */
  predicate Faithful(src: Source, s: G.State<Payload>, m: G.Move<Payload>) {
    match m
    case Insert(_, data) => Genuine(src, data)
    case Receive(ok) => s.channel != [] ==> ok == !Fails(src, s.channel[0])
    case _ => true
  }

  predicate FaithfulRun(p: G.Params, src: Source, moves: seq<G.Move<Payload>>) {
    moves == [] ||
    (FaithfulRun(p, src, moves[..|moves| - 1]) && Faithful(src, G.Run(p, moves[..|moves| - 1]), moves[|moves| - 1]))
  }

  /** Everything under way is what the node serves. */
  ghost predicate AllGenuine(src: Source, s: G.State<Payload>) {
    && (forall h :: h in s.pending ==> Genuine(src, s.pending[h]))
    && (s.announcer.Holding? ==> Genuine(src, s.announcer.data))
    && (forall i :: 0 <= i < |s.channel| ==> Genuine(src, s.channel[i]))
    && (forall i :: 0 <= i < |s.received| ==> Genuine(src, s.received[i]))
  }

  /** The consumer goes on exactly as long as no handler call has failed, and stops at the first that does. */
  ghost predicate Judged(src: Source, s: G.State<Payload>) {
    && (forall i :: 0 <= i < |s.received| - 1 ==> !Fails(src, s.received[i]))
    && (s.consumer.Running? && s.received != [] ==> !Fails(src, s.received[|s.received| - 1]))
    && (s.consumer.HandlerFailed? ==> s.received != [] && Fails(src, s.received[|s.received| - 1]))
  }

  lemma {:induction false} GenuineKept(p: G.Params, src: Source, s: G.State<Payload>, m: G.Move<Payload>)
    requires AllGenuine(src, s) && G.Enabled(p, s, m) && Faithful(src, s, m)
    ensures AllGenuine(src, G.After(p, s, m))
  {
    hide Genuine, Fails;
  }

  lemma {:induction false} SkippedFine(src: Source, data: G.Data<Payload>)
    requires Genuine(src, data) && data.Skipped?
    ensures !Fails(src, data)
  {
  }

  lemma {:induction false} JudgedKept(p: G.Params, src: Source, s: G.State<Payload>, m: G.Move<Payload>)
    requires AllGenuine(src, s) && Judged(src, s) && G.InOrder(p, s) && G.Enabled(p, s, m) && Faithful(src, s, m)
    ensures Judged(src, G.After(p, s, m))
  {
    hide Genuine, Fails;
    if m.Receive? {
      var data, s' := s.channel[0], G.After(p, s, m);
      assert s'.received == s.received + [data];
      if data.Skipped? {
        SkippedFine(src, data);
      }
      forall i | 0 <= i < |s'.received| - 1 ensures !Fails(src, s'.received[i]) {
        assert s'.received[i] == s.received[i];
      }
    }
  }

  lemma {:induction false} RunFaithful(p: G.Params, src: Source, moves: seq<G.Move<Payload>>)
    requires FaithfulRun(p, src, moves)
    ensures AllGenuine(src, G.Run(p, moves)) && Judged(src, G.Run(p, moves))
  {
    hide Faithful, G.Enabled, G.After;
    if moves == [] {
      NothingYet(p, src);
    } else {
      var init, last := moves[..|moves| - 1], moves[|moves| - 1];
      RunFaithful(p, src, init);
      var s := G.Run(p, init);
      if G.Enabled(p, s, last) {
        G.RunInv(p, init);
        GenuineKept(p, src, s, last);
        JudgedKept(p, src, s, last);
      }
    }
  }

  lemma {:induction false} NothingYet(p: G.Params, src: Source)
    ensures AllGenuine(src, G.Init(p)) && Judged(src, G.Init(p))
  {
  }

  // ---------- the store behind the handler ----------

  /** The store after the handler has been called on each of these in turn. */
  function HandlerStore(cfg: Config, store: Store, handled: seq<G.Data<Payload>>): Store {
    if handled == [] then store
    else
      var before := HandlerStore(cfg, store, handled[..|handled| - 1]);
      match handled[|handled| - 1]
      case Skipped(_) => before
      case Fetched(_, payload) => StepStore(before, Sync(cfg, payload.0, payload.1))
  }

  lemma {:induction false} HandlerStoreSnoc(src: Source, store: Store, received: seq<G.Data<Payload>>, h: Height)
    ensures HandlerStore(src.cfg, store, G.NonSkipped(received + [Delivery(src, h)])) ==
            HandledStore(src, HandlerStore(src.cfg, store, G.NonSkipped(received)), h)
  {
    hide StepStore;
    var data, seen := Delivery(src, h), G.NonSkipped(received);
    G.NonSkippedSnoc(received, data);
    if data.Skipped? {
      assert seen + [] == seen;
    } else {
      assert (seen + [data])[..|seen|] == seen;
    }
  }

  /** Handling consecutive heights one after the other grows the blocks by those served. */
  lemma {:induction false} ReceivedGrows(
      src: Source, store: Store, blocks: Blocks, lo: Height, received: seq<G.Data<Payload>>, exact: bool)
    returns (after: Blocks)
    requires Holds(store, blocks, exact) && Answers(src) && (exact ==> OneChain(src, blocks))
    requires G.Consecutive(received, lo) && lo + |received| - 1 <= MAX_INT64
    requires forall i :: 0 <= i < |received| ==> Genuine(src, received[i])
    requires forall x: Height :: lo <= x < lo + |received| ==> x !in blocks
    ensures Holds(HandlerStore(src.cfg, store, G.NonSkipped(received)), after, exact)
    ensures GrownTo(src, blocks, after, lo, lo + |received|)
  {
    hide Holds, Answers, OneChain, GrownTo, HandlerStore, HandledStore, Handled, Delivery;
    if received == [] {
      after := blocks;
      NothingGrown(src, blocks, lo);
      NothingHandled(src, store);
    } else {
      var n := |received| - 1;
      var init, h := received[..n], lo + n;
      var before := ReceivedGrows(src, store, blocks, lo, init, exact);
      assert received == init + [received[n]] && received[n] == Delivery(src, h);
      HandlerStoreSnoc(src, store, init, h);
      FromGrown(src, blocks, before, lo, h);
      HandledHolds(src, HandlerStore(src.cfg, store, G.NonSkipped(init)), blocks, before, h, exact);
      GrowsBy(src, blocks, before, lo, h);
      after := Handled(src, before, h);
    }
  }

  lemma {:induction false} NothingHandled(src: Source, store: Store)
    ensures HandlerStore(src.cfg, store, G.NonSkipped<Payload>([])) == store
  {
  }

  lemma {:induction false} FromGrown(src: Source, blocks: Blocks, current: Blocks, lo: int, hi: int)
    requires GrownTo(src, blocks, current, lo, hi)
    ensures FromChain(src, blocks, current)
  {
  }

  lemma {:induction false} GapHandled(
      p: G.Params, src: Source, gap: BlockRange, s: G.State<Payload>, blocks: Blocks, after: Blocks)
    requires 0 <= gap.start <= gap.end <= MAX_INT64 && p.start == gap.start && p.bound == Some(gap.end)
    requires G.InOrder(p, s) && Judged(src, s) && !G.WantsMore(p, s)
    requires s.received != [] ==> p.start + |s.received| - 1 <= gap.end
    requires GrownTo(src, blocks, after, gap.start, gap.start + |s.received|)
    ensures GrownGap(src, blocks, after, gap)
    ensures s.consumer.HandlerFailed? <==> exists x: Height :: Reached(src, gap, x) && Stops(src, x)
  {
    hide GrownTo, GrownGap, Stops;
    forall x: Height | gap.start <= x < gap.start + |s.received| - 1 ensures !Stops(src, x) {
      assert s.received[x - gap.start].height == x && !Fails(src, s.received[x - gap.start]);
    }
    if s.received != [] {
      assert s.received[|s.received| - 1].height == gap.start + |s.received| - 1;
    }
    if s.consumer.HandlerFailed? {
      GapStopped(src, blocks, after, gap, gap.start + |s.received| - 1);
    } else {
      GapDone(src, blocks, after, gap);
    }
  }

  /**
   Whatever the interleaving, when the consumer of a gap is done the store
   locates exactly what it did before and the served blocks of the gap as far
   as it is reached; the consumer has failed if and only if a block that
   cannot be indexed was reached and gaps are not allowed. At any time before,
   the store has the served blocks of the heights received so far.
   */
  lemma {:induction false} GetterFillsGap(
      p: G.Params, src: Source, gap: BlockRange, moves: seq<G.Move<Payload>>, store: Store, blocks: Blocks, exact: bool)
    returns (after: Blocks)
    requires 0 <= gap.start <= gap.end <= MAX_INT64 && p.start == gap.start && p.bound == Some(gap.end)
    requires Holds(store, blocks, exact) && Answers(src) && (exact ==> OneChain(src, blocks))
    requires forall x: Height :: Ranges.Within(gap, x) ==> x !in blocks
    requires FaithfulRun(p, src, moves)
    ensures var s := G.Run(p, moves);
            && Holds(HandlerStore(src.cfg, store, s.handled), after, exact)
            && GrownTo(src, blocks, after, gap.start, gap.start + |s.received|)
            && (!G.WantsMore(p, s) ==>
                  && GrownGap(src, blocks, after, gap)
                  && (s.consumer.HandlerFailed? <==> exists x: Height :: Reached(src, gap, x) && Stops(src, x)))
  {
    hide Holds, Answers, OneChain, GrownTo, GrownGap, HandlerStore, Judged, FaithfulRun, Genuine, Reached, Stops,
         G.Tracked, G.Bounded, G.GapFree,
         G.Awake, G.WantsMore, G.Run, G.NonSkipped;
    var s := G.Run(p, moves);
    G.RunInv(p, moves);
    G.RangeEnds(p, moves);
    RunFaithful(p, src, moves);
    after := ReceivedGrows(src, store, blocks, gap.start, s.received, exact);
    if !G.WantsMore(p, s) {
      GapHandled(p, src, gap, s, blocks, after);
    }
  }
}
