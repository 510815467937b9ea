/**
 Concurrent block fetching: workers take heights, fetch and insert into a
 shared map, throttling themselves; one announcer emits in order into a
 bounded channel; the consumer hands blocks to a handler. One step per
 critical section, in any interleaving.
 */
module BlockGetter {
  import opened Common

  datatype Data<B> = Fetched(height: nat, block: B) | Skipped(height: nat)

  datatype Worker = Idle | Fetching(height: nat) | Throttled

  /** Before it holds a block the announcer is either looking at the map or asleep on the condition variable. */
  datatype Announcer<B> = Waiting(asleep: bool) | Holding(data: Data<B>)

  datatype Consumer = Running | HandlerFailed | HeightMismatch

  /** `bound` is the last height wanted by a range sync; a forward sync has none. */
  datatype Params = Params(start: nat, jobs: nat, allowGaps: bool, bound: Option<int>)

  datatype State<B> = State(
    next: nat, workers: seq<Worker>, pending: map<nat, Data<B>>,
    height: nat, announcer: Announcer<B>, channel: seq<Data<B>>,
    consumer: Consumer, received: seq<Data<B>>, handled: seq<Data<B>>)

  datatype Move<B> =
    | Take(w: nat)
    | Insert(w: nat, data: Data<B>)
    | Recheck(w: nat)
    | Announce
    | Emit
    | Receive(handlerOk: bool)

  function Limit(p: Params): nat {
    1024 * p.jobs
  }

  function Capacity(p: Params): nat {
    100 * p.jobs
  }

  function Init<B>(p: Params): State<B> {
    State(p.start, seq(p.jobs, _ => Idle), map[], p.start, Waiting(false), [], Running, [], [])
  }

  function Expected<B>(p: Params, s: State<B>): nat {
    p.start + |s.received|
  }

  predicate Enabled<B>(p: Params, s: State<B>, m: Move<B>) {
    match m
    case Take(w) => w < |s.workers| && s.workers[w].Idle?
    case Insert(w, data) =>
      w < |s.workers| && s.workers[w] == Fetching(data.height) && (data.Skipped? ==> p.allowGaps)
    case Recheck(w) => w < |s.workers| && s.workers[w].Throttled?
    case Announce => s.announcer.Waiting? && !s.announcer.asleep
    case Emit => s.announcer.Holding? && |s.channel| < Capacity(p)
    case Receive(_) => s.consumer.Running? && s.channel != [] && (p.bound.Some? ==> Expected(p, s) <= p.bound.value)
  }

  function After<B>(p: Params, s: State<B>, m: Move<B>): State<B>
    requires Enabled(p, s, m)
  {
    match m
    case Take(w) => s.(workers := s.workers[w := Fetching(s.next)], next := s.next + 1)
    case Insert(w, data) =>
      var pending := s.pending[data.height := data];
      s.(pending := pending, workers := s.workers[w := if |pending| > Limit(p) then Throttled else Idle],
         announcer := if s.announcer.Waiting? then Waiting(false) else s.announcer)
    case Recheck(w) => s.(workers := s.workers[w := if |s.pending| > Limit(p) then Throttled else Idle])
    case Announce =>
      if s.height in s.pending then
        s.(pending := s.pending - {s.height}, announcer := Holding(s.pending[s.height]))
      else s.(announcer := Waiting(true))
    case Emit => s.(channel := s.channel + [s.announcer.data], announcer := Waiting(false), height := s.height + 1)
    case Receive(ok) =>
      var data := s.channel[0];
      var taken := s.(channel := s.channel[1..], received := s.received + [data]);
      if data.height != Expected(p, s) then taken.(consumer := HeightMismatch)
      else if data.Skipped? then taken
      else taken.(handled := s.handled + [data], consumer := if ok then Running else HandlerFailed)
  }

  // ---------- the invariant ----------

  predicate Consecutive<B>(data: seq<Data<B>>, from: nat) {
    forall i :: 0 <= i < |data| ==> data[i].height == from + i
  }

  function NonSkipped<B>(data: seq<Data<B>>): seq<Data<B>> {
    if data == [] then []
    else NonSkipped(data[..|data| - 1]) + if data[|data| - 1].Skipped? then [] else [data[|data| - 1]]
  }

  function CountThrottled(workers: seq<Worker>): nat {
    if workers == [] then 0
    else CountThrottled(workers[..|workers| - 1]) + if workers[|workers| - 1].Throttled? then 1 else 0
  }

  /** The first height that is neither emitted nor held by the announcer. */
  function Floor<B>(s: State<B>): nat {
    s.height + if s.announcer.Holding? then 1 else 0
  }

  /** Emission order: received, then in the channel, then held, without gap or repeat. */
  ghost predicate InOrder<B>(p: Params, s: State<B>) {
    && Consecutive(s.received, p.start)
    && Consecutive(s.channel, Expected(p, s))
    && s.height == Expected(p, s) + |s.channel|
    && (s.announcer.Holding? ==> s.announcer.data.height == s.height)
    && s.handled == NonSkipped(s.received)
    && !s.consumer.HeightMismatch?
  }

  ghost predicate FetchedBy<B>(s: State<B>, h: nat) {
    exists w :: 0 <= w < |s.workers| && s.workers[w] == Fetching(h)
  }

  /** Heights handed out but not yet announced: each in the map or with exactly one worker. */
  ghost predicate Tracked<B>(p: Params, s: State<B>) {
    && Floor(s) <= s.next
    && (forall h :: h in s.pending ==> Floor(s) <= h < s.next && s.pending[h].height == h && !FetchedBy(s, h))
    && (forall w :: 0 <= w < |s.workers| && s.workers[w].Fetching? ==> Floor(s) <= s.workers[w].height < s.next)
    && (forall v, w :: 0 <= v < w < |s.workers| && s.workers[v].Fetching? ==> s.workers[v] != s.workers[w])
    && (forall h :: Floor(s) <= h < s.next ==> h in s.pending || FetchedBy(s, h))
  }

  /** The map exceeds its limit by no more than the number of throttled workers; the channel keeps its capacity. */
  ghost predicate Bounded<B>(p: Params, s: State<B>) {
    && |s.workers| == p.jobs && |s.pending| <= Limit(p) + CountThrottled(s.workers)
    && |s.channel| <= Capacity(p)
  }

  ghost predicate GapFree<B>(p: Params, s: State<B>) {
    p.allowGaps ||
    (&& (forall h :: h in s.pending ==> !s.pending[h].Skipped?)
     && (s.announcer.Holding? ==> !s.announcer.data.Skipped?)
     && (forall i :: 0 <= i < |s.channel| ==> !s.channel[i].Skipped?)
     && (forall i :: 0 <= i < |s.received| ==> !s.received[i].Skipped?))
  }

  /** No lost wake-up: the announcer sleeps only while the height it needs is missing. */
  ghost predicate Awake<B>(s: State<B>) {
    s.announcer.Waiting? && s.announcer.asleep ==> s.height !in s.pending
  }

  ghost predicate Inv<B>(p: Params, s: State<B>) {
    InOrder(p, s) && Tracked(p, s) && Bounded(p, s) && GapFree(p, s) && Awake(s)
  }

  lemma {:induction false} NoneThrottled(workers: seq<Worker>)
    requires forall w :: 0 <= w < |workers| ==> workers[w].Idle?
    ensures CountThrottled(workers) == 0
  {
    if workers != [] {
      NoneThrottled(workers[..|workers| - 1]);
    }
  }

  lemma {:induction false} CountUpdate(workers: seq<Worker>, w: nat, x: Worker)
    requires w < |workers|
    ensures CountThrottled(workers[w := x]) ==
            CountThrottled(workers) - (if workers[w].Throttled? then 1 else 0) + if x.Throttled? then 1 else 0
  {
    var n := |workers| - 1;
    if w == n {
      assert workers[w := x][..n] == workers[..n];
    } else {
      CountUpdate(workers[..n], w, x);
      assert workers[w := x][..n] == workers[..n][w := x];
    }
  }

  lemma {:induction false} CountAtMost(workers: seq<Worker>)
    ensures CountThrottled(workers) <= |workers|
  {
    if workers != [] {
      CountAtMost(workers[..|workers| - 1]);
    }
  }

  lemma {:induction false} InitInv<B>(p: Params)
    ensures Inv(p, Init<B>(p))
  {
    NoneThrottled(Init<B>(p).workers);
  }

  // ---------- every step keeps it ----------

  lemma {:induction false} NonSkippedSnoc<B>(data: seq<Data<B>>, d: Data<B>)
    ensures NonSkipped(data + [d]) == NonSkipped(data) + if d.Skipped? then [] else [d]
  {
    assert (data + [d])[..|data|] == data;
  }

  lemma {:induction false} ReceiveKeepsOrder<B>(p: Params, s: State<B>, ok: bool)
    requires InOrder(p, s) && Enabled(p, s, Receive(ok))
    ensures InOrder(p, After(p, s, Receive(ok)))
  {
    hide NonSkipped;
    NonSkippedSnoc(s.received, s.channel[0]);
  }

  lemma {:induction false} EmitKeepsOrder<B>(p: Params, s: State<B>)
    requires InOrder(p, s) && Enabled(p, s, Emit)
    ensures InOrder(p, After(p, s, Emit))
  {
    hide NonSkipped;
  }

  lemma {:induction false} OrderKept<B>(p: Params, s: State<B>, m: Move<B>)
    requires InOrder(p, s) && Tracked(p, s) && Enabled(p, s, m)
    ensures InOrder(p, After(p, s, m))
  {
    hide NonSkipped, Consecutive, FetchedBy;
    match m
    case Receive(ok) => ReceiveKeepsOrder(p, s, ok);
    case Emit => EmitKeepsOrder(p, s);
    case _ =>
  }

  /** A step of one worker that neither starts nor stops fetching `h` leaves who fetches `h` unchanged. */
  lemma {:induction false} FetchedFrame<B>(s: State<B>, s': State<B>, w: nat, h: nat)
    requires w < |s.workers| && |s'.workers| == |s.workers|
    requires forall v :: 0 <= v < |s.workers| && v != w ==> s'.workers[v] == s.workers[v]
    requires s.workers[w] != Fetching(h) && s'.workers[w] != Fetching(h)
    ensures FetchedBy(s, h) <==> FetchedBy(s', h)
  {
    if FetchedBy(s, h) {
      var v :| 0 <= v < |s.workers| && s.workers[v] == Fetching(h);
      assert s'.workers[v] == Fetching(h);
    }
    if FetchedBy(s', h) {
      var v :| 0 <= v < |s'.workers| && s'.workers[v] == Fetching(h);
      assert s.workers[v] == Fetching(h);
    }
  }

  lemma {:induction false} TakeTracked<B>(p: Params, s: State<B>, w: nat)
    requires Tracked(p, s) && Enabled(p, s, Take(w))
    ensures Tracked(p, After(p, s, Take(w)))
  {
    var s' := After(p, s, Take(w));
    assert s'.workers[w] == Fetching(s.next);
    forall h: nat | h != s.next ensures FetchedBy(s, h) <==> FetchedBy(s', h) {
      FetchedFrame(s, s', w, h);
    }
  }

  lemma {:induction false} InsertTracked<B>(p: Params, s: State<B>, w: nat, data: Data<B>)
    requires Tracked(p, s) && Enabled(p, s, Insert(w, data))
    ensures Tracked(p, After(p, s, Insert(w, data)))
  {
    var s' := After(p, s, Insert(w, data));
    forall h: nat | h != data.height ensures FetchedBy(s, h) <==> FetchedBy(s', h) {
      FetchedFrame(s, s', w, h);
    }
    forall v | 0 <= v < |s.workers| ensures s'.workers[v] != Fetching(data.height) {
      assert v < w ==> s.workers[v] != s.workers[w];
      assert w < v ==> s.workers[w] != s.workers[v];
    }
    assert !FetchedBy(s', data.height);
    assert FetchedBy(s, data.height);
  }

  lemma {:induction false} RecheckTracked<B>(p: Params, s: State<B>, w: nat)
    requires Tracked(p, s) && Enabled(p, s, Recheck(w))
    ensures Tracked(p, After(p, s, Recheck(w)))
  {
    var s' := After(p, s, Recheck(w));
    forall h: nat ensures FetchedBy(s, h) <==> FetchedBy(s', h) {
      FetchedFrame(s, s', w, h);
    }
  }

  lemma {:induction false} SameWorkers<B>(s: State<B>, s': State<B>, h: nat)
    requires s'.workers == s.workers
    ensures FetchedBy(s', h) <==> FetchedBy(s, h)
  {
  }

  lemma {:induction false} AnnounceTracked<B>(p: Params, s: State<B>)
    requires Tracked(p, s) && Enabled(p, s, Announce)
    ensures Tracked(p, After(p, s, Announce))
  {
    var s' := After(p, s, Announce);
    forall h: nat ensures FetchedBy(s', h) <==> FetchedBy(s, h) {
      SameWorkers(s, s', h);
    }
    assert s.height in s.pending ==> !FetchedBy(s, s.height);
  }

  lemma {:induction false} QuietTracked<B>(p: Params, s: State<B>, s': State<B>)
    requires Tracked(p, s) && s'.workers == s.workers && s'.pending == s.pending && s'.next == s.next &&
             Floor(s') == Floor(s)
    ensures Tracked(p, s')
  {
    forall h: nat ensures FetchedBy(s', h) <==> FetchedBy(s, h) {
      SameWorkers(s, s', h);
    }
  }

  lemma {:induction false} TrackedKept<B>(p: Params, s: State<B>, m: Move<B>)
    requires Tracked(p, s) && Enabled(p, s, m)
    ensures Tracked(p, After(p, s, m))
  {
    match m
    case Take(w) => TakeTracked(p, s, w);
    case Insert(w, data) => InsertTracked(p, s, w, data);
    case Recheck(w) => RecheckTracked(p, s, w);
    case Announce => AnnounceTracked(p, s);
    case Emit => QuietTracked(p, s, After(p, s, m));
    case Receive(_) => QuietTracked(p, s, After(p, s, m));
  }

  lemma {:induction false} BoundKept<B>(p: Params, s: State<B>, m: Move<B>)
    requires Bounded(p, s) && Enabled(p, s, m)
    ensures Bounded(p, After(p, s, m))
  {
    var s' := After(p, s, m);
    match m
    case Take(w) => CountUpdate(s.workers, w, s'.workers[w]);
    case Insert(w, data) =>
      CountUpdate(s.workers, w, s'.workers[w]);
      assert s'.pending.Keys == s.pending.Keys + {data.height};
      assert |s'.pending.Keys| <= |s.pending.Keys| + 1;
    case Recheck(w) => CountUpdate(s.workers, w, s'.workers[w]);
    case Announce =>
      if s.height in s.pending {
        assert s'.pending.Keys == s.pending.Keys - {s.height};
        assert |s'.pending.Keys| < |s.pending.Keys|;
      }
    case _ =>
  }

  lemma {:induction false} GapFreeKept<B>(p: Params, s: State<B>, m: Move<B>)
    requires GapFree(p, s) && Enabled(p, s, m)
    ensures GapFree(p, After(p, s, m))
  {
  }

  lemma {:induction false} StepInv<B>(p: Params, s: State<B>, m: Move<B>)
    requires Inv(p, s) && Enabled(p, s, m)
    ensures Inv(p, After(p, s, m))
  {
    OrderKept(p, s, m);
    TrackedKept(p, s, m);
    BoundKept(p, s, m);
    GapFreeKept(p, s, m);
  }

  // ---------- every run ----------

  /** The state after a run; moves that are not enabled do not happen. */
  function Run<B>(p: Params, moves: seq<Move<B>>): State<B> {
    if moves == [] then Init(p)
    else
      var before := Run(p, moves[..|moves| - 1]);
      if Enabled(p, before, moves[|moves| - 1]) then After(p, before, moves[|moves| - 1]) else before
  }

  lemma {:induction false} RunInv<B>(p: Params, moves: seq<Move<B>>)
    ensures Inv(p, Run(p, moves))
  {
    if moves == [] {
      InitInv<B>(p);
    } else {
      var before := Run(p, moves[..|moves| - 1]);
      RunInv(p, moves[..|moves| - 1]);
      if Enabled(p, before, moves[|moves| - 1]) {
        StepInv(p, before, moves[|moves| - 1]);
      }
    }
  }

  /**
   In every interleaving: heights are received as start, start+1, ...; the
   mismatch error never occurs; the handler has seen exactly the non-skipped
   ones, in order; and without gaps nothing is skipped.
   */
  lemma {:induction false} OrderedDelivery<B>(p: Params, moves: seq<Move<B>>) returns (at: seq<nat>)
    ensures var s := Run(p, moves);
            && Consecutive(s.received, p.start)
            && s.consumer != HeightMismatch
            && HandledAt(s.handled, s.received, at)
            && (!p.allowGaps ==> s.handled == s.received)
  {
    RunInv(p, moves);
    at := NonSkippedExact(Run(p, moves).received);
    if !p.allowGaps {
      AllHandled(Run(p, moves).received);
    }
  }

  /** `at` lists where the fetched blocks were received, and those are the handled ones. */
  ghost predicate HandledAt<B>(handled: seq<Data<B>>, received: seq<Data<B>>, at: seq<nat>) {
    && Increasing(at) && (forall i: nat :: i in at <==> i < |received| && received[i].Fetched?)
    && |handled| == |at| && forall k :: 0 <= k < |at| ==> at[k] < |received| && handled[k] == received[at[k]]
  }

  lemma {:induction false} HandledSnoc<B>(handled: seq<Data<B>>, received: seq<Data<B>>, at: seq<nat>, d: Data<B>)
    requires HandledAt(handled, received, at)
    ensures if d.Skipped? then HandledAt(handled, received + [d], at)
            else HandledAt(handled + [d], received + [d], at + [|received|])
  {
    var n := |received|;
    if d.Fetched? {
      IncreasingSnoc(at, n);
    }
  }

  lemma {:induction false} NonSkippedExact<B>(data: seq<Data<B>>) returns (at: seq<nat>)
    ensures HandledAt(NonSkipped(data), data, at)
  {
    if data == [] {
      at := [];
    } else {
      hide HandledAt;
      var n := |data| - 1;
      at := NonSkippedExact(data[..n]);
      HandledSnoc(NonSkipped(data[..n]), data[..n], at, data[n]);
      assert data[..n] + [data[n]] == data;
      at := if data[n].Skipped? then at else at + [n];
    }
  }

  lemma {:induction false} AllHandled<B>(data: seq<Data<B>>)
    requires forall i :: 0 <= i < |data| ==> !data[i].Skipped?
    ensures NonSkipped(data) == data
  {
    if data != [] {
      AllHandled(data[..|data| - 1]);
      assert data == data[..|data| - 1] + [data[|data| - 1]];
    }
  }

  /** A range sync never receives past its end. */
  lemma {:induction false} RangeEnds<B>(p: Params, moves: seq<Move<B>>)
    requires p.bound.Some?
    ensures Run(p, moves).received != [] ==> p.start + |Run(p, moves).received| - 1 <= p.bound.value
  {
    if moves != [] {
      RangeEnds(p, moves[..|moves| - 1]);
    }
  }

  // ---------- exactly one place ----------

  function FetchCount(workers: seq<Worker>, h: nat): nat {
    if workers == [] then 0
    else FetchCount(workers[..|workers| - 1], h) + if workers[|workers| - 1] == Fetching(h) then 1 else 0
  }

  function HeightCount<B>(data: seq<Data<B>>, h: nat): nat {
    if data == [] then 0 else HeightCount(data[..|data| - 1], h) + if data[|data| - 1].height == h then 1 else 0
  }

  /** In how many places a height currently is: workers, map, announcer, channel, consumer. */
  function Places<B>(s: State<B>, h: nat): nat {
    FetchCount(s.workers, h) + (if h in s.pending then 1 else 0)
    + (if s.announcer.Holding? && s.announcer.data.height == h then 1 else 0)
    + HeightCount(s.channel, h) + HeightCount(s.received, h)
  }

  lemma {:induction false} ConsecutiveCount<B>(data: seq<Data<B>>, from: nat, h: nat)
    requires Consecutive(data, from)
    ensures HeightCount(data, h) == if from <= h < from + |data| then 1 else 0
  {
    if data != [] {
      ConsecutiveCount(data[..|data| - 1], from, h);
    }
  }

  lemma {:induction false} DistinctCount(workers: seq<Worker>, h: nat)
    requires forall v, w :: 0 <= v < w < |workers| && workers[v].Fetching? ==> workers[v] != workers[w]
    ensures FetchCount(workers, h) == if exists w :: 0 <= w < |workers| && workers[w] == Fetching(h) then 1 else 0
  {
    if workers != [] {
      var init := workers[..|workers| - 1];
      DistinctCount(init, h);
      if w :| 0 <= w < |init| && init[w] == Fetching(h) {
        assert workers[w] == Fetching(h) && workers[w] != workers[|workers| - 1];
      }
      if w :| 0 <= w < |workers| && workers[w] == Fetching(h) {
        assert w < |init| ==> init[w] == Fetching(h);
      }
    }
  }

  /** In every reachable state each height handed out is in exactly one place, and no other height is anywhere. */
  lemma {:induction false} ExactlyOnePlace<B>(p: Params, moves: seq<Move<B>>, h: nat)
    ensures Places(Run(p, moves), h) == if p.start <= h < Run(p, moves).next then 1 else 0
  {
    var s := Run(p, moves);
    RunInv(p, moves);
    ConsecutiveCount(s.received, p.start, h);
    ConsecutiveCount(s.channel, Expected(p, s), h);
    DistinctCount(s.workers, h);
    assert FetchedBy(s, h) <==> exists w :: 0 <= w < |s.workers| && s.workers[w] == Fetching(h);
  }

  // ---------- back-pressure ----------

  /** The map never holds more than 1024 blocks per job plus one per throttled worker, the channel 100 per job. */
  lemma {:induction false} BackPressure<B>(p: Params, moves: seq<Move<B>>)
    ensures var s := Run(p, moves);
            && |s.pending| <= 1024 * p.jobs + CountThrottled(s.workers) <= 1024 * p.jobs + p.jobs
            && |s.channel| <= 100 * p.jobs
  {
    RunInv(p, moves);
    CountAtMost(Run(p, moves).workers);
  }

  /** Whenever no worker is fetching and the map is not empty, the announcer's next height is in it. */
  lemma {:induction false} NextIsReady<B>(p: Params, s: State<B>)
    requires Inv(p, s) && s.pending != map[] && forall w :: 0 <= w < |s.workers| ==> !s.workers[w].Fetching?
    ensures Floor(s) in s.pending
  {
    var h :| h in s.pending;
    assert Floor(s) <= h < s.next;
    assert Floor(s) in s.pending || FetchedBy(s, Floor(s));
  }

  /** Throttling cannot block the announcer: with every worker throttled above the limit its next height is there. */
  lemma {:induction false} ThrottledButReady<B>(p: Params, moves: seq<Move<B>>)
    requires var s := Run(p, moves);
             |s.pending| > 1024 * p.jobs && forall w :: 0 <= w < |s.workers| ==> s.workers[w].Throttled?
    ensures Floor(Run(p, moves)) in Run(p, moves).pending
    ensures Run(p, moves).announcer.Waiting? ==> Enabled(p, Run(p, moves), Announce)
    ensures Run(p, moves).announcer.Waiting? ==> After(p, Run(p, moves), Announce).announcer.Holding?
  {
    RunInv(p, moves);
    NextIsReady(p, Run(p, moves));
  }

  /** No reachable state is stuck while the consumer wants more: some step is enabled that changes it. */
  lemma {:induction false} NeverStuck<B>(p: Params, moves: seq<Move<B>>, block: B) returns (m: Move<B>)
    requires p.jobs > 0
    requires var s := Run(p, moves); s.consumer.Running? && (p.bound.Some? ==> Expected(p, s) <= p.bound.value)
    ensures Enabled(p, Run(p, moves), m) && After(p, Run(p, moves), m) != Run(p, moves)
  {
    var s := Run(p, moves);
    RunInv(p, moves);
    if w :| 0 <= w < |s.workers| && s.workers[w].Idle? {
      m := Take(w);
    } else if w :| 0 <= w < |s.workers| && s.workers[w].Fetching? {
      m := Insert(w, Fetched(s.workers[w].height, block));
      assert After(p, s, m).workers[w] != s.workers[w];
    } else if |s.pending| <= Limit(p) {
      m := Recheck(0);
      assert After(p, s, m).workers[0] != s.workers[0];
    } else if s.announcer.Waiting? {
      NextIsReady(p, s);
      m := Announce;
    } else if |s.channel| < Capacity(p) {
      m := Emit;
    } else {
      m := Receive(true);
      assert |After(p, s, m).channel| < |s.channel|;
    }
  }

  // ---------- progress ----------

  /** The state after further moves, each of which has to be enabled. */
  function Continue<B>(p: Params, s: State<B>, moves: seq<Move<B>>): Option<State<B>>
    decreases |moves|
  {
    if moves == [] then Some(s)
    else if !Enabled(p, s, moves[0]) then None
    else Continue(p, After(p, s, moves[0]), moves[1..])
  }

  lemma {:induction false} ContinueFirst<B>(p: Params, s: State<B>, m: Move<B>, rest: seq<Move<B>>)
    requires Enabled(p, s, m)
    ensures Continue(p, s, [m] + rest) == Continue(p, After(p, s, m), rest)
  {
    hide Enabled, After;
    assert ([m] + rest)[1..] == rest;
  }

  predicate WantsMore<B>(p: Params, s: State<B>) {
    s.consumer.Running? && (p.bound.Some? ==> Expected(p, s) <= p.bound.value)
  }

  /** A continuation after which one more block has been received. */
  ghost predicate Delivers<B>(p: Params, s: State<B>, moves: seq<Move<B>>, count: nat) {
    Continue(p, s, moves).Some? && |Continue(p, s, moves).value.received| == count
  }

  lemma {:induction false} FromChannel<B>(p: Params, s: State<B>) returns (moves: seq<Move<B>>)
    requires WantsMore(p, s) && s.channel != []
    ensures Delivers(p, s, moves, |s.received| + 1)
  {
    moves := [Receive(true)];
    ContinueFirst(p, s, Receive(true), []);
    assert moves == [Receive(true)] + [];
  }

  lemma {:induction false} FromAnnouncer<B>(p: Params, s: State<B>) returns (moves: seq<Move<B>>)
    requires p.jobs > 0 && WantsMore(p, s) && s.channel == [] && s.announcer.Holding?
    ensures Delivers(p, s, moves, |s.received| + 1)
  {
    var rest := FromChannel(p, After(p, s, Emit));
    moves := [Emit] + rest;
    ContinueFirst(p, s, Emit, rest);
  }

  lemma {:induction false} FromMap<B>(p: Params, s: State<B>) returns (moves: seq<Move<B>>)
    requires p.jobs > 0 && WantsMore(p, s) && s.channel == []
    requires s.announcer.Waiting? && !s.announcer.asleep && s.height in s.pending
    ensures Delivers(p, s, moves, |s.received| + 1)
  {
    var rest := FromAnnouncer(p, After(p, s, Announce));
    moves := [Announce] + rest;
    ContinueFirst(p, s, Announce, rest);
  }

  lemma {:induction false} FromWorker<B>(p: Params, s: State<B>, w: nat, block: B) returns (moves: seq<Move<B>>)
    requires p.jobs > 0 && WantsMore(p, s) && s.channel == [] && s.announcer.Waiting?
    requires w < |s.workers| && s.workers[w] == Fetching(s.height)
    ensures Delivers(p, s, moves, |s.received| + 1)
  {
    var insert := Insert(w, Fetched(s.height, block));
    var rest := FromMap(p, After(p, s, insert));
    moves := [insert] + rest;
    ContinueFirst(p, s, insert, rest);
  }

  lemma {:induction false} FromIdle<B>(p: Params, s: State<B>, w: nat, block: B) returns (moves: seq<Move<B>>)
    requires p.jobs > 0 && WantsMore(p, s) && s.channel == [] && s.announcer.Waiting?
    requires w < |s.workers| && s.workers[w].Idle? && s.next == s.height
    ensures Delivers(p, s, moves, |s.received| + 1)
  {
    var rest := FromWorker(p, After(p, s, Take(w)), w, block);
    moves := [Take(w)] + rest;
    ContinueFirst(p, s, Take(w), rest);
  }

  lemma {:induction false} FromThrottled<B>(p: Params, s: State<B>, w: nat, block: B) returns (moves: seq<Move<B>>)
    requires p.jobs > 0 && WantsMore(p, s) && s.channel == [] && s.announcer.Waiting?
    requires w < |s.workers| && s.workers[w].Throttled? && s.pending == map[] && s.next == s.height
    ensures Delivers(p, s, moves, |s.received| + 1)
  {
    var rest := FromIdle(p, After(p, s, Recheck(w)), w, block);
    moves := [Recheck(w)] + rest;
    ContinueFirst(p, s, Recheck(w), rest);
  }

  /** When nothing is handed out above the announcer's height, no worker fetches and the map is empty. */
  lemma {:induction false} NothingOut<B>(p: Params, s: State<B>)
    requires Tracked(p, s) && s.next == Floor(s)
    ensures s.pending == map[] && forall w :: 0 <= w < |s.workers| ==> !s.workers[w].Fetching?
  {
  }

  /**
   From every reachable state in which the consumer wants more, finitely many
   enabled steps make it receive one more block, provided the node can serve
   some block for any height asked for.
   */
  lemma {:induction false} AlwaysMoreToCome<B>(p: Params, past: seq<Move<B>>, block: B) returns (moves: seq<Move<B>>)
    requires p.jobs > 0 && WantsMore(p, Run(p, past))
    ensures Delivers(p, Run(p, past), moves, |Run(p, past).received| + 1)
  {
    hide Delivers, Run;
    var s := Run(p, past);
    RunInv(p, past);
    if s.channel != [] {
      moves := FromChannel(p, s);
    } else if s.announcer.Holding? {
      moves := FromAnnouncer(p, s);
    } else if s.height in s.pending {
      moves := FromMap(p, s);
    } else if w :| 0 <= w < |s.workers| && s.workers[w] == Fetching(s.height) {
      moves := FromWorker(p, s, w, block);
    } else {
      assert !FetchedBy(s, s.height);
      NothingOut(p, s);
      if s.workers[0].Idle? {
        moves := FromIdle(p, s, 0, block);
      } else {
        moves := FromThrottled(p, s, 0, block);
      }
    }
  }

  /** Such a continuation is itself part of a run. */
  lemma {:induction false} ContinueRuns<B>(p: Params, past: seq<Move<B>>, moves: seq<Move<B>>)
    requires Continue(p, Run(p, past), moves).Some?
    ensures Run(p, past + moves) == Continue(p, Run(p, past), moves).value
    decreases |moves|
  {
    hide Enabled, After, Init;
    if moves == [] {
      assert past + moves == past;
    } else {
      var next := past + [moves[0]];
      assert next[..|past|] == past;
      ContinueRuns(p, next, moves[1..]);
      assert next + moves[1..] == past + moves;
    }
  }

  // ---------- the getter's critical sections ----------

  class Getter<B> {
    const p: Params
    var next: nat
    var workers: seq<Worker>
    var pending: map<nat, Data<B>>
    var height: nat
    var announcer: Announcer<B>
    var channel: seq<Data<B>>
    var consumer: Consumer
    var received: seq<Data<B>>
    var handled: seq<Data<B>>

    ghost function View(): State<B>
      reads this
    {
      State(next, workers, pending, height, announcer, channel, consumer, received, handled)
    }

    ghost predicate Valid()
      reads this
    {
      Inv(p, View())
    }

    constructor (p: Params)
      ensures Valid() && this.p == p && View() == Init(p)
    {
      this.p := p;
      next := p.start;
      workers := seq(p.jobs, _ => Idle);
      pending := map[];
      height := p.start;
      announcer := Waiting(false);
      channel, received, handled := [], [], [];
      consumer := Running;
      new;
      InitInv<B>(p);
    }

    method TakeHeight(w: nat) returns (h: nat)
      requires Valid() && Enabled(p, View(), Take(w))
      modifies this
      ensures Valid() && View() == After(p, old(View()), Take(w))
      ensures h == old(next) && !old(FetchedBy(View(), next)) && h !in old(pending)
    {
      hide InOrder, GapFree, Bounded;
      StepInv(p, View(), Take(w));
      h := next;
      next := next + 1;
      workers := workers[w := Fetching(h)];
    }

    method Store(w: nat, data: Data<B>) returns (tooFar: bool)
      requires Valid() && Enabled(p, View(), Insert(w, data))
      modifies this
      ensures Valid() && View() == After(p, old(View()), Insert(w, data))
      ensures data.height !in old(pending) && |pending| == |old(pending)| + 1
      ensures tooFar <==> workers[w].Throttled?
      ensures tooFar <==> |pending| > 1024 * p.jobs
    {
      hide InOrder, GapFree, Bounded;
      StepInv(p, View(), Insert(w, data));
      assert FetchedBy(View(), data.height);
      assert (pending[data.height := data]).Keys == pending.Keys + {data.height};
      pending := pending[data.height := data];
      if announcer.Waiting? {
        announcer := Waiting(false);
      }
      tooFar := |pending| > 1024 * p.jobs;
      workers := workers[w := if tooFar then Throttled else Idle];
    }

    method CheckAgain(w: nat) returns (tooFar: bool)
      requires Valid() && Enabled(p, View(), Recheck(w))
      modifies this`workers
      ensures Valid() && View() == After(p, old(View()), Recheck(w))
      ensures tooFar <==> workers[w].Throttled?
      ensures tooFar <==> |pending| > 1024 * p.jobs
    {
      hide Tracked, GapFree, Bounded;
      StepInv(p, View(), Recheck(w));
      tooFar := |pending| > 1024 * p.jobs;
      workers := workers[w := if tooFar then Throttled else Idle];
    }

    method LookUp() returns (found: bool)
      requires Valid() && Enabled(p, View(), Announce)
      modifies this
      ensures Valid() && View() == After(p, old(View()), Announce)
      ensures found <==> announcer.Holding?
      ensures found ==> announcer.data.height == height
    {
      hide Tracked, GapFree, Bounded;
      StepInv(p, View(), Announce);
      found := height in pending;
      if found {
        announcer := Holding(pending[height]);
        pending := pending - {height};
      } else {
        announcer := Waiting(true);
      }
    }

    method Send()
      requires Valid() && Enabled(p, View(), Emit)
      modifies this
      ensures Valid() && View() == After(p, old(View()), Emit)
      ensures channel[|channel| - 1].height == old(height)
    {
      hide Tracked, GapFree, Bounded;
      StepInv(p, View(), Emit);
      channel := channel + [announcer.data];
      announcer := Waiting(false);
      height := height + 1;
    }
  }

  // ---------- the consumer ----------

  datatype Outcome = Done | NegativeStart | Mismatch | HandlerError | StreamClosed

  /**
   Reads an ascending stream, which closes after its last element, up to and
   including `end`. On a gapless stream it ends well exactly when the stream
   reaches that far and the handler accepts every non-skipped block, and then
   the handler has seen exactly those.
   */
  method SyncRange<B>(start: int, end: int, stream: seq<Data<B>>, fails: Data<B> -> bool)
    returns (outcome: Outcome, handled: seq<Data<B>>, ghost at: seq<nat>)
    ensures start < 0 ==> outcome == NegativeStart && handled == []
    ensures 0 <= start && end < start ==> outcome == Done && handled == []
    ensures 0 <= start <= end && Consecutive(stream, start) ==>
              && outcome != Mismatch
              && (outcome == Done <==>
                  && end - start < |stream|
                  && forall i :: 0 <= i <= end - start && !stream[i].Skipped? ==> !fails(stream[i]))
              && (outcome == Done ==> HandledAt(handled, stream[..end - start + 1], at))
  {
    handled, at := [], [];
    if start < 0 {
      return NegativeStart, handled, at;
    }
    if end < start {
      return Done, handled, at;
    }
    var expected := start;
    while expected <= end
      invariant start <= expected <= end + 1 && expected - start <= |stream|
      invariant handled == NonSkipped(stream[..expected - start])
      invariant forall i :: 0 <= i < expected - start && !stream[i].Skipped? ==> !fails(stream[i])
    {
      var i := expected - start;
      if i == |stream| {
        return StreamClosed, handled, at;
      }
      if stream[i].height != expected {
        return Mismatch, handled, at;
      }
      NonSkippedSnoc(stream[..i], stream[i]);
      assert stream[..i + 1] == stream[..i] + [stream[i]];
      if !stream[i].Skipped? {
        handled := handled + [stream[i]];
        if fails(stream[i]) {
          return HandlerError, handled, at;
        }
      }
      expected := expected + 1;
    }
    at := NonSkippedExact(stream[..expected - start]);
    return Done, handled, at;
  }

  // ---------- retries ----------

  datatype Reply = Success | AheadOfHead | NotFound | OtherError

  datatype Fetch = Complete | Unavailable | Failed | Canceled

  const RETRY_ATTEMPTS := 10

  /** The replies that use up an attempt: being ahead of the chain head does not. */
  ghost function SpentAt(replies: seq<Reply>): set<nat> {
    set k: nat | k < |replies| && !replies[k].AheadOfHead?
  }

  lemma {:induction false} SpentSnoc(replies: seq<Reply>, n: nat)
    requires n < |replies|
    ensures |SpentAt(replies[..n + 1])| == |SpentAt(replies[..n])| + if replies[n].AheadOfHead? then 0 else 1
  {
    var before := SpentAt(replies[..n]);
    assert SpentAt(replies[..n + 1]) == if replies[n].AheadOfHead? then before else before + {n};
  }

  /** A reply that ends the retries by itself. */
  predicate Ends(reply: Reply, allowGaps: bool) {
    reply.Success? || (reply.NotFound? && allowGaps)
  }

  /**
   Retries over the node's replies; the context is cancelled after the last
   one. The first reply that ends the retries, or the tenth that uses up an
   attempt, decides, and there is no other way out.
   */
  method FetchWithRetry(replies: seq<Reply>, allowGaps: bool) returns (r: Fetch, calls: nat)
    ensures calls <= |replies|
    ensures forall k :: 0 <= k < calls - 1 ==> !Ends(replies[k], allowGaps)
    ensures 0 < calls ==> |SpentAt(replies[..calls - 1])| < 10
    ensures r == Complete <==> 0 < calls && replies[calls - 1].Success?
    ensures r == Unavailable <==> 0 < calls && allowGaps && replies[calls - 1].NotFound?
    ensures r == Failed <==>
            0 < calls && |SpentAt(replies[..calls])| == 10 && !Ends(replies[calls - 1], allowGaps)
    ensures r == Canceled ==> calls == |replies|
  {
    var attempt := 0;
    calls := 0;
    while attempt < RETRY_ATTEMPTS
      invariant calls <= |replies| && attempt < RETRY_ATTEMPTS
      invariant attempt == |SpentAt(replies[..calls])|
      invariant 0 < calls ==> |SpentAt(replies[..calls - 1])| < 10
      invariant forall k :: 0 <= k < calls ==> !Ends(replies[k], allowGaps)
      decreases |replies| - calls
    {
      if calls == |replies| {
        assert 0 < calls ==> !Ends(replies[calls - 1], allowGaps);
        return Canceled, calls;
      }
      var reply := replies[calls];
      SpentSnoc(replies, calls);
      calls := calls + 1;
      if reply.Success? {
        return Complete, calls;
      }
      if !reply.AheadOfHead? {
        if allowGaps && reply.NotFound? {
          return Unavailable, calls;
        }
        if attempt == RETRY_ATTEMPTS - 1 {
          return Failed, calls;
        }
        attempt := attempt + 1;
      }
    }
    return Complete, calls;
  }
}
