/**
 Log queries over a range of blocks or one block, skipping blocks by their
 bloom filter. A bloom is the set of its bits, and `bits` gives the bits of
 an address or topic.
 */
module LogQuery {
  import opened Common
  import opened VirtualLogs
  import opened LogFilter

  type Bloom = set<nat>

  // ---------- blooms ----------

  function TopicBits(bits: Bytes -> Bloom, topics: seq<Hash>): Bloom {
    if topics == [] then {} else TopicBits(bits, topics[..|topics| - 1]) + bits(topics[|topics| - 1])
  }

  function BloomOf(bits: Bytes -> Bloom, logs: seq<RpcLog>): Bloom {
    if logs == [] then {}
    else
      var last := logs[|logs| - 1];
      BloomOf(bits, logs[..|logs| - 1]) + bits(last.address) + TopicBits(bits, last.topics)
  }

  predicate Lookup(bits: Bytes -> Bloom, bloom: Bloom, x: Bytes) {
    bits(x) <= bloom
  }

  predicate Admits(bits: Bytes -> Bloom, bloom: Bloom, c: Criteria) {
    && (c.addresses == [] || exists a :: a in c.addresses && Lookup(bits, bloom, a))
    && forall i :: 0 <= i < |c.topics| ==> AdmitsTopic(bits, bloom, c.topics[i])
  }

  predicate AdmitsTopic(bits: Bytes -> Bloom, bloom: Bloom, sub: seq<Hash>) {
    sub == [] || exists t :: t in sub && Lookup(bits, bloom, t)
  }

  lemma {:induction false} TopicInBloom(bits: Bytes -> Bloom, topics: seq<Hash>, t: Hash)
    requires t in topics
    ensures bits(t) <= TopicBits(bits, topics)
  {
    var n := |topics| - 1;
    if t != topics[n] {
      assert topics == topics[..n] + [topics[n]];
      TopicInBloom(bits, topics[..n], t);
    }
  }

  lemma {:induction false} LogInBloom(bits: Bytes -> Bloom, logs: seq<RpcLog>, log: RpcLog)
    requires log in logs
    ensures bits(log.address) + TopicBits(bits, log.topics) <= BloomOf(bits, logs)
  {
    var n := |logs| - 1;
    if log != logs[n] {
      assert logs == logs[..n] + [logs[n]];
      LogInBloom(bits, logs[..n], log);
    }
  }

  lemma {:induction false} TopicBitsExact(bits: Bytes -> Bloom, topics: seq<Hash>, x: nat)
    ensures x in TopicBits(bits, topics) <==> exists t :: t in topics && x in bits(t)
  {
    if topics != [] {
      var n := |topics| - 1;
      TopicBitsExact(bits, topics[..n], x);
      assert topics == topics[..n] + [topics[n]];
      assert topics[n] in topics;
    }
  }

  /** A bit of the logs' bloom is a bit of some log's address or of one of its topics. */
  lemma {:induction false} BloomExact(bits: Bytes -> Bloom, logs: seq<RpcLog>, x: nat)
    ensures x in BloomOf(bits, logs) <==>
            exists log :: log in logs && (x in bits(log.address) || exists t :: t in log.topics && x in bits(t))
  {
    if logs != [] {
      var n := |logs| - 1;
      BloomExact(bits, logs[..n], x);
      TopicBitsExact(bits, logs[n].topics, x);
      assert logs == logs[..n] + [logs[n]];
      assert logs[n] in logs;
    }
  }

  lemma {:induction false} MatchIsAdmitted(
      bits: Bytes -> Bloom, bloom: Bloom, logs: seq<RpcLog>, log: RpcLog, c: Criteria)
    requires log in logs && LogMatches(log, c) && BloomOf(bits, logs) <= bloom
    ensures Admits(bits, bloom, c)
  {
    LogInBloom(bits, logs, log);
    assert Lookup(bits, bloom, log.address);
    forall i | 0 <= i < |c.topics| ensures AdmitsTopic(bits, bloom, c.topics[i]) {
      if c.topics[i] != [] {
        TopicInBloom(bits, log.topics, log.topics[i]);
        assert Lookup(bits, bloom, log.topics[i]);
      }
    }
  }

  /** A block whose bloom covers all its logs and is not admitted holds no match: skipping it loses nothing. */
  lemma {:induction false} SkippingIsSound(bits: Bytes -> Bloom, bloom: Bloom, logs: seq<RpcLog>, c: Criteria)
    requires BloomOf(bits, logs) <= bloom && !Admits(bits, bloom, c)
    ensures Matching(logs, c) == []
  {
    var found := Matching(logs, c);
    if found != [] {
      MatchingExact(logs, c, found[0]);
      MatchIsAdmitted(bits, bloom, logs, found[0], c);
    }
  }

  method BloomFilter(bits: Bytes -> Bloom, bloom: Bloom, c: Criteria) returns (ok: bool)
    ensures ok <==> Admits(bits, bloom, c)
    ensures ok <==>
            && (c.addresses == [] || exists a :: a in c.addresses && bits(a) <= bloom)
            && forall i :: 0 <= i < |c.topics| ==>
                 c.topics[i] == [] || exists t :: t in c.topics[i] && bits(t) <= bloom
  {
    if |c.addresses| > 0 {
      var included := AnyIncluded(bits, bloom, c.addresses);
      if !included {
        return false;
      }
    }
    for i := 0 to |c.topics|
      invariant forall j :: 0 <= j < i ==> AdmitsTopic(bits, bloom, c.topics[j])
    {
      if |c.topics[i]| > 0 {
        var included := AnyIncluded(bits, bloom, c.topics[i]);
        if !included {
          assert !AdmitsTopic(bits, bloom, c.topics[i]);
          return false;
        }
      }
    }
    return true;
  }

  method AnyIncluded(bits: Bytes -> Bloom, bloom: Bloom, items: seq<Bytes>) returns (included: bool)
    ensures included <==> exists x :: x in items && Lookup(bits, bloom, x)
  {
    for i := 0 to |items|
      invariant forall x :: x in items[..i] ==> !Lookup(bits, bloom, x)
    {
      if Lookup(bits, bloom, items[i]) {
        assert items[i] in items;
        return true;
      }
    }
    assert items[..|items|] == items;
    return false;
  }

  // ---------- range queries ----------

  datatype QueryError =
    | HeadFailed | HeaderFailed | TooWide | TooMany
    | BloomFailed(height: int) | LogsFailed(height: int)

  /** The node as a query sees it; an absent header is `None`. */
  datatype Backend = Backend(
    head: Result<Option<int>, ()>,
    bloomAt: int -> Result<Bloom, ()>,
    logsAt: int -> Result<seq<RpcLog>, ()>)

  const MAX_TO_OVERHANG := 600

  /** The chain's blocks have the logs of `chain`: blooms cover them, and filtered logs are their matches. */
  ghost predicate Honest(b: Backend, bits: Bytes -> Bloom, chain: int -> seq<RpcLog>, c: Criteria) {
    forall h :: HonestAt(b, bits, chain, c, h)
  }

  ghost predicate HonestAt(b: Backend, bits: Bytes -> Bloom, chain: int -> seq<RpcLog>, c: Criteria, h: int) {
    && (b.bloomAt(h).Ok? ==> BloomOf(bits, chain(h)) <= b.bloomAt(h).value)
    && (b.logsAt(h).Ok? ==> b.logsAt(h).value == Matching(chain(h), c))
  }

  /** Every match in the blocks from `lo` up to but excluding `hi`, in block order. */
  ghost function Matches(chain: int -> seq<RpcLog>, c: Criteria, lo: int, hi: int): seq<RpcLog>
    decreases hi - lo
  {
    if hi <= lo then [] else Matches(chain, c, lo, hi - 1) + Matching(chain(hi - 1), c)
  }

  /** Whether a height can be answered: its bloom, and unless skipped its logs. */
  predicate Served(b: Backend, bits: Bytes -> Bloom, c: Criteria, h: int) {
    b.bloomAt(h).Ok? && (Admits(bits, b.bloomAt(h).value, c) ==> b.logsAt(h).Ok?)
  }

  /** Whether a height's logs are looked at. */
  predicate Admitted(b: Backend, bits: Bytes -> Bloom, c: Criteria, h: int) {
    b.bloomAt(h).Ok? && Admits(bits, b.bloomAt(h).value, c)
  }

  /**
   When a scan can be answered: every height can, and the matches fit the limit,
   which is not looked at while skipping.
   */
  ghost predicate Answerable(
      b: Backend, bits: Bytes -> Bloom, c: Criteria, chain: int -> seq<RpcLog>, lo: int, hi: int, logLimit: int)
  {
    && (forall h :: lo <= h < hi ==> Served(b, bits, c, h))
    && (|Matches(chain, c, lo, hi)| <= logLimit || forall h :: lo <= h < hi ==> !Admitted(b, bits, c, h))
  }

  function Clamp(bound: int, head: int): int {
    if bound < 0 then head else if bound == 0 then 1 else bound
  }

  lemma {:induction false} MatchesGrow(chain: int -> seq<RpcLog>, c: Criteria, lo: int, mid: int, hi: int)
    requires mid <= hi
    ensures |Matches(chain, c, lo, mid)| <= |Matches(chain, c, lo, hi)|
    decreases hi - mid
  {
    if mid < hi {
      MatchesGrow(chain, c, lo, mid, hi - 1);
    }
  }

  /** One height of the scan gives exactly its block's matches. */
  lemma {:induction false} HeightIsExact(
      b: Backend, bits: Bytes -> Bloom, chain: int -> seq<RpcLog>, c: Criteria, h: int)
    requires HonestAt(b, bits, chain, c, h) && Served(b, bits, c, h)
    ensures Matching(chain(h), c) == if Admits(bits, b.bloomAt(h).value, c) then b.logsAt(h).value else []
  {
    if !Admits(bits, b.bloomAt(h).value, c) {
      SkippingIsSound(bits, b.bloomAt(h).value, chain(h), c);
    }
  }

  /** If every height is answered and none is looked at, nothing matches. */
  lemma {:induction false} NothingAdmitted(
      b: Backend, bits: Bytes -> Bloom, c: Criteria, chain: int -> seq<RpcLog>, lo: int, hi: int)
    requires Honest(b, bits, chain, c)
    requires forall h :: lo <= h < hi ==> Served(b, bits, c, h) && !Admitted(b, bits, c, h)
    ensures Matches(chain, c, lo, hi) == []
    decreases hi - lo
  {
    hide Admits, Matching;
    if lo < hi {
      NothingAdmitted(b, bits, c, chain, lo, hi - 1);
      assert HonestAt(b, bits, chain, c, hi - 1) && !Admitted(b, bits, c, hi - 1);
      HeightIsExact(b, bits, chain, c, hi - 1);
    }
  }

  /**
   Scans the heights in order. It returns all matches or an error, never a
   shortened list: it succeeds exactly when every height can be answered and
   the matches do not exceed the limit (which is looked at only where the
   bloom does not let a block be skipped).
   */
  method ScanRange(
      b: Backend, bits: Bytes -> Bloom, c: Criteria, from: int, to: int, logLimit: int,
      ghost chain: int -> seq<RpcLog>)
    returns (r: Result<seq<RpcLog>, QueryError>)
    ensures Honest(b, bits, chain, c) ==>
              && (r.Ok? ==> r.value == Matches(chain, c, from, to + 1))
              && (r.Ok? <==> Answerable(b, bits, c, chain, from, to + 1, logLimit))
  {
    hide Admits, BloomOf, Matching, HonestAt;
    var logs: seq<RpcLog> := [];
    var height := from;
    while height <= to
      invariant height == from || from <= height <= to + 1
      invariant forall h :: from <= h < height ==> Served(b, bits, c, h)
      invariant |logs| <= logLimit || forall h :: from <= h < height ==> !Admitted(b, bits, c, h)
      invariant Honest(b, bits, chain, c) ==> logs == Matches(chain, c, from, height)
    {
      var bloom := b.bloomAt(height);
      if bloom.Err? {
        assert !Served(b, bits, c, height);
        return Err(BloomFailed(height));
      }
      var admitted := BloomFilter(bits, bloom.value, c);
      if admitted {
        var filtered := b.logsAt(height);
        if filtered.Err? {
          assert !Served(b, bits, c, height);
          return Err(LogsFailed(height));
        }
        assert Admitted(b, bits, c, height);
        if |logs| + |filtered.value| > logLimit {
          if Honest(b, bits, chain, c) {
            assert HonestAt(b, bits, chain, c, height) && Served(b, bits, c, height);
            HeightIsExact(b, bits, chain, c, height);
            MatchesGrow(chain, c, from, height + 1, to + 1);
          }
          return Err(TooMany);
        }
        logs := logs + filtered.value;
      }
      assert Served(b, bits, c, height) && Admitted(b, bits, c, height) == admitted;
      if Honest(b, bits, chain, c) {
        assert HonestAt(b, bits, chain, c, height);
        HeightIsExact(b, bits, chain, c, height);
      }
      height := height + 1;
    }
    if Honest(b, bits, chain, c) && from > to {
      assert Matches(chain, c, from, to + 1) == [];
    }
    r := Ok(logs);
  }

  /** A range query: bounds resolved against the head, width checked, overhang cut, then the scan. */
  method RangeLogs(
      b: Backend, bits: Bytes -> Bloom, c: Criteria, fromBlock: int, toBlock: int, logLimit: int, blockLimit: int,
      ghost chain: int -> seq<RpcLog>)
    returns (r: Result<seq<RpcLog>, QueryError>)
    ensures b.head.Err? ==> r == Err(HeadFailed)
    ensures b.head == Ok(None) ==> r == Ok([])
    ensures Honest(b, bits, chain, c) && b.head.Ok? && b.head.value.Some? ==>
              var head := b.head.value.value;
              var from := if fromBlock < 0 then head else if fromBlock == 0 then 1 else fromBlock;
              var to := if toBlock < 0 then head else if toBlock == 0 then 1 else toBlock;
              var last := if to > head + 600 then head + 600 else to;
              if to - from > blockLimit then r == Err(TooWide)
              else if from > head then r == Ok([])
              else
                && (r.Ok? ==> r.value == Matches(chain, c, from, last + 1))
                && (r.Ok? <==> Answerable(b, bits, c, chain, from, last + 1, logLimit))
  {
    if b.head.Err? {
      return Err(HeadFailed);
    }
    if b.head.value.None? {
      return Ok([]);
    }
    var head := b.head.value.value;
    var from, to := Clamp(fromBlock, head), Clamp(toBlock, head);
    if to - from > blockLimit {
      return Err(TooWide);
    }
    if from > head {
      return Ok([]);
    } else if to > head + MAX_TO_OVERHANG {
      to := head + MAX_TO_OVERHANG;
    }
    r := ScanRange(b, bits, c, from, to, logLimit, chain);
  }

  // ---------- one block by hash ----------

  /**
   A query for one block. It is exact when the bloom can be read; when it
   cannot, the answer is an empty list without an error, which is right only
   if the block has no match.
   */
  method BlockLogs(
      b: Backend, bits: Bytes -> Bloom, c: Criteria, header: Result<Option<int>, ()>, byHash: Result<seq<RpcLog>, ()>,
      ghost chain: int -> seq<RpcLog>)
    returns (r: Result<seq<RpcLog>, QueryError>)
    ensures header.Err? ==> r == Err(HeaderFailed)
    ensures header == Ok(None) ==> r == Ok([])
    ensures header.Ok? && header.value.Some? && b.bloomAt(header.value.value).Err? ==> r == Ok([])
    ensures Honest(b, bits, chain, c) && header.Ok? && header.value.Some? && byHash == b.logsAt(header.value.value) ==>
              var h := header.value.value;
              && (r.Err? <==> b.bloomAt(h).Ok? && !Served(b, bits, c, h))
              && (r.Ok? ==> (r.value == Matching(chain(h), c) <==> b.bloomAt(h).Ok? || Matching(chain(h), c) == []))
  {
    if header.Err? {
      return Err(HeaderFailed);
    }
    if header.value.None? {
      return Ok([]);
    }
    var h := header.value.value;
    if Honest(b, bits, chain, c) {
      assert HonestAt(b, bits, chain, c, h);
      if Served(b, bits, c, h) {
        HeightIsExact(b, bits, chain, c, h);
      }
    }
    var bloom := b.bloomAt(h);
    if bloom.Err? {
      return Ok([]);
    }
    var admitted := BloomFilter(bits, bloom.value, c);
    if !admitted {
      return Ok([]);
    }
    if byHash.Err? {
      return Err(LogsFailed(h));
    }
    r := Ok(byHash.value);
  }
}
