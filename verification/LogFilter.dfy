/**
 Log filters over cached block logs: matching fused into decoding, against
 decoding everything and filtering afterwards.
 */
module LogFilter {
  import opened Common
  import opened VirtualLogs

  datatype Criteria = Criteria(addresses: seq<Address>, topics: seq<seq<Hash>>)

  // ---------- brute force ----------

  /** Each position lists alternatives; an empty list accepts anything, and positions beyond the log's topics fail. */
  predicate TopicsMatch(have: seq<Hash>, topics: seq<seq<Hash>>) {
    |topics| <= |have| && forall i :: 0 <= i < |topics| ==> topics[i] == [] || have[i] in topics[i]
  }

  predicate LogMatches(log: RpcLog, c: Criteria) {
    (c.addresses == [] || log.address in c.addresses) && TopicsMatch(log.topics, c.topics)
  }

  function Matching(logs: seq<RpcLog>, c: Criteria): seq<RpcLog> {
    if logs == [] then []
    else
      var last := logs[|logs| - 1];
      Matching(logs[..|logs| - 1], c) + if LogMatches(last, c) then [last] else []
  }

  lemma {:induction false} MatchingExact(logs: seq<RpcLog>, c: Criteria, log: RpcLog)
    ensures log in Matching(logs, c) <==> log in logs && LogMatches(log, c)
  {
    if logs != [] {
      MatchingExact(logs[..|logs| - 1], c, log);
      assert logs == logs[..|logs| - 1] + [logs[|logs| - 1]];
    }
  }

  /** The matches are the logs at some positions, in their order: those whose address and topics are asked for. */
  lemma {:induction false} MatchingIs(logs: seq<RpcLog>, c: Criteria) returns (at: seq<nat>)
    ensures Increasing(at)
    ensures forall i: nat :: i in at <==>
              && i < |logs|
              && (c.addresses == [] || logs[i].address in c.addresses)
              && |c.topics| <= |logs[i].topics|
              && forall j :: 0 <= j < |c.topics| ==> c.topics[j] == [] || logs[i].topics[j] in c.topics[j]
    ensures |Matching(logs, c)| == |at|
    ensures forall k :: 0 <= k < |at| ==> at[k] < |logs| && Matching(logs, c)[k] == logs[at[k]]
  {
    if logs == [] {
      at := [];
    } else {
      var n := |logs| - 1;
      var before := MatchingIs(logs[..n], c);
      at := before;
      if LogMatches(logs[n], c) {
        IncreasingSnoc(before, n);
        at := before + [n];
      }
    }
  }

  // ---------- stored records ----------

  /** A Cap'n Proto log struct: an absent pointer field is `None`. */
  datatype Record = Record(
    address: Option<Bytes>, topics: Option<seq<Bytes>>, data: Option<Bytes>,
    blockNumber: u64, txHash: Option<Bytes>, txIndex: nat, blockHash: Option<Bytes>, index: nat,
    removed: bool, isVirtual: bool, cosmosHash: Option<Bytes>, cosmosMsgIndex: u64, cosmosMsgIndexPresent: bool)

  /** A stored block: groups may be absent, and so may a group's log list. */
  type Stored = Option<seq<Option<seq<Record>>>>

  const BLANK: Record := Record(None, None, None, 0, None, 0, None, 0, false, false, None, 0, false)

  function Encode(log: RpcLog): Record {
    Record(Some(log.address), Some(seq(|log.topics|, i requires 0 <= i < |log.topics| => log.topics[i])),
           Some(log.data),
           log.blockNumber, Some(log.txHash), log.txIndex, Some(log.blockHash), log.index, log.removed, log.isVirtual,
           if log.cosmosHash.Some? then Some(log.cosmosHash.value) else None,
           if log.cosmosMsgIndex.Some? then log.cosmosMsgIndex.value else 0, log.cosmosMsgIndex.Some?)
  }

  /** A nil log leaves its record blank. */
  function EncodeSlot(log: Option<RpcLog>): Record {
    if log.None? then BLANK else Encode(log.value)
  }

  function HashOf(field: Option<Bytes>): Hash {
    if field.None? then ZERO_HASH else BytesToHash(field.value)
  }

  function TopicsOf(r: Record): seq<Hash> {
    if r.topics.None? then []
    else seq(|r.topics.value|, i requires 0 <= i < |r.topics.value| => BytesToHash(r.topics.value[i]))
  }

  function AddressOf(r: Record): Address {
    if r.address.None? then ZERO_ADDRESS else BytesToAddress(r.address.value)
  }

  function Decode(r: Record): RpcLog {
    RpcLog(AddressOf(r), TopicsOf(r), if r.data.None? then [] else r.data.value,
           r.blockNumber, HashOf(r.txHash), r.txIndex, HashOf(r.blockHash), r.index, r.removed, r.isVirtual,
           if r.cosmosHash.None? then None else Some(HashOf(r.cosmosHash)),
           if r.cosmosMsgIndexPresent then Some(r.cosmosMsgIndex) else None)
  }

  lemma {:induction false} HashRoundTrip(h: Hash)
    ensures BytesToHash(h) == h
  {
    assert h[0..] == h;
  }

  lemma {:induction false} AddressRoundTrip(a: Address)
    ensures BytesToAddress(a) == a
  {
    assert a[0..] == a;
  }

  /** What is stored of a log is the log. */
  lemma {:induction false} LogRoundTrip(log: RpcLog)
    ensures Decode(Encode(log)) == log
  {
    AddressRoundTrip(log.address);
    HashRoundTrip(log.txHash);
    HashRoundTrip(log.blockHash);
    if log.cosmosHash.Some? {
      HashRoundTrip(log.cosmosHash.value);
    }
    forall i | 0 <= i < |log.topics| ensures BytesToHash(log.topics[i]) == log.topics[i] {
      HashRoundTrip(log.topics[i]);
    }
    assert TopicsOf(Encode(log)) == log.topics;
  }

  // ---------- matching before decoding ----------

  predicate RecordMatches(r: Record, c: Criteria) {
    && (c.addresses == [] || (r.address.Some? && AddressOf(r) in c.addresses))
    && (c.topics == [] || (r.topics.Some? && TopicsMatch(TopicsOf(r), c.topics)))
  }

  /** A record without an address that the decoded log's zero address would let through. */
  predicate Overlooked(r: Record, c: Criteria) {
    r.address.None? && ZERO_ADDRESS in c.addresses && TopicsMatch(TopicsOf(r), c.topics)
  }

  /** Matching the record is matching the decoded log, except exactly for overlooked records. */
  lemma {:induction false} RecordMatchesExactly(r: Record, c: Criteria)
    ensures RecordMatches(r, c) == LogMatches(Decode(r), c) <==> !Overlooked(r, c)
    ensures Overlooked(r, c) ==> !RecordMatches(r, c) && LogMatches(Decode(r), c)
  {
  }

  function RecordsOf(stored: Stored): seq<Record> {
    if stored.None? then [] else FlattenPresent(stored.value)
  }

  function FlattenPresent(groups: seq<Option<seq<Record>>>): seq<Record> {
    if groups == [] then []
    else
      var last := groups[|groups| - 1];
      FlattenPresent(groups[..|groups| - 1]) + if last.None? then [] else last.value
  }

  function DecodeAll(records: seq<Record>): seq<RpcLog> {
    if records == [] then [] else DecodeAll(records[..|records| - 1]) + [Decode(records[|records| - 1])]
  }

  function Fused(records: seq<Record>, c: Criteria): seq<RpcLog> {
    if records == [] then []
    else
      var last := records[|records| - 1];
      Fused(records[..|records| - 1], c) + if RecordMatches(last, c) then [Decode(last)] else []
  }

  function OverlookedCount(records: seq<Record>, c: Criteria): nat {
    if records == [] then 0
    else OverlookedCount(records[..|records| - 1], c) + if Overlooked(records[|records| - 1], c) then 1 else 0
  }

  /**
   Filtering while decoding returns what decoding, flattening and filtering
   would, short of exactly the overlooked records; so the two are equal if and
   only if there is none.
   */
  lemma {:induction false} FusedIsBruteForce(records: seq<Record>, c: Criteria)
    ensures |Matching(DecodeAll(records), c)| == |Fused(records, c)| + OverlookedCount(records, c)
    ensures Fused(records, c) == Matching(DecodeAll(records), c) <==> OverlookedCount(records, c) == 0
  {
    hide Decode, RecordMatches, LogMatches, Overlooked;
    if records != [] {
      var n := |records| - 1;
      FusedIsBruteForce(records[..n], c);
      RecordMatchesExactly(records[n], c);
      var init := DecodeAll(records[..n]);
      assert (init + [Decode(records[n])])[..|init|] == init;
    }
  }

  lemma {:induction false} NoneOverlooked(records: seq<Record>, c: Criteria)
    ensures OverlookedCount(records, c) == 0 <==> forall r :: r in records ==> !Overlooked(r, c)
  {
    hide Overlooked;
    if records != [] {
      var n := |records| - 1;
      NoneOverlooked(records[..n], c);
      assert records == records[..n] + [records[n]];
      assert records[n] in records;
    }
  }

  /** On any stored records the fused filter is brute force if and only if no record is overlooked. */
  lemma {:induction false} FusedIffNoneOverlooked(records: seq<Record>, c: Criteria)
    ensures Fused(records, c) == Matching(DecodeAll(records), c) <==> forall r :: r in records ==> !Overlooked(r, c)
  {
    hide Overlooked, Fused, Matching, DecodeAll;
    FusedIsBruteForce(records, c);
    NoneOverlooked(records, c);
  }

  function EncodeSlots(logs: seq<Option<RpcLog>>): seq<Record> {
    if logs == [] then [] else EncodeSlots(logs[..|logs| - 1]) + [EncodeSlot(logs[|logs| - 1])]
  }

  lemma {:induction false} SlotOverlooked(log: Option<RpcLog>, c: Criteria)
    ensures Overlooked(EncodeSlot(log), c) <==> log.None? && ZERO_ADDRESS in c.addresses && c.topics == []
  {
  }

  lemma {:induction false} OverlookedSnoc(records: seq<Record>, r: Record, c: Criteria)
    ensures OverlookedCount(records + [r], c) == OverlookedCount(records, c) + if Overlooked(r, c) then 1 else 0
  {
    hide Overlooked;
    assert (records + [r])[..|records|] == records;
  }

  lemma {:induction false} EncodedSlotsHave(logs: seq<Option<RpcLog>>, c: Criteria)
    ensures OverlookedCount(EncodeSlots(logs), c) == 0 <==>
            ZERO_ADDRESS !in c.addresses || c.topics != [] || None !in logs
  {
    hide Overlooked, EncodeSlot;
    if logs != [] {
      var n := |logs| - 1;
      EncodedSlotsHave(logs[..n], c);
      OverlookedSnoc(EncodeSlots(logs[..n]), EncodeSlot(logs[n]), c);
      SlotOverlooked(logs[n], c);
      assert logs == logs[..n] + [logs[n]];
    }
  }

  /**
   For the logs of a block as they were stored, nil entries included: the
   fused filter is brute force unless a nil entry meets a filter that names
   the zero address and no topic.
   */
  lemma {:induction false} StoredLogsFilterExactly(logs: seq<Option<RpcLog>>, c: Criteria)
    ensures Fused(EncodeSlots(logs), c) == Matching(DecodeAll(EncodeSlots(logs)), c) <==>
            ZERO_ADDRESS !in c.addresses || c.topics != [] || None !in logs
  {
    FusedIsBruteForce(EncodeSlots(logs), c);
    EncodedSlotsHave(logs, c);
  }

  // ---------- the loops ----------

  method Contains<T(==)>(list: seq<T>, x: T) returns (found: bool)
    ensures found <==> x in list
  {
    for i := 0 to |list|
      invariant x !in list[..i]
    {
      if list[i] == x {
        return true;
      }
    }
    return false;
  }

  /** `None` is a nil log. */
  method MatchLog(log: Option<RpcLog>, c: Criteria) returns (matched: bool)
    ensures matched <==> log.Some? && LogMatches(log.value, c)
  {
    if log.None? {
      return false;
    }
    if |c.addresses| > 0 {
      var known := Contains(c.addresses, log.value.address);
      if !known {
        return false;
      }
    }
    if |c.topics| > |log.value.topics| {
      return false;
    }
    for i := 0 to |c.topics|
      invariant forall j :: 0 <= j < i ==> c.topics[j] == [] || log.value.topics[j] in c.topics[j]
    {
      var known := Contains(c.topics[i], log.value.topics[i]);
      if |c.topics[i]| != 0 && !known {
        return false;
      }
    }
    return true;
  }

  /** Decodes only the fields the filter looks at. */
  method MatchRecord(r: Record, c: Criteria) returns (matched: bool)
    ensures matched <==> RecordMatches(r, c)
  {
    if |c.addresses| > 0 {
      if r.address.None? {
        return false;
      }
      var known := Contains(c.addresses, BytesToAddress(r.address.value));
      if !known {
        return false;
      }
    }
    if |c.topics| == 0 {
      return true;
    }
    if r.topics.None? || |c.topics| > |r.topics.value| {
      return false;
    }
    for i := 0 to |c.topics|
      invariant forall j :: 0 <= j < i ==> c.topics[j] == [] || TopicsOf(r)[j] in c.topics[j]
    {
      if |c.topics[i]| == 0 {
        continue;
      }
      var known := Contains(c.topics[i], BytesToHash(r.topics.value[i]));
      if !known {
        return false;
      }
    }
    return true;
  }

  lemma {:induction false} FusedAppend(a: seq<Record>, b: seq<Record>, c: Criteria)
    ensures Fused(a + b, c) == Fused(a, c) + Fused(b, c)
  {
    hide RecordMatches, Decode;
    if b == [] {
      assert a + b == a;
    } else {
      var n := |b| - 1;
      FusedAppend(a, b[..n], c);
      assert (a + b)[..|a| + n] == a + b[..n];
    }
  }

  method FilterGroup(records: seq<Record>, c: Criteria) returns (out: seq<RpcLog>)
    ensures out == Fused(records, c)
  {
    hide RecordMatches, Decode;
    out := [];
    for j := 0 to |records|
      invariant out == Fused(records[..j], c)
    {
      assert records[..j + 1][..j] == records[..j];
      var matched := MatchRecord(records[j], c);
      if matched {
        out := out + [Decode(records[j])];
      }
    }
    assert records[..|records|] == records;
  }

  /** Walks the stored groups in order, decoding only what matches. */
  method FilteredBlockLogs(stored: Stored, c: Criteria) returns (out: seq<RpcLog>)
    ensures out == Fused(RecordsOf(stored), c)
    ensures OverlookedCount(RecordsOf(stored), c) == 0 ==> out == Matching(DecodeAll(RecordsOf(stored)), c)
  {
    hide RecordMatches, Decode, Overlooked, Matching, DecodeAll;
    out := [];
    FusedIsBruteForce(RecordsOf(stored), c);
    if stored.None? {
      return;
    }
    var groups := stored.value;
    for i := 0 to |groups|
      invariant out == Fused(FlattenPresent(groups[..i]), c)
    {
      assert groups[..i + 1][..i] == groups[..i];
      var records := if groups[i].None? then [] else groups[i].value;
      FusedAppend(FlattenPresent(groups[..i]), records, c);
      if groups[i].Some? {
        var more := FilterGroup(records, c);
        out := out + more;
      }
    }
    assert groups[..|groups|] == groups;
  }
}
