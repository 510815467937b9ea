/** The normaliser's loops, refining the fold. */
module Normalizer {
  import opened Common
  import opened LogNumbering
  import opened Normalize

  method RenumberLogs(logs: seq<Log>, k: Counters) returns (out: seq<Log>, dirty: bool)
    ensures out == Renumber(logs, k)
    ensures dirty <==> out != logs
  {
    out, dirty := logs, false;
    ghost var target := Renumber(logs, k);
    for j := 0 to |logs|
      invariant |out| == |logs|
      invariant out[..j] == target[..j] && out[j..] == logs[j..]
      invariant dirty <==> exists i :: 0 <= i < j && out[i] != logs[i]
    {
      ghost var before := out;
      if out[j].txIndex != U64(k.tx) {
        out := out[j := out[j].(txIndex := U64(k.tx))];
        dirty := true;
      }
      if out[j].index != U64(k.log + j) {
        out := out[j := out[j].(index := U64(k.log + j))];
        dirty := true;
      }
      assert out[j] == target[j];
      assert forall i :: 0 <= i < j ==> out[i] == before[i];
    }
    assert out[..|logs|] == out && target[..|logs|] == target;
  }

  method NormalizeMessages(c: Codec, messages: seq<Message>, k: Counters) returns (r: Option<Messages>)
    ensures r == RewriteMessages(c, messages, k)
  {
    var done := Messages([], k, false);
    for i := 0 to |messages|
      invariant RewriteMessages(c, messages[..i], k) == Some(done)
    {
      var m := messages[i];
      assert messages[..i + 1][..i] == messages[..i];
      if !m.ethereum {
        done := done.(messages := done.messages + [m]);
        continue;
      }
      var response := c.decodeResponse(m.value);
      if response.None? {
        MessagesReadable(c, messages[..i + 1], k);
        MessagesReadable(c, messages, k);
        assert messages[i] in messages && !Readable(c, messages[i]);
        return None;
      }
      var logs, dirty := RenumberLogs(response.value.logs, done.after);
      if dirty {
        m := m.(value := c.encodeResponse(response.value.(logs := logs)));
      }
      done := Messages(done.messages + [m],
                       Counters(done.after.tx + 1, done.after.log + |response.value.logs|),
                       done.dirty || dirty);
    }
    assert messages[..|messages|] == messages;
    r := Some(done);
  }

  method CountEthereumEvents(events: seq<bool>) returns (count: nat)
    ensures count == CountTrue(events)
    ensures count == |TrueAt(events)|
  {
    TrueCounted(events);
    count := 0;
    for i := 0 to |events|
      invariant count == CountTrue(events[..i])
    {
      assert events[..i + 1][..i] == events[..i];
      if events[i] {
        count := count + 1;
      }
    }
    assert events[..|events|] == events;
  }

  method NormalizeResult(c: Codec, r: TxResult, k: Counters) returns (out: Option<(TxResult, Counters)>)
    ensures out == RewriteResult(c, r, k)
  {
    var count := CountEthereumEvents(r.ethereumEvents);
    if r.inferred > count {
      count := r.inferred;
    }
    if !r.ok || r.data == [] {
      return Some((r, k.(tx := k.tx + count)));
    }
    var payload := c.decodePayload(r.data);
    if payload.None? {
      return None;
    }
    var m := NormalizeMessages(c, payload.value.messages, k);
    if m.None? {
      return None;
    }
    var after := m.value.after;
    var seen := after.tx - k.tx;
    if seen < count {
      after := after.(tx := after.tx + (count - seen));
    }
    var result := r;
    if m.value.dirty {
      result := r.(data := c.encodePayload(payload.value.(messages := m.value.messages)));
    }
    out := Some((result, after));
  }

  /** Works on a copy, in place; the caller's results are left alone. */
  method NormalizeTxResponseIndexes(c: Codec, input: array<Option<TxResult>>)
    returns (failed: bool, normalized: array<Option<TxResult>>)
    ensures fresh(normalized)
    ensures failed <==> Rewrite(c, input[..]).None?
    ensures !failed ==> normalized[..] == Rewrite(c, input[..]).value.0
  {
    failed := false;
    normalized := new Option<TxResult>[input.Length](i requires 0 <= i < input.Length reads input => input[i]);
    var k := Counters(0, 0);
    var i := 0;
    while i < input.Length
      invariant i <= input.Length && normalized.Length == input.Length
      invariant Rewrite(c, input[..i]) == Some((normalized[..i], k))
      invariant forall j :: i <= j < input.Length ==> normalized[j] == input[j]
    {
      assert input[..i + 1][..i] == input[..i];
      if normalized[i].Some? {
        var r := NormalizeResult(c, normalized[i].value, k);
        if r.None? {
          ResultDecodes(c, input[i].value, k);
          SucceedsExactly(c, input[..]);
          assert input[i] in input[..];
          return true, normalized;
        }
        ghost var before := normalized[..i];
        normalized[i] := Some(r.value.0);
        k := r.value.1;
        assert normalized[..i] == before;
      }
      assert normalized[..i + 1] == normalized[..i] + [normalized[i]];
      i := i + 1;
    }
    assert input[..i] == input[..] && normalized[..i] == normalized[..];
  }
}
