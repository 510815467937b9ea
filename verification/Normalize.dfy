/**
 Renumbering of the logs inside a block's transaction results: protobuf
 payloads are decoded, log and transaction indexes rewritten with two running
 counters, and a payload re-encoded only when something in it changed.
 */
module Normalize {
  import opened Common
  import opened LogNumbering

  /** A decoded `MsgEthereumTxResponse`; `rest` stands for its other fields. */
  datatype Response = Response(logs: seq<Log>, rest: Bytes)

  /** One message response; `ethereum` is the comparison of its type URL. */
  datatype Message = Message(ethereum: bool, value: Bytes)

  datatype Payload = Payload(messages: seq<Message>, rest: Bytes)

  /** `inferred` is the count read from the log text of a failed transaction. */
  datatype TxResult = TxResult(ok: bool, data: Bytes, ethereumEvents: seq<bool>, inferred: nat, rest: Bytes)

  datatype Codec = Codec(
    decodePayload: Bytes -> Option<Payload>, encodePayload: Payload -> Bytes,
    decodeResponse: Bytes -> Option<Response>, encodeResponse: Response -> Bytes)

  /** What is assumed of protobuf: encoding is undone by decoding, and a payload with messages is not empty. */
  ghost predicate Lawful(c: Codec) {
    && (forall p :: c.decodePayload(c.encodePayload(p)) == Some(p))
    && (forall p: Payload :: p.messages != [] ==> c.encodePayload(p) != [])
    && (forall r :: c.decodeResponse(c.encodeResponse(r)) == Some(r))
  }

  // ---------- the rewrite as a fold ----------

  datatype Messages = Messages(messages: seq<Message>, after: Counters, dirty: bool)

  function RewriteMessages(c: Codec, messages: seq<Message>, k: Counters): Option<Messages> {
    if messages == [] then Some(Messages([], k, false))
    else
      var n := |messages| - 1;
      match RewriteMessages(c, messages[..n], k)
      case None => None
      case Some(done) => RewriteMessage(c, done, messages[n])
  }

  function RewriteMessage(c: Codec, done: Messages, m: Message): Option<Messages> {
    if !m.ethereum then Some(done.(messages := done.messages + [m]))
    else
      match c.decodeResponse(m.value)
      case None => None
      case Some(r) =>
        var renumbered := r.(logs := Renumber(r.logs, done.after));
        var k := Counters(done.after.tx + 1, done.after.log + |r.logs|);
        if renumbered == r then Some(Messages(done.messages + [m], k, done.dirty))
        else Some(Messages(done.messages + [m.(value := c.encodeResponse(renumbered))], k, true))
  }

  function CountTrue(flags: seq<bool>): nat {
    if flags == [] then 0 else CountTrue(flags[..|flags| - 1]) + if flags[|flags| - 1] then 1 else 0
  }

  function EthereumCount(r: TxResult): nat {
    Max(CountTrue(r.ethereumEvents), r.inferred)
  }

  function RewriteResult(c: Codec, r: TxResult, k: Counters): Option<(TxResult, Counters)> {
    var count := EthereumCount(r);
    if !r.ok || r.data == [] then Some((r, k.(tx := k.tx + count)))
    else
      match c.decodePayload(r.data)
      case None => None
      case Some(p) =>
        match RewriteMessages(c, p.messages, k)
        case None => None
        case Some(m) =>
          var after := m.after.(tx := Max(m.after.tx, k.tx + count));
          Some((if m.dirty then r.(data := c.encodePayload(p.(messages := m.messages))) else r, after))
  }

  function Rewrite(c: Codec, input: seq<Option<TxResult>>): Option<(seq<Option<TxResult>>, Counters)> {
    if input == [] then Some(([], Counters(0, 0)))
    else
      var n := |input| - 1;
      match Rewrite(c, input[..n])
      case None => None
      case Some((done, k)) =>
        if input[n].None? then Some((done + [None], k))
        else
          match RewriteResult(c, input[n].value, k)
          case None => None
          case Some((r, after)) => Some((done + [Some(r)], after))
  }

  // ---------- what it does to the decoded logs ----------

  function GroupOf(c: Codec, m: Message): Group {
    Group(m.ethereum,
          if m.ethereum && c.decodeResponse(m.value).Some? then c.decodeResponse(m.value).value.logs else [])
  }

  function GroupsOf(c: Codec, messages: seq<Message>): seq<Group> {
    if messages == [] then []
    else GroupsOf(c, messages[..|messages| - 1]) + [GroupOf(c, messages[|messages| - 1])]
  }

  function MessagesOf(c: Codec, r: TxResult): seq<Message> {
    if r.ok && r.data != [] && c.decodePayload(r.data).Some? then c.decodePayload(r.data).value.messages else []
  }

  ghost function TrueAt(flags: seq<bool>): set<nat> {
    set i: nat | i < |flags| && flags[i]
  }

  /** The transactions a result announces: the larger of its Ethereum events and what its log text lets infer. */
  ghost function Announced(r: TxResult): nat {
    var events := |TrueAt(r.ethereumEvents)|;
    if events < r.inferred then r.inferred else events
  }

  lemma {:induction false} TrueCounted(flags: seq<bool>)
    ensures CountTrue(flags) == |TrueAt(flags)|
  {
    if flags == [] {
      assert TrueAt(flags) == {};
    } else {
      var n := |flags| - 1;
      TrueCounted(flags[..n]);
      var before := TrueAt(flags[..n]);
      assert TrueAt(flags) == if flags[n] then before + {n} else before;
    }
  }

  lemma {:induction false} CountAnnounced(r: TxResult)
    ensures EthereumCount(r) == Announced(r)
  {
    TrueCounted(r.ethereumEvents);
  }

  /** A result without decoded responses moves the transaction counter by exactly what it announces. */
  lemma {:induction false} UndecodedAdvances(c: Codec, r: TxResult, k: Counters, n: nat)
    requires !r.ok || r.data == []
    ensures RewriteResult(c, r, k) == Some((r, k.(tx := k.tx + n))) <==> n == Announced(r)
  {
    hide EthereumCount, Announced;
    CountAnnounced(r);
  }

  ghost function PartOf(c: Codec, r: Option<TxResult>): Part {
    if r.None? then Part(0, []) else Part(Announced(r.value), GroupsOf(c, MessagesOf(c, r.value)))
  }

  ghost function PartsOf(c: Codec, results: seq<Option<TxResult>>): seq<Part> {
    if results == [] then []
    else PartsOf(c, results[..|results| - 1]) + [PartOf(c, results[|results| - 1])]
  }

  lemma {:induction false} MessageView(c: Codec, done: Messages, m: Message) returns (rewritten: Message)
    requires Lawful(c) && RewriteMessage(c, done, m).Some?
    ensures var next := RewriteMessage(c, done, m).value;
            var group := GroupOf(c, m);
            && next.messages == done.messages + [rewritten]
            && GroupOf(c, rewritten) == group.(logs := Renumber(group.logs, done.after))
            && next.after == Counters(done.after.tx + (if m.ethereum then 1 else 0), done.after.log + |group.logs|)
            && (!next.dirty ==> rewritten == m && !done.dirty)
  {
    rewritten := RewriteMessage(c, done, m).value.messages[|done.messages|];
  }

  lemma {:induction false} GroupsOfSnoc(c: Codec, messages: seq<Message>, m: Message)
    ensures GroupsOf(c, messages + [m]) == GroupsOf(c, messages) + [GroupOf(c, m)]
  {
    assert (messages + [m])[..|messages|] == messages;
  }

  /** Rewriting so far is numbering the decoded groups so far. */
  ghost predicate Viewed(c: Codec, init: seq<Message>, done: Messages, k: Counters) {
    && |done.messages| == |init|
    && GroupsOf(c, done.messages) == RenumberGroups(GroupsOf(c, init), k)
    && done.after == AfterGroups(GroupsOf(c, init), k)
    && (!done.dirty ==> done.messages == init)
  }

  lemma {:induction false} ViewedStep(
      c: Codec, init: seq<Message>, done: Messages, k: Counters, m: Message, next: Messages)
    requires Lawful(c) && Viewed(c, init, done, k) && RewriteMessage(c, done, m) == Some(next)
    ensures Viewed(c, init + [m], next, k)
  {
    var rewritten := MessageView(c, done, m);
    GroupsOfSnoc(c, init, m);
    GroupsOfSnoc(c, done.messages, rewritten);
    GroupsExtend(GroupsOf(c, init), GroupsOf(c, done.messages), done.after, GroupOf(c, m), GroupOf(c, rewritten), k);
  }

  lemma {:induction false} MessagesView(c: Codec, messages: seq<Message>, k: Counters)
    requires Lawful(c) && RewriteMessages(c, messages, k).Some?
    ensures Viewed(c, messages, RewriteMessages(c, messages, k).value, k)
  {
    if messages != [] {
      var n := |messages| - 1;
      MessagesView(c, messages[..n], k);
      ViewedStep(c, messages[..n], RewriteMessages(c, messages[..n], k).value, k, messages[n],
                 RewriteMessages(c, messages, k).value);
      assert messages == messages[..n] + [messages[n]];
    }
  }

  lemma {:induction false} ResultMessages(c: Codec, r: TxResult, k: Counters)
    requires Lawful(c) && RewriteResult(c, r, k).Some?
    ensures var (out, after) := RewriteResult(c, r, k).value;
            && out == r.(data := out.data)
            && RewriteMessages(c, MessagesOf(c, r), k).Some?
            && MessagesOf(c, out) == RewriteMessages(c, MessagesOf(c, r), k).value.messages
  {
    MessagesView(c, MessagesOf(c, r), k);
  }

  lemma {:induction false} ResultView(c: Codec, r: TxResult, k: Counters)
    requires Lawful(c) && RewriteResult(c, r, k).Some?
    ensures var (out, after) := RewriteResult(c, r, k).value;
            var part := PartOf(c, Some(r));
            && PartOf(c, Some(out)) == part.(groups := RenumberGroups(part.groups, k))
            && after == AfterPart(part, k)
  {
    hide Announced;
    CountAnnounced(r);
    CountAnnounced(RewriteResult(c, r, k).value.0);
    ResultMessages(c, r, k);
    MessagesView(c, MessagesOf(c, r), k);
  }

  lemma {:induction false} PartsOfSnoc(c: Codec, results: seq<Option<TxResult>>, r: Option<TxResult>)
    ensures PartsOf(c, results + [r]) == PartsOf(c, results) + [PartOf(c, r)]
  {
    assert (results + [r])[..|results|] == results;
  }

  /** Rewriting so far is numbering the decoded results so far. */
  ghost predicate ResultsViewed(c: Codec, input: seq<Option<TxResult>>, done: seq<Option<TxResult>>, k: Counters) {
    && PartsOf(c, done) == RenumberParts(PartsOf(c, input), START)
    && k == AfterParts(PartsOf(c, input), START)
  }

  lemma {:induction false} ResultsViewedStep(
      c: Codec, init: seq<Option<TxResult>>, done: seq<Option<TxResult>>, k: Counters,
      r: Option<TxResult>, out: Option<TxResult>, after: Counters)
    requires ResultsViewed(c, init, done, k)
    requires var part := PartOf(c, r);
             PartOf(c, out) == part.(groups := RenumberGroups(part.groups, k)) && after == AfterPart(part, k)
    ensures ResultsViewed(c, init + [r], done + [out], after)
  {
    PartsOfSnoc(c, init, r);
    PartsOfSnoc(c, done, out);
    PartsExtend(PartsOf(c, init), PartsOf(c, done), k, PartOf(c, r), PartOf(c, out), after, START);
  }

  lemma {:induction false} ResultsView(c: Codec, input: seq<Option<TxResult>>)
    requires Lawful(c) && Rewrite(c, input).Some?
    ensures ResultsViewed(c, input, Rewrite(c, input).value.0, Rewrite(c, input).value.1)
  {
    if input != [] {
      var n := |input| - 1;
      var init, r := input[..n], input[n];
      ResultsView(c, init);
      var (done, k) := Rewrite(c, init).value;
      assert input == init + [r];
      if r.None? {
        ResultsViewedStep(c, init, done, k, r, None, k);
      } else {
        var (out, after) := RewriteResult(c, r.value, k).value;
        ResultView(c, r.value, k);
        ResultsViewedStep(c, init, done, k, r, Some(out), after);
      }
    }
  }

  /** A message is kept as it is, except for the logs of an Ethereum response. */
  ghost predicate SameMessage(c: Codec, out: Message, m: Message) {
    && out.ethereum == m.ethereum
    && if !m.ethereum then out == m
       else
         && c.decodeResponse(out.value).Some? && c.decodeResponse(m.value).Some?
         && c.decodeResponse(out.value).value.rest == c.decodeResponse(m.value).value.rest
  }

  ghost predicate SameMessages(c: Codec, out: seq<Message>, messages: seq<Message>) {
    |out| == |messages| && forall i :: 0 <= i < |out| ==> SameMessage(c, out[i], messages[i])
  }

  lemma {:induction false} MessagesKept(c: Codec, messages: seq<Message>, k: Counters)
    requires Lawful(c) && RewriteMessages(c, messages, k).Some?
    ensures SameMessages(c, RewriteMessages(c, messages, k).value.messages, messages)
  {
    hide Renumber;
    if messages != [] {
      MessagesKept(c, messages[..|messages| - 1], k);
    }
  }

  /** A result is kept as it is, except for the logs inside its payload. */
  ghost predicate SameButLogs(c: Codec, out: Option<TxResult>, r: Option<TxResult>) {
    if r.None? || !r.value.ok || r.value.data == [] then out == r
    else
      && out.Some? && out.value == r.value.(data := out.value.data)
      && c.decodePayload(out.value.data).Some? && c.decodePayload(r.value.data).Some?
      && var p, q := c.decodePayload(out.value.data).value, c.decodePayload(r.value.data).value;
         p.rest == q.rest && SameMessages(c, p.messages, q.messages)
  }

  lemma {:induction false} ResultKept(c: Codec, r: TxResult, k: Counters)
    requires Lawful(c) && RewriteResult(c, r, k).Some?
    ensures SameButLogs(c, Some(RewriteResult(c, r, k).value.0), Some(r))
  {
    hide EthereumCount;
    if r.ok && r.data != [] {
      MessagesKept(c, c.decodePayload(r.data).value.messages, k);
      MessagesView(c, c.decodePayload(r.data).value.messages, k);
    }
  }

  ghost predicate AllSameButLogs(c: Codec, out: seq<Option<TxResult>>, input: seq<Option<TxResult>>) {
    |out| == |input| && forall i :: 0 <= i < |out| ==> SameButLogs(c, out[i], input[i])
  }

  lemma {:induction false} ResultsKept(c: Codec, input: seq<Option<TxResult>>)
    requires Lawful(c) && Rewrite(c, input).Some?
    ensures AllSameButLogs(c, Rewrite(c, input).value.0, input)
  {
    hide RewriteResult, SameButLogs, Lawful;
    if input != [] {
      var n := |input| - 1;
      ResultsKept(c, input[..n]);
      var (done, k) := Rewrite(c, input[..n]).value;
      if input[n].Some? {
        ResultKept(c, input[n].value, k);
      } else {
        NothingKept(c);
      }
      var out := Rewrite(c, input).value.0;
      forall i | 0 <= i < n ensures SameButLogs(c, out[i], input[i]) {
        assert out[i] == done[i] && input[i] == input[..n][i];
      }
    }
  }

  lemma {:induction false} NothingKept(c: Codec)
    ensures SameButLogs(c, None, None)
  {
  }

  /**
   Over the whole block: log indexes become 0, 1, 2, ...; each log's
   transaction index is the slots taken by earlier results plus its message's
   place among the Ethereum responses of its own; nothing but the payload of
   a result changes, and in it nothing but those two indexes.
   */
  lemma {:induction false} LogsRenumbered(c: Codec, input: seq<Option<TxResult>>)
    requires Lawful(c) && Rewrite(c, input).Some?
    ensures var out := Rewrite(c, input).value.0;
            && AllSameButLogs(c, out, input)
            && Positioned(PartsOf(c, out), PartsOf(c, input))
            && Relabelled(PartLogs(PartsOf(c, out)), PartLogs(PartsOf(c, input)), PartSlots(PartsOf(c, input)), 0)
  {
    hide AllSameButLogs, Positioned, Relabelled, PartLogs, PartSlots, Lawful;
    ResultsView(c, input);
    ResultsKept(c, input);
    CountersAreExact(PartsOf(c, input));
    PositionsAreExact(PartsOf(c, input));
  }

  // ---------- idempotence ----------

  lemma {:induction false} MessageTwice(c: Codec, done: Messages, m: Message, rewritten: Message)
    requires Lawful(c) && RewriteMessage(c, done, m).Some?
    requires RewriteMessage(c, done, m).value.messages == done.messages + [rewritten]
    ensures RewriteMessage(c, done.(dirty := false), rewritten) ==
            Some(RewriteMessage(c, done, m).value.(dirty := false))
  {
    assert rewritten == RewriteMessage(c, done, m).value.messages[|done.messages|];
    if m.ethereum {
      var r := c.decodeResponse(m.value).value;
      RenumberTwice(r.logs, done.after);
      var renumbered := r.(logs := Renumber(r.logs, done.after));
      assert renumbered.(logs := Renumber(renumbered.logs, done.after)) == renumbered;
    }
  }

  lemma {:induction false} MessagesTwice(c: Codec, messages: seq<Message>, k: Counters)
    requires Lawful(c) && RewriteMessages(c, messages, k).Some?
    ensures var m := RewriteMessages(c, messages, k).value;
            RewriteMessages(c, m.messages, k) == Some(m.(dirty := false))
  {
    if messages != [] {
      var n := |messages| - 1;
      var done := RewriteMessages(c, messages[..n], k).value;
      MessagesTwice(c, messages[..n], k);
      var rewritten := MessageView(c, done, messages[n]);
      MessageTwice(c, done, messages[n], rewritten);
      var next := done.messages + [rewritten];
      assert next[..|next| - 1] == done.messages && next[|next| - 1] == rewritten;
    }
  }

  lemma {:induction false} ResultTwice(c: Codec, r: TxResult, k: Counters)
    requires Lawful(c) && RewriteResult(c, r, k).Some?
    ensures RewriteResult(c, RewriteResult(c, r, k).value.0, k) == RewriteResult(c, r, k)
  {
    hide GroupsOf, CountTrue, RewriteMessage;
    if r.ok && r.data != [] {
      MessagesTwice(c, MessagesOf(c, r), k);
      MessagesView(c, MessagesOf(c, r), k);
    }
  }

  /** Normalising twice is normalising once, byte for byte. */
  lemma {:induction false} RewriteTwice(c: Codec, input: seq<Option<TxResult>>)
    requires Lawful(c) && Rewrite(c, input).Some?
    ensures Rewrite(c, Rewrite(c, input).value.0) == Rewrite(c, input)
  {
    if input != [] {
      var n := |input| - 1;
      RewriteTwice(c, input[..n]);
      var (done, k) := Rewrite(c, input[..n]).value;
      var out := Rewrite(c, input).value.0;
      assert out[..|out| - 1] == done;
      if input[n].Some? {
        ResultTwice(c, input[n].value, k);
      }
    }
  }

  // ---------- failure ----------

  predicate Readable(c: Codec, m: Message) {
    m.ethereum ==> c.decodeResponse(m.value).Some?
  }

  predicate Decodable(c: Codec, r: Option<TxResult>) {
    r.Some? && r.value.ok && r.value.data != [] ==>
      c.decodePayload(r.value.data).Some? && forall m :: m in MessagesOf(c, r.value) ==> Readable(c, m)
  }

  lemma {:induction false} MessagesReadable(c: Codec, messages: seq<Message>, k: Counters)
    ensures RewriteMessages(c, messages, k).Some? <==> forall m :: m in messages ==> Readable(c, m)
  {
    if messages != [] {
      var n := |messages| - 1;
      MessagesReadable(c, messages[..n], k);
      assert messages == messages[..n] + [messages[n]];
      assert messages[n] in messages;
    }
  }

  lemma {:induction false} ResultDecodes(c: Codec, r: TxResult, k: Counters)
    ensures RewriteResult(c, r, k).Some? <==> Decodable(c, Some(r))
  {
    MessagesReadable(c, MessagesOf(c, r), k);
  }

  /** The whole call succeeds exactly when every successful result decodes. */
  lemma {:induction false} SucceedsExactly(c: Codec, input: seq<Option<TxResult>>)
    ensures Rewrite(c, input).Some? <==> forall r :: r in input ==> Decodable(c, r)
  {
    if input != [] {
      var n := |input| - 1;
      SucceedsExactly(c, input[..n]);
      assert input == input[..n] + [input[n]];
      assert input[n] in input;
      if Rewrite(c, input[..n]).Some? && input[n].Some? {
        ResultDecodes(c, input[n].value, Rewrite(c, input[..n]).value.1);
      }
    }
  }
}
