/**
 Numbering the logs of a block, on decoded values: what two running counters
 assign, and the same positions counted directly.
 */
module LogNumbering {
  import opened Common

  datatype Log = Log(txIndex: u64, index: u64, body: Bytes)

  /** The running transaction and log counters. */
  datatype Counters = Counters(tx: nat, log: nat)

  /** One message response: whether it is an Ethereum one, and its logs. */
  datatype Group = Group(ethereum: bool, logs: seq<Log>)

  /** One transaction result: the transactions its events or log text announce, and its message responses. */
  datatype Part = Part(count: nat, groups: seq<Group>)

  // ---------- with running counters ----------

  function Renumber(logs: seq<Log>, k: Counters): seq<Log> {
    seq(|logs|, i requires 0 <= i < |logs| => logs[i].(txIndex := U64(k.tx), index := U64(k.log + i)))
  }

  function EthereumGroups(groups: seq<Group>): nat {
    if groups == [] then 0
    else EthereumGroups(groups[..|groups| - 1]) + if groups[|groups| - 1].ethereum then 1 else 0
  }

  function GroupLogs(groups: seq<Group>): seq<Log> {
    if groups == [] then [] else GroupLogs(groups[..|groups| - 1]) + groups[|groups| - 1].logs
  }

  function AfterGroups(groups: seq<Group>, k: Counters): Counters {
    Counters(k.tx + EthereumGroups(groups), k.log + |GroupLogs(groups)|)
  }

  function RenumberGroups(groups: seq<Group>, k: Counters): seq<Group> {
    if groups == [] then []
    else
      var n := |groups| - 1;
      RenumberGroups(groups[..n], k) + [groups[n].(logs := Renumber(groups[n].logs, AfterGroups(groups[..n], k)))]
  }

  /** How many transaction slots of the block a result takes. */
  function Taken(part: Part): nat {
    Max(part.count, EthereumGroups(part.groups))
  }

  function AfterPart(part: Part, k: Counters): Counters {
    Counters(k.tx + Taken(part), k.log + |GroupLogs(part.groups)|)
  }

  function AfterParts(parts: seq<Part>, k: Counters): Counters {
    if parts == [] then k else AfterPart(parts[|parts| - 1], AfterParts(parts[..|parts| - 1], k))
  }

  function RenumberParts(parts: seq<Part>, k: Counters): seq<Part> {
    if parts == [] then []
    else
      var n := |parts| - 1;
      RenumberParts(parts[..n], k) + [parts[n].(groups := RenumberGroups(parts[n].groups, AfterParts(parts[..n], k)))]
  }

  // ---------- counted directly ----------

  function Repeat(x: nat, n: nat): seq<nat> {
    seq(n, _ => x)
  }

  /** For each log, the slot of its message: `base` plus the Ethereum messages before it. */
  function GroupSlots(groups: seq<Group>, base: nat): seq<nat> {
    if groups == [] then []
    else
      var n := |groups| - 1;
      GroupSlots(groups[..n], base) + Repeat(base + EthereumGroups(groups[..n]), |groups[n].logs|)
  }

  function TakenBefore(parts: seq<Part>): nat {
    if parts == [] then 0 else TakenBefore(parts[..|parts| - 1]) + Taken(parts[|parts| - 1])
  }

  function PartLogs(parts: seq<Part>): seq<Log> {
    if parts == [] then [] else PartLogs(parts[..|parts| - 1]) + GroupLogs(parts[|parts| - 1].groups)
  }

  /** For each log of the block, the slots taken by earlier results plus its place in its own. */
  function PartSlots(parts: seq<Part>): seq<nat> {
    if parts == [] then []
    else PartSlots(parts[..|parts| - 1]) + GroupSlots(parts[|parts| - 1].groups, TakenBefore(parts[..|parts| - 1]))
  }

  /** `out` is `logs` with transaction indexes `slots` and log indexes first, first+1, ... */
  ghost predicate Relabelled(out: seq<Log>, logs: seq<Log>, slots: seq<nat>, first: nat) {
    && |out| == |logs| == |slots|
    && forall i :: 0 <= i < |out| ==> out[i] == logs[i].(txIndex := U64(slots[i]), index := U64(first + i))
  }

  // ---------- the two agree ----------

  /** Relabelled pieces, one numbered after the other, make the relabelled whole. */
  lemma {:induction false} RelabelledJoin(
      a: seq<Log>, la: seq<Log>, sa: seq<nat>, b: seq<Log>, lb: seq<Log>, sb: seq<nat>,
      out: seq<Log>, logs: seq<Log>, slots: seq<nat>, first: nat)
    requires Relabelled(a, la, sa, first) && Relabelled(b, lb, sb, first + |la|)
    requires out == a + b && logs == la + lb && slots == sa + sb
    ensures Relabelled(out, logs, slots, first)
  {
  }

  lemma {:induction false} RenumberRelabels(logs: seq<Log>, k: Counters)
    ensures Relabelled(Renumber(logs, k), logs, Repeat(k.tx, |logs|), k.log)
  {
  }

  lemma {:induction false} GroupSnoc(groups: seq<Group>, g: Group, k: Counters)
    ensures EthereumGroups(groups + [g]) == EthereumGroups(groups) + if g.ethereum then 1 else 0
    ensures GroupLogs(groups + [g]) == GroupLogs(groups) + g.logs
    ensures RenumberGroups(groups + [g], k) ==
            RenumberGroups(groups, k) + [g.(logs := Renumber(g.logs, AfterGroups(groups, k)))]
    ensures GroupSlots(groups + [g], k.tx) == GroupSlots(groups, k.tx) + Repeat(AfterGroups(groups, k).tx, |g.logs|)
  {
    assert (groups + [g])[..|groups|] == groups;
  }

  /** Numbering one more group after the others. */
  lemma {:induction false} GroupsExtend(
      groups: seq<Group>, done: seq<Group>, after: Counters, g: Group, g': Group, k: Counters)
    requires done == RenumberGroups(groups, k) && after == AfterGroups(groups, k)
    requires g' == g.(logs := Renumber(g.logs, after))
    ensures done + [g'] == RenumberGroups(groups + [g], k)
    ensures AfterGroups(groups + [g], k) == Counters(after.tx + (if g.ethereum then 1 else 0), after.log + |g.logs|)
  {
    GroupSnoc(groups, g, k);
  }

  lemma {:induction false} GroupsRelabelStep(init: seq<Group>, g: Group, k: Counters)
    requires Relabelled(GroupLogs(RenumberGroups(init, k)), GroupLogs(init), GroupSlots(init, k.tx), k.log)
    ensures Relabelled(GroupLogs(RenumberGroups(init + [g], k)), GroupLogs(init + [g]), GroupSlots(init + [g], k.tx),
                       k.log)
  {
    hide Relabelled, GroupLogs, GroupSlots, RenumberGroups, Renumber, EthereumGroups;
    var after := AfterGroups(init, k);
    var renumbered := Renumber(g.logs, after);
    var done := RenumberGroups(init, k);
    GroupSnoc(init, g, k);
    GroupSnoc(done, g.(logs := renumbered), k);
    RenumberRelabels(g.logs, after);
    RelabelledJoin(GroupLogs(done), GroupLogs(init), GroupSlots(init, k.tx),
                   renumbered, g.logs, Repeat(after.tx, |g.logs|),
                   GroupLogs(RenumberGroups(init + [g], k)), GroupLogs(init + [g]), GroupSlots(init + [g], k.tx),
                     k.log);
  }

  lemma {:induction false} GroupsRelabel(groups: seq<Group>, k: Counters)
    ensures Relabelled(GroupLogs(RenumberGroups(groups, k)), GroupLogs(groups), GroupSlots(groups, k.tx), k.log)
  {
    if groups != [] {
      var n := |groups| - 1;
      GroupsRelabel(groups[..n], k);
      GroupsRelabelStep(groups[..n], groups[n], k);
      assert groups == groups[..n] + [groups[n]];
    }
  }

  lemma {:induction false} PartSnoc(parts: seq<Part>, p: Part)
    ensures PartLogs(parts + [p]) == PartLogs(parts) + GroupLogs(p.groups)
    ensures PartSlots(parts + [p]) == PartSlots(parts) + GroupSlots(p.groups, TakenBefore(parts))
    ensures TakenBefore(parts + [p]) == TakenBefore(parts) + Taken(p)
  {
    assert (parts + [p])[..|parts|] == parts;
  }

  lemma {:induction false} RenumberSnoc(parts: seq<Part>, p: Part, k: Counters)
    ensures AfterParts(parts + [p], k) == AfterPart(p, AfterParts(parts, k))
    ensures RenumberParts(parts + [p], k)
         == RenumberParts(parts, k) + [p.(groups := RenumberGroups(p.groups, AfterParts(parts, k)))]
  {
    assert (parts + [p])[..|parts|] == parts;
  }

  /** Numbering one more result after the others. */
  lemma {:induction false} PartsExtend(
      parts: seq<Part>, done: seq<Part>, k: Counters, p: Part, p': Part, after: Counters, start: Counters)
    requires done == RenumberParts(parts, start) && k == AfterParts(parts, start)
    requires p' == p.(groups := RenumberGroups(p.groups, k)) && after == AfterPart(p, k)
    ensures done + [p'] == RenumberParts(parts + [p], start)
    ensures after == AfterParts(parts + [p], start)
  {
    RenumberSnoc(parts, p, start);
  }

  const START := Counters(0, 0)

  lemma {:induction false} AfterPartsIs(parts: seq<Part>)
    ensures AfterParts(parts, START) == Counters(TakenBefore(parts), |PartLogs(parts)|)
  {
    if parts != [] {
      AfterPartsIs(parts[..|parts| - 1]);
    }
  }

  lemma {:induction false} CountersStep(init: seq<Part>, p: Part)
    requires Relabelled(PartLogs(RenumberParts(init, START)), PartLogs(init), PartSlots(init), 0)
    ensures Relabelled(PartLogs(RenumberParts(init + [p], START)), PartLogs(init + [p]), PartSlots(init + [p]), 0)
  {
    hide Relabelled, PartLogs, PartSlots, RenumberParts, AfterParts, GroupLogs, GroupSlots, RenumberGroups,
         TakenBefore, Taken;
    var k := AfterParts(init, START);
    var renumbered := RenumberGroups(p.groups, k);
    var done := RenumberParts(init, START);
    AfterPartsIs(init);
    GroupsRelabel(p.groups, k);
    PartSnoc(init, p);
    RenumberSnoc(init, p, START);
    PartSnoc(done, p.(groups := renumbered));
    RelabelledJoin(PartLogs(done), PartLogs(init), PartSlots(init),
                   GroupLogs(renumbered), GroupLogs(p.groups), GroupSlots(p.groups, k.tx),
                   PartLogs(RenumberParts(init + [p], START)), PartLogs(init + [p]), PartSlots(init + [p]), 0);
  }

  /** The running counters give every log of the block the position counted directly. */
  lemma {:induction false} CountersAreExact(parts: seq<Part>)
    ensures Relabelled(PartLogs(RenumberParts(parts, START)), PartLogs(parts), PartSlots(parts), 0)
  {
    hide Taken, GroupLogs, GroupSlots, RenumberGroups;
    if parts != [] {
      var n := |parts| - 1;
      CountersAreExact(parts[..n]);
      CountersStep(parts[..n], parts[n]);
      assert parts == parts[..n] + [parts[n]];
    }
  }

  // ---------- every log by its place ----------

  ghost function EthereumAt(groups: seq<Group>, g: nat): set<nat>
    requires g <= |groups|
  {
    set j: nat | j < g && groups[j].ethereum
  }

  /** How many Ethereum messages come before message `g`. */
  ghost function EthereumBefore(groups: seq<Group>, g: nat): nat
    requires g <= |groups|
  {
    |EthereumAt(groups, g)|
  }

  ghost function LogsIn(groups: seq<Group>, g: nat): nat
    requires g <= |groups|
  {
    if g == 0 then 0 else LogsIn(groups, g - 1) + |groups[g - 1].logs|
  }

  /**
   The slots and the logs of the results before result `i`: each takes the larger
   of what it announces and what it holds.
   */
  ghost function SlotsBefore(parts: seq<Part>, i: nat): nat
    requires i <= |parts|
  {
    if i == 0 then 0
    else
      var p := parts[i - 1];
      var held := EthereumBefore(p.groups, |p.groups|);
      SlotsBefore(parts, i - 1) + if held < p.count then p.count else held
  }

  ghost function LogsBefore(parts: seq<Part>, i: nat): nat
    requires i <= |parts|
  {
    if i == 0 then 0 else LogsBefore(parts, i - 1) + LogsIn(parts[i - 1].groups, |parts[i - 1].groups|)
  }

  ghost predicate GroupPositioned(out: Group, group: Group, tx: nat, first: nat) {
    && out.ethereum == group.ethereum && |out.logs| == |group.logs|
    && forall j :: 0 <= j < |out.logs| ==> out.logs[j] == group.logs[j].(txIndex := U64(tx), index := U64(first + j))
  }

  ghost predicate PartPositioned(out: Part, part: Part, tx: nat, first: nat) {
    && out.count == part.count && |out.groups| == |part.groups|
    && forall g :: 0 <= g < |out.groups| ==>
         GroupPositioned(out.groups[g], part.groups[g], tx + EthereumBefore(part.groups, g),
                         first + LogsIn(part.groups, g))
  }

  /** Every log of `out` is that of `parts` with the position counted over the block. */
  ghost predicate Positioned(out: seq<Part>, parts: seq<Part>) {
    && |out| == |parts|
    && forall i :: 0 <= i < |out| ==> PartPositioned(out[i], parts[i], SlotsBefore(parts, i), LogsBefore(parts, i))
  }

  lemma {:induction false} EthereumCounted(groups: seq<Group>, g: nat)
    requires g <= |groups|
    ensures EthereumGroups(groups[..g]) == EthereumBefore(groups, g)
  {
    if g == 0 {
      assert EthereumAt(groups, g) == {};
    } else {
      EthereumCounted(groups, g - 1);
      assert groups[..g][..g - 1] == groups[..g - 1];
      var before := EthereumAt(groups, g - 1);
      assert EthereumAt(groups, g) == if groups[g - 1].ethereum then before + {g - 1} else before;
    }
  }

  lemma {:induction false} LogsCounted(groups: seq<Group>, g: nat)
    requires g <= |groups|
    ensures |GroupLogs(groups[..g])| == LogsIn(groups, g)
  {
    if g > 0 {
      LogsCounted(groups, g - 1);
      assert groups[..g][..g - 1] == groups[..g - 1];
    }
  }

  lemma {:induction false} RenumberGroupAt(groups: seq<Group>, k: Counters, g: nat)
    requires g < |groups|
    ensures |RenumberGroups(groups, k)| == |groups|
    ensures RenumberGroups(groups, k)[g] == groups[g].(logs := Renumber(groups[g].logs, AfterGroups(groups[..g], k)))
  {
    hide Renumber, AfterGroups;
    var n := |groups| - 1;
    if g < n {
      RenumberGroupAt(groups[..n], k, g);
      assert groups[..n][..g] == groups[..g];
    } else {
      RenumberLength(groups[..n], k);
    }
  }

  lemma {:induction false} RenumberLength(groups: seq<Group>, k: Counters)
    ensures |RenumberGroups(groups, k)| == |groups|
  {
    hide Renumber;
    if groups != [] {
      RenumberLength(groups[..|groups| - 1], k);
    }
  }

  lemma {:induction false} GroupsPositioned(part: Part, k: Counters)
    ensures PartPositioned(part.(groups := RenumberGroups(part.groups, k)), part, k.tx, k.log)
  {
    hide RenumberGroups, EthereumBefore, LogsIn;
    RenumberLength(part.groups, k);
    forall g | 0 <= g < |part.groups|
      ensures GroupPositioned(RenumberGroups(part.groups, k)[g], part.groups[g], k.tx + EthereumBefore(part.groups, g),
                              k.log + LogsIn(part.groups, g))
    {
      RenumberGroupAt(part.groups, k, g);
      EthereumCounted(part.groups, g);
      LogsCounted(part.groups, g);
    }
  }

  lemma {:induction false} AfterCounted(parts: seq<Part>, i: nat)
    requires i <= |parts|
    ensures AfterParts(parts[..i], START) == Counters(SlotsBefore(parts, i), LogsBefore(parts, i))
  {
    if i > 0 {
      AfterCounted(parts, i - 1);
      assert parts[..i][..i - 1] == parts[..i - 1];
      var groups := parts[i - 1].groups;
      EthereumCounted(groups, |groups|);
      LogsCounted(groups, |groups|);
      assert groups[..|groups|] == groups;
    }
  }

  lemma {:induction false} RenumberPartAt(parts: seq<Part>, k: Counters, i: nat)
    requires i < |parts|
    ensures |RenumberParts(parts, k)| == |parts|
    ensures RenumberParts(parts, k)[i] ==
            parts[i].(groups := RenumberGroups(parts[i].groups, AfterParts(parts[..i], k)))
  {
    hide RenumberGroups, AfterParts;
    var n := |parts| - 1;
    if i < n {
      RenumberPartAt(parts[..n], k, i);
      assert parts[..n][..i] == parts[..i];
    } else {
      PartsLength(parts[..n], k);
    }
  }

  lemma {:induction false} PartsLength(parts: seq<Part>, k: Counters)
    ensures |RenumberParts(parts, k)| == |parts|
  {
    hide RenumberGroups, AfterParts;
    if parts != [] {
      PartsLength(parts[..|parts| - 1], k);
    }
  }

  /**
   The running counters give every log its place in the block: its transaction
   index is the slots of earlier results plus the Ethereum messages before its
   own, its log index the logs before it.
   */
  lemma {:induction false} PositionsAreExact(parts: seq<Part>)
    ensures Positioned(RenumberParts(parts, START), parts)
  {
    hide RenumberParts, PartPositioned, SlotsBefore, LogsBefore, AfterParts;
    PartsLength(parts, START);
    forall i | 0 <= i < |parts|
      ensures PartPositioned(RenumberParts(parts, START)[i], parts[i], SlotsBefore(parts, i), LogsBefore(parts, i))
    {
      RenumberPartAt(parts, START, i);
      AfterCounted(parts, i);
      GroupsPositioned(parts[i], AfterParts(parts[..i], START));
    }
  }

  // ---------- numbering again ----------

  lemma {:induction false} RenumberTwice(logs: seq<Log>, k: Counters)
    ensures Renumber(Renumber(logs, k), k) == Renumber(logs, k)
  {
  }
}
