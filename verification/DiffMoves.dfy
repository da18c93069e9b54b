/**
  Move detection: a removed and an added element of one type that alone share
  a secondary key become one moved entry; any other sharing is diagnosed.
 */
module DiffMoves {
  import opened Wrappers
  import opened Model
  import opened DiffReport
  import opened DiffMatch
  import opened DiffFields
  import opened Sorting
  import opened Text

  function JoinSorted(items: seq<string>): string {
    Join(StableSort(items, StrLeq), ",")
  }

  function FramePduKey(m: FramePduMapping): string {
    m.pduShortNameRef + "@" + NatToString(m.startPosition)
  }

  function PduSignalKey(m: PduSignalMapping): string {
    m.signalShortNameRef + "@" + NatToString(m.startPosition)
  }

  /** The identity-like fields of a record; every type has some. */
  function SecondaryKey(e: Element): Option<string> {
    match e
    case ClusterElement(c) =>
      Some("baud:" + (if c.baudrate.Some? then NatToString(c.baudrate.value) else "-")
           + "|ch:" + JoinSorted(c.physicalChannels))
    case EcuElement(u) =>
      Some("ch:" + JoinSorted(u.connectedChannels) + "|ctrl:" + JoinSorted(u.controllers))
    case FrameElement(f) =>
      Some("len:" + NatToString(f.length) + "|tx:" + JoinSorted(f.transmitters)
           + "|pdu:" + JoinSorted(MapSeq(f.pdus, FramePduKey)))
    case PduElement(p) =>
      Some("len:" + NatToString(p.length) + "|sig:" + JoinSorted(MapSeq(p.signalMappings, PduSignalKey)))
    case SignalElement(s) =>
      Some("start:" + NatToString(s.startBit) + "|len:" + NatToString(s.bitLength)
           + "|order:" + (if s.byteOrder.MostSignificantByteFirst? then "M" else "L")
           + "|rx:" + JoinSorted(s.receivers))
    case GroupElement(g) =>
      Some("m:" + JoinSorted(g.members))
  }

  /** The part an entry plays in detecting moves of one type: none, or a side of its key's group. */
  datatype Slot = Outside | RemovedSlot(key: string) | AddedSlot(key: string)

  function SlotOf(o: Index, n: Index, t: ElementType, e: DiffEntry): Slot {
    if e.elementType != t then Outside
    else if e.kind == Removed && e.oldPath in o && SecondaryKey(o[e.oldPath]).Some?
    then RemovedSlot(SecondaryKey(o[e.oldPath]).value)
    else if e.kind == Added && e.newPath in n && SecondaryKey(n[e.newPath]).Some?
    then AddedSlot(SecondaryKey(n[e.newPath]).value)
    else Outside
  }

  function Slots(o: Index, n: Index, t: ElementType, entries: seq<DiffEntry>): (r: seq<Slot>)
    ensures |r| == |entries| && forall i :: 0 <= i < |r| ==> r[i] == SlotOf(o, n, t, entries[i])
  {
    seq(|entries|, i requires 0 <= i < |entries| => SlotOf(o, n, t, entries[i]))
  }

  /** The positions holding one slot, in order. */
  function Positions(slots: seq<Slot>, slot: Slot): (r: seq<nat>)
    ensures forall i <- r :: i < |slots|
  {
    if slots == [] then []
    else
      var last := |slots| - 1;
      Positions(slots[..last], slot) + if slots[last] == slot then [last] else []
  }

  lemma {:induction false} PositionsExact(slots: seq<Slot>, slot: Slot)
    ensures forall i: nat :: i in Positions(slots, slot) <==> i < |slots| && slots[i] == slot
    ensures forall a, b ::
      0 <= a < b < |Positions(slots, slot)| ==> Positions(slots, slot)[a] < Positions(slots, slot)[b]
  {
    if slots != [] {
      var front := Positions(slots[..|slots| - 1], slot);
      PositionsExact(slots[..|slots| - 1], slot);
      forall a | 0 <= a < |front| ensures front[a] < |slots| - 1 {
        assert front[a] in front;
      }
    }
  }

  function RemovedAt(slots: seq<Slot>, key: string): (r: seq<nat>)
    ensures forall i <- r :: i < |slots|
  {
    Positions(slots, RemovedSlot(key))
  }

  function AddedAt(slots: seq<Slot>, key: string): (r: seq<nat>)
    ensures forall i <- r :: i < |slots|
  {
    Positions(slots, AddedSlot(key))
  }

  predicate Paired(slots: seq<Slot>, key: string) {
    |RemovedAt(slots, key)| == 1 && |AddedAt(slots, key)| == 1
  }

  predicate Ambiguous(slots: seq<Slot>, key: string) {
    RemovedAt(slots, key) != [] && AddedAt(slots, key) != [] && !Paired(slots, key)
  }

  function KeySet(slots: seq<Slot>): set<string> {
    set s <- slots | !s.Outside? :: s.key
  }

  // ----- the outcome, entry by entry -----

  /** Position of the added entry that a pairing key absorbs. */
  function Partner(slots: seq<Slot>, key: string): (i: nat)
    requires Paired(slots, key)
    ensures i < |slots|
  {
    var at := AddedAt(slots, key);
    assert at[0] in at;
    at[0]
  }

  /** A removed entry whose key pairs it becomes the move to its partner's path. */
  function Rewritten(entries: seq<DiffEntry>, slots: seq<Slot>, i: nat): DiffEntry
    requires i < |entries| == |slots|
  {
    if slots[i].RemovedSlot? && Paired(slots, slots[i].key)
    then entries[i].(kind := Moved, newPath := entries[Partner(slots, slots[i].key)].newPath)
    else entries[i]
  }

  /** An added entry whose key pairs it is absorbed by the move. */
  predicate Erased(slots: seq<Slot>, i: nat)
    requires i < |slots|
  {
    slots[i].AddedSlot? && Paired(slots, slots[i].key)
  }

  function KeptBelow(entries: seq<DiffEntry>, slots: seq<Slot>, limit: nat): seq<DiffEntry>
    requires limit <= |entries| == |slots|
  {
    if limit == 0 then []
    else
      KeptBelow(entries, slots, limit - 1)
      + if Erased(slots, limit - 1) then [] else [Rewritten(entries, slots, limit - 1)]
  }

  /** The entries after detecting the moves of one type. */
  function Outcome(o: Index, n: Index, t: ElementType, entries: seq<DiffEntry>): seq<DiffEntry> {
    KeptBelow(entries, Slots(o, n, t, entries), |entries|)
  }

  // ----- diagnostics -----

  function TypeName(t: ElementType): string {
    match t
    case ClusterType => "Cluster"
    case EcuInstanceType => "EcuInstance"
    case FrameType => "Frame"
    case PduType => "Pdu"
    case SignalType => "Signal"
    case SignalGroupType => "SignalGroup"
  }

  /** The candidates of a key as the message lists them: removed ones first. */
  function Candidates(entries: seq<DiffEntry>, removed: seq<nat>, added: seq<nat>): seq<string>
    requires (forall i <- removed :: i < |entries|) && (forall i <- added :: i < |entries|)
  {
    seq(|removed| + |added|, k requires 0 <= k < |removed| + |added| =>
      if k < |removed| then
        assert removed[k] in removed;
        "removed:" + entries[removed[k]].oldPath
      else
        assert added[k - |removed|] in added;
        "added:" + entries[added[k - |removed|]].newPath)
  }

  function Message(t: ElementType, entries: seq<DiffEntry>, slots: seq<Slot>, key: string): string
    requires |entries| == |slots|
  {
    var removed, added := RemovedAt(slots, key), AddedAt(slots, key);
    NatToString(|removed| + |added|) + " candidates shared secondary key " + key + " for type " + TypeName(t)
    + ", no move inferred (" + Join(Candidates(entries, removed, added), ", ") + ")"
  }

  function DiagnosticsFor(t: ElementType, entries: seq<DiffEntry>, slots: seq<Slot>,
                          keys: seq<string>): seq<DiffDiagnostic>
    requires |entries| == |slots|
  {
    if keys == [] then []
    else
      var key := keys[|keys| - 1];
      DiagnosticsFor(t, entries, slots, keys[..|keys| - 1])
      + if Ambiguous(slots, key) then [DiffDiagnostic(Message(t, entries, slots, key), t)] else []
  }

  /** One diagnostic for each ambiguous key, in key order. */
  function NewDiagnostics(o: Index, n: Index, t: ElementType, entries: seq<DiffEntry>): seq<DiffDiagnostic> {
    var slots := Slots(o, n, t, entries);
    DiagnosticsFor(t, entries, slots, Ascending(KeySet(slots)))
  }

  // ----- the detection pass -----

  datatype Group = Group(removedIdx: seq<nat>, addedIdx: seq<nat>)

  function GroupOf(groups: map<string, Group>, key: string): Group {
    if key in groups then groups[key] else Group([], [])
  }

  /** The groups of the slots read so far. */
  ghost predicate AreGroups(slots: seq<Slot>, groups: map<string, Group>) {
    && groups.Keys == KeySet(slots)
    && forall key :: GroupOf(groups, key) == Group(RemovedAt(slots, key), AddedAt(slots, key))
  }

  lemma PositionsGrow(slots: seq<Slot>, i: nat, slot: Slot)
    requires i < |slots|
    ensures Positions(slots[..i + 1], slot) == Positions(slots[..i], slot) + if slots[i] == slot then [i] else []
  {
    assert slots[..i + 1][..i] == slots[..i];
  }

  /** The groups with slot i entered at position i. */
  function Entered(groups: map<string, Group>, slot: Slot, i: nat): map<string, Group> {
    match slot
    case Outside => groups
    case RemovedSlot(key) =>
      var g := GroupOf(groups, key);
      groups[key := g.(removedIdx := g.removedIdx + [i])]
    case AddedSlot(key) =>
      var g := GroupOf(groups, key);
      groups[key := g.(addedIdx := g.addedIdx + [i])]
  }

  lemma GroupsGrow(slots: seq<Slot>, i: nat, groups: map<string, Group>)
    requires i < |slots| && AreGroups(slots[..i], groups)
    ensures AreGroups(slots[..i + 1], Entered(groups, slots[i], i))
  {
    hide Positions;
    var grown := Entered(groups, slots[i], i);
    assert slots[..i + 1] == slots[..i] + [slots[i]];
    assert KeySet(slots[..i + 1]) == KeySet(slots[..i]) + if slots[i].Outside? then {} else {slots[i].key};
    forall key ensures GroupOf(grown, key) == Group(RemovedAt(slots[..i + 1], key), AddedAt(slots[..i + 1], key)) {
      PositionsGrow(slots, i, RemovedSlot(key));
      PositionsGrow(slots, i, AddedSlot(key));
      assert GroupOf(groups, key) == Group(RemovedAt(slots[..i], key), AddedAt(slots[..i], key));
    }
  }

  method GroupEntries(o: Index, n: Index, t: ElementType, entries: seq<DiffEntry>) returns (groups: map<string, Group>)
    ensures AreGroups(Slots(o, n, t, entries), groups)
  {
    hide SlotOf;
    ghost var slots := Slots(o, n, t, entries);
    groups := map[];
    for i := 0 to |entries|
      invariant AreGroups(slots[..i], groups)
    {
      GroupsGrow(slots, i, groups);
      match SlotOf(o, n, t, entries[i]) {
        case Outside =>
        case RemovedSlot(key) =>
          var g := GroupOf(groups, key);
          groups := groups[key := g.(removedIdx := g.removedIdx + [i])];
        case AddedSlot(key) =>
          var g := GroupOf(groups, key);
          groups := groups[key := g.(addedIdx := g.addedIdx + [i])];
      }
    }
    assert slots[..|entries|] == slots;
  }

  /** Entry i once the pairs among the given keys have been rewritten. */
  function PartlyRewritten(entries: seq<DiffEntry>, slots: seq<Slot>, keys: seq<string>, i: nat): DiffEntry
    requires i < |entries| == |slots|
  {
    if slots[i].RemovedSlot? && slots[i].key in keys then Rewritten(entries, slots, i) else entries[i]
  }

  ghost predicate RewrittenFor(current: seq<DiffEntry>, entries: seq<DiffEntry>, slots: seq<Slot>, keys: seq<string>)
    requires |entries| == |slots|
  {
    |current| == |entries| && forall i :: 0 <= i < |current| ==> current[i] == PartlyRewritten(entries, slots, keys, i)
  }

  /** The positions collected for erasure: the partners of the pairing keys. */
  ghost predicate ErasesFor(erase: seq<nat>, slots: seq<Slot>, keys: seq<string>) {
    && NoDuplicates(erase)
    && forall i: nat :: i in erase <==> i < |slots| && Erased(slots, i) && slots[i].key in keys
  }

  lemma PairedSlots(slots: seq<Slot>, key: string)
    requires Paired(slots, key)
    ensures forall i: nat :: i < |slots| && slots[i] == RemovedSlot(key) <==> i == RemovedAt(slots, key)[0]
    ensures forall i: nat :: i < |slots| && slots[i] == AddedSlot(key) <==> i == Partner(slots, key)
  {
    hide Positions;
    PositionsExact(slots, RemovedSlot(key));
    PositionsExact(slots, AddedSlot(key));
  }

  lemma RewriteOne(current: seq<DiffEntry>, entries: seq<DiffEntry>, slots: seq<Slot>, keys: seq<string>, key: string)
    requires |entries| == |slots| && RewrittenFor(current, entries, slots, keys) && Paired(slots, key) && key !in keys
    ensures var r, a := RemovedAt(slots, key)[0], Partner(slots, key);
      r < |current| && a < |current|
      && RewrittenFor(current[r := current[r].(kind := Moved, newPath := current[a].newPath)], entries, slots,
                      keys + [key])
  {
    hide Positions;
    PairedSlots(slots, key);
    var r, a := RemovedAt(slots, key)[0], Partner(slots, key);
    assert r in RemovedAt(slots, key) && r < |slots|;
    assert slots[r] == RemovedSlot(key) && slots[a] == AddedSlot(key);
    hide RemovedAt, AddedAt, Paired, Partner;
    var next := current[r := current[r].(kind := Moved, newPath := current[a].newPath)];
    forall i | 0 <= i < |next| ensures next[i] == PartlyRewritten(entries, slots, keys + [key], i) {
      if slots[i].RemovedSlot? && slots[i].key == key {
        assert i == r;
      }
    }
  }

  lemma SkipOne(current: seq<DiffEntry>, entries: seq<DiffEntry>, slots: seq<Slot>, keys: seq<string>, key: string)
    requires |entries| == |slots| && RewrittenFor(current, entries, slots, keys) && !Paired(slots, key)
    ensures RewrittenFor(current, entries, slots, keys + [key])
  {
    hide Paired, Partner;
  }

  lemma EraseOne(erase: seq<nat>, slots: seq<Slot>, keys: seq<string>, key: string)
    requires ErasesFor(erase, slots, keys) && key !in keys
    ensures Paired(slots, key) ==> ErasesFor(erase + [Partner(slots, key)], slots, keys + [key])
    ensures !Paired(slots, key) ==> ErasesFor(erase, slots, keys + [key])
  {
    if Paired(slots, key) {
      PairedSlots(slots, key);
      hide Paired, Partner;
      assert Partner(slots, key) !in erase;
    } else {
      hide Paired, Partner;
    }
  }

  /** Rewriting changes neither path of an ambiguous key's entries, so its message can be built at any time. */
  lemma MessageStable(t: ElementType, current: seq<DiffEntry>, entries: seq<DiffEntry>, slots: seq<Slot>,
                      keys: seq<string>, key: string)
    requires |entries| == |slots| && RewrittenFor(current, entries, slots, keys) && Ambiguous(slots, key)
    ensures Message(t, current, slots, key) == Message(t, entries, slots, key)
  {
    hide Positions, Join, NatToString;
    var removed, added := RemovedAt(slots, key), AddedAt(slots, key);
    PositionsExact(slots, RemovedSlot(key));
    PositionsExact(slots, AddedSlot(key));
    forall i | i in removed ensures current[i].oldPath == entries[i].oldPath {}
    forall i | i in added ensures current[i].newPath == entries[i].newPath {}
    assert Candidates(current, removed, added) == Candidates(entries, removed, added);
  }

  lemma DiagnosticsStep(t: ElementType, entries: seq<DiffEntry>, slots: seq<Slot>, keys: seq<string>, j: nat)
    requires |entries| == |slots| && j < |keys|
    ensures DiagnosticsFor(t, entries, slots, keys[..j + 1]) ==
      DiagnosticsFor(t, entries, slots, keys[..j])
      + if Ambiguous(slots, keys[j]) then [DiffDiagnostic(Message(t, entries, slots, keys[j]), t)] else []
  {
    assert keys[..j + 1][..j] == keys[..j];
  }

  predicate NatLeq(a: nat, b: nat) {
    a <= b
  }

  /** Turns each clean pair into a move in place and diagnoses the ambiguous groups. */
  method PairGroups(report: Report, groups: map<string, Group>, t: ElementType, ghost slots: seq<Slot>)
    returns (erase: seq<nat>)
    requires |slots| == |report.entries| && AreGroups(slots, groups)
    modifies report
    ensures |report.entries| == |old(report.entries)|
    ensures RewrittenFor(report.entries, old(report.entries), slots, Ascending(groups.Keys))
    ensures ErasesFor(erase, slots, Ascending(groups.Keys))
    ensures report.diagnostics == old(report.diagnostics)
      + DiagnosticsFor(t, old(report.entries), slots, Ascending(groups.Keys))
  {
    hide Positions, Ascending, Message, DiagnosticsFor, RewrittenFor, ErasesFor;
    ghost var entries := report.entries;
    var keys := Ascending(groups.Keys);
    erase := [];
    assert DiagnosticsFor(t, entries, slots, keys[..0]) == [] && RewrittenFor(entries, entries, slots, keys[..0])
      && ErasesFor([], slots, keys[..0]) by { NothingPaired(t, entries, slots); }
    for j := 0 to |keys|
      invariant RewrittenFor(report.entries, entries, slots, keys[..j])
      invariant |report.entries| == |entries|
      invariant ErasesFor(erase, slots, keys[..j])
      invariant report.diagnostics == old(report.diagnostics) + DiagnosticsFor(t, entries, slots, keys[..j])
    {
      var key := keys[j];
      assert key in groups;
      var group := groups[key];
      assert GroupOf(groups, key) == Group(RemovedAt(slots, key), AddedAt(slots, key));
      assert key !in keys[..j];
      assert keys[..j + 1] == keys[..j] + [key];
      EraseOne(erase, slots, keys[..j], key);
      DiagnosticsStep(t, entries, slots, keys, j);
      if |group.removedIdx| == 1 && |group.addedIdx| == 1 {
        RewriteOne(report.entries, entries, slots, keys[..j], key);
        var r, a := group.removedIdx[0], group.addedIdx[0];
        report.entries := report.entries[r := report.entries[r].(kind := Moved, newPath := report.entries[a].newPath)];
        erase := erase + [a];
        assert |report.entries| == |entries|;
      } else {
        SkipOne(report.entries, entries, slots, keys[..j], key);
        if group.removedIdx != [] && group.addedIdx != [] {
          MessageStable(t, report.entries, entries, slots, keys[..j], key);
          var message := MessageOf(t, report.entries, group, key);
          report.diagnostics := report.diagnostics + [DiffDiagnostic(message, t)];
        }
      }
    }
    assert keys[..|keys|] == keys;
  }

  lemma NothingPaired(t: ElementType, entries: seq<DiffEntry>, slots: seq<Slot>)
    requires |entries| == |slots|
    ensures DiagnosticsFor(t, entries, slots, []) == []
    ensures RewrittenFor(entries, entries, slots, [])
    ensures ErasesFor([], slots, [])
  {}

  /** The text of a diagnostic, from the group itself. */
  method MessageOf(t: ElementType, entries: seq<DiffEntry>, group: Group, key: string) returns (message: string)
    requires (forall i <- group.removedIdx :: i < |entries|) && (forall i <- group.addedIdx :: i < |entries|)
    ensures forall slots :: |slots| == |entries| && group == Group(RemovedAt(slots, key), AddedAt(slots, key)) ==>
      message == Message(t, entries, slots, key)
  {
    message := NatToString(|group.removedIdx| + |group.addedIdx|) + " candidates shared secondary key " + key
      + " for type " + TypeName(t) + ", no move inferred ("
      + Join(Candidates(entries, group.removedIdx, group.addedIdx), ", ") + ")";
  }

  lemma AllRewritten(current: seq<DiffEntry>, entries: seq<DiffEntry>, slots: seq<Slot>, keys: seq<string>)
    requires |entries| == |slots| && RewrittenFor(current, entries, slots, keys)
    requires forall key :: key in keys <==> key in KeySet(slots)
    ensures forall i :: 0 <= i < |current| ==> current[i] == Rewritten(entries, slots, i)
  {
    hide Paired, Partner;
    forall i | 0 <= i < |current| ensures current[i] == Rewritten(entries, slots, i) {
      if slots[i].RemovedSlot? {
        assert slots[i] in slots;
      }
    }
  }

  /** Drops the collected positions in one pass over the entries. */
  method Compact(current: seq<DiffEntry>, erase: seq<nat>, ghost entries: seq<DiffEntry>, ghost slots: seq<Slot>)
    returns (kept: seq<DiffEntry>)
    requires |current| == |entries| == |slots|
    requires forall i :: 0 <= i < |current| ==> current[i] == Rewritten(entries, slots, i)
    requires NoDuplicates(erase) && forall i: nat :: i in erase <==> i < |slots| && Erased(slots, i)
    ensures kept == KeptBelow(entries, slots, |entries|)
  {
    hide Erased, Rewritten;
    var sorted := UnstableSort(erase, NatLeq);
    SortedPositions(sorted, erase);
    kept := [];
    var erasePos := 0;
    for i := 0 to |current|
      invariant 0 <= erasePos <= |sorted|
      invariant forall k :: 0 <= k < erasePos ==> sorted[k] < i
      invariant forall k :: erasePos <= k < |sorted| ==> i <= sorted[k]
      invariant kept == KeptBelow(entries, slots, i)
    {
      assert i in sorted <==> Erased(slots, i);
      if erasePos < |sorted| && sorted[erasePos] == i {
        erasePos := erasePos + 1;
      } else {
        assert i !in sorted;
        kept := kept + [current[i]];
      }
    }
  }

  lemma SortedPositions(sorted: seq<nat>, erase: seq<nat>)
    requires SortOf(sorted, erase, NatLeq) && NoDuplicates(erase)
    ensures forall a, b :: 0 <= a < b < |sorted| ==> sorted[a] < sorted[b]
    ensures forall i: nat :: i in sorted <==> i in erase
  {
    forall i: nat ensures i in sorted <==> i in erase {
      InMultiset(sorted, i);
      InMultiset(erase, i);
    }
    forall a, b | 0 <= a < b < |sorted| ensures sorted[a] < sorted[b] {
      assert NatLeq(sorted[a], sorted[b]);
      if sorted[a] == sorted[b] {
        CountOnce(erase, sorted[a]);
        CountTwice(sorted, a, b);
      }
    }
  }

  lemma CountTwice<T>(s: seq<T>, a: nat, b: nat)
    requires a < b < |s| && s[a] == s[b]
    ensures multiset(s)[s[a]] >= 2
  {
    assert s == s[..a] + [s[a]] + s[a + 1..b] + [s[b]] + s[b + 1..];
  }

  method DetectMovesForType(o: Index, n: Index, report: Report, t: ElementType)
    modifies report
    ensures report.entries == Outcome(o, n, t, old(report.entries))
    ensures report.diagnostics == old(report.diagnostics) + NewDiagnostics(o, n, t, old(report.entries))
  {
    hide Positions, Ascending, KeptBelow, SlotOf, RewrittenFor, ErasesFor, DiagnosticsFor;
    ghost var entries := report.entries;
    ghost var slots := Slots(o, n, t, entries);
    var groups := GroupEntries(o, n, t, report.entries);
    var erase := PairGroups(report, groups, t, slots);
    AllRewritten(report.entries, entries, slots, Ascending(groups.Keys));
    AllErased(erase, slots, Ascending(groups.Keys));
    if |erase| == 0 {
      NothingErased(report.entries, entries, slots);
    } else {
      report.entries := Compact(report.entries, erase, entries, slots);
    }
  }

  lemma AllErased(erase: seq<nat>, slots: seq<Slot>, keys: seq<string>)
    requires ErasesFor(erase, slots, keys) && forall key :: key in keys <==> key in KeySet(slots)
    ensures NoDuplicates(erase) && forall i: nat :: i in erase <==> i < |slots| && Erased(slots, i)
  {
    hide Paired;
    forall i: nat ensures i in erase <==> i < |slots| && Erased(slots, i) {
      if i < |slots| && Erased(slots, i) {
        assert slots[i] in slots;
      }
    }
  }

  lemma NothingErased(current: seq<DiffEntry>, entries: seq<DiffEntry>, slots: seq<Slot>)
    requires |current| == |entries| == |slots|
    requires forall i :: 0 <= i < |current| ==> current[i] == Rewritten(entries, slots, i) && !Erased(slots, i)
    ensures current == KeptBelow(entries, slots, |entries|)
  {
    hide Erased, Rewritten;
    for i := 0 to |current|
      invariant current[..i] == KeptBelow(entries, slots, i)
    {
      assert current[..i + 1] == current[..i] + [current[i]];
    }
    assert current[..|current|] == current;
  }
}
