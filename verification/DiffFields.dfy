/**
  Field-level comparison: flat fields by their rendered text, keyed nested
  collections by identity key, never by position.
 */
module DiffFields {
  import opened Wrappers
  import opened Model
  import opened DiffReport
  import opened Sorting
  import opened Text

  /** One field of a record and the text it is compared by. */
  datatype FieldText = FieldText(field: Field, text: string)

  /** One item of a keyed collection: identity key, rendering, and the fields compared on a key match. */
  datatype KeyedItem = KeyedItem(key: string, text: string, fields: seq<FieldText>)

  // ----- rendering -----

  function BoolText(b: bool): string {
    if b then "true" else "false"
  }

  function ByteOrderText(o: ByteOrder): string {
    match o
    case MostSignificantByteFirst => "MostSignificantByteFirst"
    case LeastSignificantByteFirst => "LeastSignificantByteFirst"
  }

  function OptionText(o: Option<string>): string {
    match o
    case None => "nullopt"
    case Some(s) => s
  }

  function DoubleOptionText(o: Option<Double>): string {
    match o
    case None => "nullopt"
    case Some(d) => d.text
  }

  /** The short name and the source span are identity, not content. */
  function CommonText(c: CommonFields): string {
    "category=" + OptionText(c.category)
  }

  function FramePduText(m: FramePduMapping): string {
    m.pduShortNameRef + "@" + NatToString(m.startPosition)
  }

  function PduSignalText(m: PduSignalMapping): string {
    m.signalShortNameRef + "@" + NatToString(m.startPosition)
    + if m.byteOrder.MostSignificantByteFirst? then "M" else "L"
  }

  function TableEntryText(e: ValueTableEntry): string {
    IntToString(e.value) + ":" + e.labelText
  }

  function ListText(items: seq<string>): string {
    "[" + Join(items, ", ") + "]"
  }

  // ----- keyed items -----

  function MemberItem(name: string): KeyedItem {
    KeyedItem(name, name, [])
  }

  function FramePduItem(m: FramePduMapping): KeyedItem {
    KeyedItem(m.pduShortNameRef, FramePduText(m),
              [FieldText(PduShortNameRef, m.pduShortNameRef), FieldText(StartPosition, NatToString(m.startPosition))])
  }

  function PduSignalItem(m: PduSignalMapping): KeyedItem {
    KeyedItem(m.signalShortNameRef, PduSignalText(m),
              [FieldText(SignalShortNameRef, m.signalShortNameRef),
               FieldText(StartPosition, NatToString(m.startPosition)),
               FieldText(ByteOrderField, ByteOrderText(m.byteOrder))])
  }

  function TableItem(e: ValueTableEntry): KeyedItem {
    KeyedItem(IntToString(e.value), TableEntryText(e),
              [FieldText(Value, IntToString(e.value)), FieldText(Label, e.labelText)])
  }

  function MemberItems(names: seq<string>): seq<KeyedItem> {
    MapSeq(names, MemberItem)
  }

  function FramePdus(f: Frame): seq<KeyedItem> {
    MapSeq(f.pdus, FramePduItem)
  }

  function PduSignals(p: Pdu): seq<KeyedItem> {
    MapSeq(p.signalMappings, PduSignalItem)
  }

  function TableItems(t: Option<seq<ValueTableEntry>>): seq<KeyedItem> {
    match t
    case None => []
    case Some(entries) => MapSeq(entries, TableItem)
  }

  function TableText(t: Option<seq<ValueTableEntry>>): string {
    match t
    case None => "nullopt"
    case Some(entries) => ListText(MapSeq(entries, TableEntryText))
  }

  // ----- the fields of each record, in declaration order -----

  function FieldsOf(e: Element): seq<FieldText> {
    match e
    case ClusterElement(c) =>
      [FieldText(CommonField, CommonText(c.common)),
       FieldText(Baudrate, if c.baudrate.None? then "nullopt" else NatToString(c.baudrate.value)),
       FieldText(PhysicalChannels, ListText(c.physicalChannels))]
    case EcuElement(u) =>
      [FieldText(CommonField, CommonText(u.common)),
       FieldText(ConnectedChannels, ListText(u.connectedChannels)),
       FieldText(Controllers, ListText(u.controllers))]
    case FrameElement(f) =>
      [FieldText(CommonField, CommonText(f.common)),
       FieldText(Length, NatToString(f.length)),
       FieldText(Transmitters, ListText(f.transmitters)),
       FieldText(Pdus, ListText(MapSeq(f.pdus, FramePduText)))]
    case PduElement(p) =>
      [FieldText(CommonField, CommonText(p.common)),
       FieldText(Length, NatToString(p.length)),
       FieldText(SignalMappings, ListText(MapSeq(p.signalMappings, PduSignalText)))]
    case SignalElement(s) =>
      [FieldText(CommonField, CommonText(s.common)),
       FieldText(StartBit, NatToString(s.startBit)),
       FieldText(BitLength, NatToString(s.bitLength)),
       FieldText(ByteOrderField, ByteOrderText(s.byteOrder)),
       FieldText(IsSigned, BoolText(s.isSigned)),
       FieldText(Factor, s.factor.text),
       FieldText(Offset, s.offset.text),
       FieldText(Min, DoubleOptionText(s.min)),
       FieldText(Max, DoubleOptionText(s.max)),
       FieldText(Unit, OptionText(s.unit)),
       FieldText(InitValue, DoubleOptionText(s.initValue)),
       FieldText(Receivers, ListText(s.receivers)),
       FieldText(ValueTable, TableText(s.valueTable))]
    case GroupElement(g) =>
      [FieldText(CommonField, CommonText(g.common)),
       FieldText(Field.Members, ListText(g.members))]
  }

  // ----- flat comparison -----

  /** The fields whose texts differ, in order. */
  function FlatDiffs(o: seq<FieldText>, n: seq<FieldText>): seq<FieldDiff> {
    if o == [] || n == [] then []
    else
      (if o[0].text != n[0].text then [FieldDiff(Plain(o[0].field), o[0].text, n[0].text)] else [])
      + FlatDiffs(o[1..], n[1..])
  }

  method DiffStruct(o: seq<FieldText>, n: seq<FieldText>) returns (diffs: seq<FieldDiff>)
    requires |o| == |n|
    ensures diffs == FlatDiffs(o, n)
  {
    diffs := [];
    for i := 0 to |o|
      invariant FlatDiffs(o, n) == diffs + FlatDiffs(o[i..], n[i..])
    {
      assert o[i..][1..] == o[i + 1..] && n[i..][1..] == n[i + 1..];
      if o[i].text != n[i].text {
        diffs := diffs + [FieldDiff(Plain(o[i].field), o[i].text, n[i].text)];
      }
    }
  }

  // ----- keyed comparison -----

  /** First item of each key. */
  function ByKey(items: seq<KeyedItem>): map<string, KeyedItem> {
    if items == [] then map[]
    else
      var front, last := ByKey(items[..|items| - 1]), items[|items| - 1];
      if last.key in front then front else front[last.key := last]
  }

  method IndexItems(items: seq<KeyedItem>) returns (byKey: map<string, KeyedItem>)
    ensures byKey == ByKey(items)
  {
    byKey := map[];
    for i := 0 to |items|
      invariant byKey == ByKey(items[..i])
    {
      assert items[..i + 1][..i] == items[..i];
      if items[i].key !in byKey {
        byKey := byKey[items[i].key := items[i]];
      }
    }
    assert items[..|items|] == items;
  }

  function Renamed(field: Field, key: string, sub: FieldDiff): FieldDiff {
    var name := match sub.fieldName case Plain(f) => ItemField(field, key, f) case other => other;
    FieldDiff(name, sub.oldValue, sub.newValue)
  }

  function RenamedAll(field: Field, key: string, subs: seq<FieldDiff>): seq<FieldDiff> {
    if subs == [] then [] else [Renamed(field, key, subs[0])] + RenamedAll(field, key, subs[1..])
  }

  datatype Side = OnlyOld | OnlyNew | Both

  /** What one key contributes to the pass over each side. */
  function KeyDiffs(side: Side, field: Field, o: map<string, KeyedItem>, n: map<string, KeyedItem>,
                    key: string): seq<FieldDiff> {
    match side
    case OnlyOld => if key in o && key !in n then [FieldDiff(Item(field, key), o[key].text, "absent")] else []
    case OnlyNew => if key in n && key !in o then [FieldDiff(Item(field, key), "absent", n[key].text)] else []
    case Both => if key in o && key in n then RenamedAll(field, key, FlatDiffs(o[key].fields, n[key].fields)) else []
  }

  function KeyPass(side: Side, field: Field, o: map<string, KeyedItem>, n: map<string, KeyedItem>,
                   keys: seq<string>): seq<FieldDiff> {
    if keys == [] then []
    else KeyPass(side, field, o, n, keys[..|keys| - 1]) + KeyDiffs(side, field, o, n, keys[|keys| - 1])
  }

  /** Items only on the old side, then only on the new, then field changes of shared ones. */
  function NestedDiffs(oldItems: seq<KeyedItem>, newItems: seq<KeyedItem>, field: Field): seq<FieldDiff> {
    var o, n := ByKey(oldItems), ByKey(newItems);
    KeyPass(OnlyOld, field, o, n, Ascending(o.Keys))
    + KeyPass(OnlyNew, field, o, n, Ascending(n.Keys))
    + KeyPass(Both, field, o, n, Ascending(o.Keys))
  }

  method PushKeys(side: Side, field: Field, o: map<string, KeyedItem>, n: map<string, KeyedItem>, keys: seq<string>,
                  diffs: seq<FieldDiff>)
    returns (grown: seq<FieldDiff>)
    ensures grown == diffs + KeyPass(side, field, o, n, keys)
  {
    hide KeyDiffs;
    grown := diffs;
    for i := 0 to |keys|
      invariant grown == diffs + KeyPass(side, field, o, n, keys[..i])
    {
      assert keys[..i + 1][..i] == keys[..i];
      grown := grown + KeyDiffs(side, field, o, n, keys[i]);
    }
    assert keys[..|keys|] == keys;
  }

  method DiffNestedCollection(oldItems: seq<KeyedItem>, newItems: seq<KeyedItem>, field: Field)
      returns (diffs: seq<FieldDiff>)
    ensures diffs == NestedDiffs(oldItems, newItems, field)
  {
    hide KeyPass, Ascending;
    var o := IndexItems(oldItems);
    var n := IndexItems(newItems);
    diffs := PushKeys(OnlyOld, field, o, n, Ascending(o.Keys), []);
    diffs := PushKeys(OnlyNew, field, o, n, Ascending(n.Keys), diffs);
    diffs := PushKeys(Both, field, o, n, Ascending(o.Keys), diffs);
  }

  // ----- element comparison -----

  /** The diffs of one flat field dropped. */
  function Without(diffs: seq<FieldDiff>, field: Field): seq<FieldDiff> {
    if diffs == [] then []
    else (if diffs[0].fieldName == Plain(field) then [] else [diffs[0]]) + Without(diffs[1..], field)
  }

  predicate Mentions(diffs: seq<FieldDiff>, field: Field) {
    exists d <- diffs :: d.fieldName == Plain(field)
  }

  /** Two records of one type compared; nothing for records of different types. */
  function ElementDiffs(o: Element, n: Element): seq<FieldDiff> {
    var flat := FlatDiffs(FieldsOf(o), FieldsOf(n));
    match (o, n)
    case (ClusterElement(_), ClusterElement(_)) => flat
    case (EcuElement(_), EcuElement(_)) => flat
    case (FrameElement(a), FrameElement(b)) =>
      var mapped := Without(flat, Pdus) + NestedDiffs(FramePdus(a), FramePdus(b), Pdus);
      if Mentions(flat, Transmitters)
      then Without(mapped, Transmitters)
        + NestedDiffs(MemberItems(a.transmitters), MemberItems(b.transmitters), Transmitters)
      else mapped
    case (PduElement(a), PduElement(b)) =>
      Without(flat, SignalMappings) + NestedDiffs(PduSignals(a), PduSignals(b), SignalMappings)
    case (SignalElement(a), SignalElement(b)) =>
      Without(Without(flat, ValueTable), Receivers)
      + TableDiffs(a.valueTable, b.valueTable)
      + NestedDiffs(MemberItems(a.receivers), MemberItems(b.receivers), Receivers)
    case (GroupElement(a), GroupElement(b)) =>
      Without(flat, Field.Members) + NestedDiffs(MemberItems(a.members), MemberItems(b.members), Field.Members)
    case _ => []
  }

  /** Absent and empty tables are compared as the same. */
  function TableDiffs(o: Option<seq<ValueTableEntry>>, n: Option<seq<ValueTableEntry>>): seq<FieldDiff> {
    if TableItems(o) == [] && TableItems(n) == [] && o.Some? == n.Some? then []
    else NestedDiffs(TableItems(o), TableItems(n), ValueTable)
  }

  lemma WithoutNothing(field: Field)
    ensures Without([], field) == []
  {}

  lemma WithoutStep(diffs: seq<FieldDiff>, field: Field, i: nat)
    requires i < |diffs|
    ensures Without(diffs[i..], field) ==
      (if diffs[i].fieldName == Plain(field) then [] else [diffs[i]]) + Without(diffs[i + 1..], field)
  {
    assert diffs[i..][1..] == diffs[i + 1..];
  }

  method EraseField(diffs: seq<FieldDiff>, field: Field) returns (kept: seq<FieldDiff>)
    ensures kept == Without(diffs, field)
  {
    hide Without;
    WithoutNothing(field);
    assert diffs[|diffs|..] == [];
    assert diffs[0..] == diffs;
    kept := [];
    for i := 0 to |diffs|
      invariant Without(diffs, field) == kept + Without(diffs[i..], field)
    {
      WithoutStep(diffs, field, i);
      if diffs[i].fieldName != Plain(field) {
        kept := kept + [diffs[i]];
      }
    }
  }

  method DiffElements(o: Element, n: Element) returns (diffs: seq<FieldDiff>)
    ensures diffs == ElementDiffs(o, n)
  {
    hide FlatDiffs, NestedDiffs, Without;
    match (o, n)
    case (ClusterElement(_), ClusterElement(_)) =>
      diffs := DiffStruct(FieldsOf(o), FieldsOf(n));
    case (EcuElement(_), EcuElement(_)) =>
      diffs := DiffStruct(FieldsOf(o), FieldsOf(n));
    case (FrameElement(a), FrameElement(b)) =>
      var flat := DiffStruct(FieldsOf(o), FieldsOf(n));
      diffs := EraseField(flat, Pdus);
      var nested := DiffNestedCollection(FramePdus(a), FramePdus(b), Pdus);
      diffs := diffs + nested;
      if Mentions(flat, Transmitters) {
        diffs := EraseField(diffs, Transmitters);
        nested := DiffNestedCollection(MemberItems(a.transmitters), MemberItems(b.transmitters), Transmitters);
        diffs := diffs + nested;
      }
    case (PduElement(a), PduElement(b)) =>
      diffs := DiffStruct(FieldsOf(o), FieldsOf(n));
      diffs := EraseField(diffs, SignalMappings);
      var nested := DiffNestedCollection(PduSignals(a), PduSignals(b), SignalMappings);
      diffs := diffs + nested;
    case (SignalElement(a), SignalElement(b)) =>
      diffs := DiffStruct(FieldsOf(o), FieldsOf(n));
      diffs := EraseField(diffs, ValueTable);
      diffs := EraseField(diffs, Receivers);
      var table := DiffValueTable(a.valueTable, b.valueTable);
      diffs := diffs + table;
      var nested := DiffNestedCollection(MemberItems(a.receivers), MemberItems(b.receivers), Receivers);
      diffs := diffs + nested;
    case (GroupElement(a), GroupElement(b)) =>
      diffs := DiffStruct(FieldsOf(o), FieldsOf(n));
      diffs := EraseField(diffs, Field.Members);
      var nested := DiffNestedCollection(MemberItems(a.members), MemberItems(b.members), Field.Members);
      diffs := diffs + nested;
    case _ =>
      diffs := [];
  }

  method DiffValueTable(o: Option<seq<ValueTableEntry>>, n: Option<seq<ValueTableEntry>>)
      returns (diffs: seq<FieldDiff>)
    ensures diffs == TableDiffs(o, n)
  {
    if TableItems(o) == [] && TableItems(n) == [] {
      if o.Some? == n.Some? {
        return [];
      }
    }
    diffs := DiffNestedCollection(TableItems(o), TableItems(n), ValueTable);
  }
}
