/**
  Which records show no difference after a round trip: the exact condition on
  the record, type by type.
 */
module Survival {
  import opened Wrappers
  import opened DiffFieldLaws
  import opened DiffFields
  import opened DiffReport
  import opened Model
  import opened Numbers
  import opened RawTree
  import opened ReadBack
  import opened Reparse
  import opened Sorting
  import opened Text
  import opened WriteElements

  /**
    What the writer has no place for is absent, or is one of the values the
    comparison cannot tell from absence; positional lists read the same sorted.
   */
  predicate Survives(e: Element) {
    match e
    case ClusterElement(c) => ListText(c.physicalChannels) == ListText(SortedStrings(c.physicalChannels))
    case EcuElement(u) => u.connectedChannels == [] && ListText(u.controllers) == ListText(SortedStrings(u.controllers))
    case FrameElement(f) => OptionText(f.common.category) == "nullopt" && f.transmitters == []
    case PduElement(p) => OptionText(p.common.category) == "nullopt" && FirstsBigEndian(p.signalMappings)
    case SignalElement(s) =>
      && OptionText(s.common.category) == "nullopt" && s.startBit == 0 && s.byteOrder == MostSignificantByteFirst
      && s.factor.text == "1" && s.offset.text == "0" && DoubleOptionText(s.min) == "nullopt"
      && DoubleOptionText(s.max) == "nullopt" && OptionText(s.unit) == "nullopt"
      && s.receivers == [] && TableItems(s.valueTable) == []
    case GroupElement(g) => OptionText(g.common.category) == "nullopt"
  }

  /** Every mapping that is the first of its signal has the default byte order. */
  predicate FirstsBigEndian(ms: seq<PduSignalMapping>) {
    forall i :: 0 <= i < |ms| ==>
      ms[i].byteOrder == MostSignificantByteFirst || exists j ::
        0 <= j < i && ms[j].signalShortNameRef == ms[i].signalShortNameRef
  }

  // ----- when comparisons find nothing -----

  lemma {:induction false} FlatEmpty(a: seq<FieldText>, b: seq<FieldText>)
    requires SameFields(a, b)
    ensures FlatDiffs(a, b) == [] <==> forall i :: 0 <= i < |a| ==> a[i].text == b[i].text
  {
    if a != [] {
      FlatEmpty(a[1..], b[1..]);
      assert forall i :: 0 < i < |a| ==> a[i] == a[1..][i - 1] && b[i] == b[1..][i - 1];
      assert (forall i :: 0 <= i < |a| ==> a[i].text == b[i].text) ==> forall i ::
        0 <= i < |a| - 1 ==> a[1..][i].text == b[1..][i].text;
    }
  }

  lemma {:induction false} FlatMembers(a: seq<FieldText>, b: seq<FieldText>, d: FieldDiff)
    requires SameFields(a, b)
    ensures d in FlatDiffs(a, b) <==>
      exists i :: 0 <= i < |a| && a[i].text != b[i].text && d == FieldDiff(Plain(a[i].field), a[i].text, b[i].text)
  {
    if a != [] {
      FlatMembers(a[1..], b[1..], d);
      if i :|
        0 <= i < |a[1..]| && a[1..][i].text != b[1..][i].text
          && d == FieldDiff(Plain(a[1..][i].field), a[1..][i].text, b[1..][i].text) {
        assert a[i + 1] == a[1..][i] && b[i + 1] == b[1..][i];
      }
      if i :| 0 <= i < |a| && a[i].text != b[i].text && d == FieldDiff(Plain(a[i].field), a[i].text, b[i].text) {
        if i > 0 {
          assert a[i] == a[1..][i - 1] && b[i] == b[1..][i - 1];
        }
      }
    }
  }

  lemma {:induction false} WithoutMembers(diffs: seq<FieldDiff>, field: Field, d: FieldDiff)
    ensures d in Without(diffs, field) <==> d in diffs && d.fieldName != Plain(field)
  {
    if diffs != [] {
      WithoutMembers(diffs[1..], field, d);
      assert diffs == [diffs[0]] + diffs[1..];
    }
  }

  lemma {:induction false} KeyPassEmpty(side: Side, field: Field, o: map<string, KeyedItem>, n: map<string, KeyedItem>,
                                        keys: seq<string>)
    ensures KeyPass(side, field, o, n, keys) == [] <==> forall key <- keys :: KeyDiffs(side, field, o, n, key) == []
  {
    hide KeyDiffs;
    if keys != [] {
      var front, last := keys[..|keys| - 1], keys[|keys| - 1];
      KeyPassEmpty(side, field, o, n, front);
      assert keys == front + [last];
    }
  }

  predicate SharedAgree(o: map<string, KeyedItem>, n: map<string, KeyedItem>) {
    forall key <- o.Keys :: key in n ==> FlatDiffs(o[key].fields, n[key].fields) == []
  }

  lemma {:induction false} RenamedEmpty(field: Field, key: string, subs: seq<FieldDiff>)
    ensures RenamedAll(field, key, subs) == [] <==> subs == []
  {}

  lemma OnlyOldEmpty(field: Field, o: map<string, KeyedItem>, n: map<string, KeyedItem>)
    ensures KeyPass(OnlyOld, field, o, n, Ascending(o.Keys)) == [] <==> o.Keys <= n.Keys
  {
    hide KeyPass, Ascending;
    KeyPassEmpty(OnlyOld, field, o, n, Ascending(o.Keys));
    if KeyPass(OnlyOld, field, o, n, Ascending(o.Keys)) == [] {
      forall key | key in o.Keys ensures key in n.Keys {
        assert KeyDiffs(OnlyOld, field, o, n, key) == [];
      }
    }
  }

  lemma OnlyNewEmpty(field: Field, o: map<string, KeyedItem>, n: map<string, KeyedItem>)
    ensures KeyPass(OnlyNew, field, o, n, Ascending(n.Keys)) == [] <==> n.Keys <= o.Keys
  {
    hide KeyPass, Ascending;
    KeyPassEmpty(OnlyNew, field, o, n, Ascending(n.Keys));
    if KeyPass(OnlyNew, field, o, n, Ascending(n.Keys)) == [] {
      forall key | key in n.Keys ensures key in o.Keys {
        assert KeyDiffs(OnlyNew, field, o, n, key) == [];
      }
    }
  }

  lemma BothEmpty(field: Field, o: map<string, KeyedItem>, n: map<string, KeyedItem>)
    ensures KeyPass(Both, field, o, n, Ascending(o.Keys)) == [] <==> SharedAgree(o, n)
  {
    hide KeyPass, Ascending, FlatDiffs, RenamedAll;
    KeyPassEmpty(Both, field, o, n, Ascending(o.Keys));
    forall key | key in o && key in n
      ensures KeyDiffs(Both, field, o, n, key) == [] <==> FlatDiffs(o[key].fields, n[key].fields) == []
    {
      RenamedEmpty(field, key, FlatDiffs(o[key].fields, n[key].fields));
    }
    if KeyPass(Both, field, o, n, Ascending(o.Keys)) == [] {
      forall key | key in o.Keys && key in n ensures FlatDiffs(o[key].fields, n[key].fields) == [] {
        assert KeyDiffs(Both, field, o, n, key) == [];
      }
    }
  }

  /** Two keyed collections compare equal iff they have the same keys and, per key, the same fields. */
  lemma NestedEmpty(a: seq<KeyedItem>, b: seq<KeyedItem>, field: Field)
    ensures NestedDiffs(a, b, field) == [] <==> ByKey(a).Keys == ByKey(b).Keys && SharedAgree(ByKey(a), ByKey(b))
  {
    hide ByKey, KeyPass, Ascending, SharedAgree;
    var o, n := ByKey(a), ByKey(b);
    OnlyOldEmpty(field, o, n);
    OnlyNewEmpty(field, o, n);
    BothEmpty(field, o, n);
    assert |NestedDiffs(a, b, field)| == |KeyPass(OnlyOld, field, o, n, Ascending(o.Keys))|
      + |KeyPass(OnlyNew, field, o, n, Ascending(n.Keys))| + |KeyPass(Both, field, o, n, Ascending(o.Keys))|;
  }

  // ----- stable sorting and keyed collections -----

  function HasKey<T>(item: T -> KeyedItem, key: string): T -> bool {
    x => item(x).key == key
  }

  /** The item indexed under a key is the first with that key. */
  lemma {:induction false} ByKeyFirst<T>(s: seq<T>, item: T -> KeyedItem, key: string)
    ensures key in ByKey(MapSeq(s, item)) <==> Filter(s, HasKey(item, key)) != []
    ensures key in ByKey(MapSeq(s, item)) ==> ByKey(MapSeq(s, item))[key] == item(Filter(s, HasKey(item, key))[0])
  {
    var items := MapSeq(s, item);
    if s != [] {
      var front, last := s[..|s| - 1], s[|s| - 1];
      ByKeyFirst(front, item, key);
      assert items[..|s| - 1] == MapSeq(front, item);
      assert s == front + [last];
      FilterConcat(front, [last], HasKey(item, key));
      FilterSingle(last, HasKey(item, key));
    }
  }

  lemma FilterSingle<T>(x: T, p: T -> bool)
    ensures Filter([x], p) == if p(x) then [x] else []
  {
    assert [x][1..] == [];
  }

  /** A stable sort by key changes no first item of a key. */
  lemma SortKeepsKeys<T(!new)>(s: seq<T>, leq: (T, T) -> bool, item: T -> KeyedItem)
    requires forall a, b :: item(a).key == item(b).key ==> leq(a, b)
    ensures ByKey(MapSeq(StableSort(s, leq), item)) == ByKey(MapSeq(s, item))
  {
    hide ByKey, StableSort;
    var sorted := StableSort(s, leq);
    forall key ensures Filter(sorted, HasKey(item, key)) == Filter(s, HasKey(item, key)) {
      StableSortIsStable(s, leq, HasKey(item, key));
    }
    forall key ensures key in ByKey(MapSeq(sorted, item)) <==> key in ByKey(MapSeq(s, item)) {
      ByKeyFirst(sorted, item, key);
      ByKeyFirst(s, item, key);
    }
    forall key | key in ByKey(MapSeq(s, item)) ensures ByKey(MapSeq(sorted, item))[key] == ByKey(MapSeq(s, item))[key] {
      ByKeyFirst(sorted, item, key);
      ByKeyFirst(s, item, key);
    }
  }

  lemma SortedMembers(names: seq<string>, field: Field)
    ensures NestedDiffs(MemberItems(names), MemberItems(SortedStrings(names)), field) == []
  {
    forall a, b | MemberItem(a).key == MemberItem(b).key ensures StrLeq(a, b) {
      StrReflexive(a);
    }
    SortKeepsKeys(names, StrLeq, MemberItem);
    NestedSame(MemberItems(names), MemberItems(SortedStrings(names)), field);
  }

  lemma SortedFramePdusSame(ms: seq<FramePduMapping>)
    ensures NestedDiffs(MapSeq(ms, FramePduItem), MapSeq(SortedFramePdus(ms), FramePduItem), Pdus) == []
  {
    hide FramePduText, NatToString, NestedDiffs;
    forall a, b | FramePduItem(a).key == FramePduItem(b).key ensures FramePduLeq(a, b) {
      StrReflexive(a.pduShortNameRef);
    }
    SortKeepsKeys(ms, FramePduLeq, FramePduItem);
    NestedSame(MapSeq(ms, FramePduItem), MapSeq(SortedFramePdus(ms), FramePduItem), Pdus);
  }

  // ----- rendered lists -----

  lemma {:induction false} JoinNotEmpty(names: seq<string>)
    requires names != [] && TidyRefs(names)
    ensures Join(names, ", ") != ""
  {
    assert names[0] in names;
    if |names| > 1 {
      var front := names[..|names| - 1];
      assert Join(names, ", ") == Join(front, ", ") + ", " + names[|names| - 1];
      assert |Join(names, ", ")| >= 2;
    }
  }

  lemma EmptyListShows(names: seq<string>)
    requires TidyRefs(names)
    ensures ListText(names) == ListText([]) <==> names == []
  {
    if names != [] {
      hide Join;
      JoinNotEmpty(names);
      assert |ListText(names)| > 2 && ListText([]) == "[" + Join([], ", ") + "]";
      JoinNothing();
    }
  }

  lemma JoinNothing()
    ensures Join([], ", ") == ""
  {}

  lemma {:induction false} ByKeyEmpty(items: seq<KeyedItem>)
    ensures ByKey(items).Keys == {} <==> items == []
  {
    if items != [] {
      var last := items[|items| - 1];
      assert last.key in ByKey(items);
    }
  }

  lemma NestedAgainstNothing(items: seq<KeyedItem>, field: Field)
    ensures NestedDiffs(items, [], field) == [] <==> items == []
  {
    hide ByKey, NestedDiffs, FlatDiffs;
    NestedEmpty(items, [], field);
    ByKeyEmpty(items);
    ByKeyEmpty([]);
  }

  // ----- records -----

  lemma ClusterSurvives(c: Cluster, span: RawSpan)
    ensures ElementDiffs(ClusterElement(c), Reread(ClusterElement(c), span)) == [] <==> Survives(ClusterElement(c))
  {
    hide ListText, SortedStrings, NatToString, CommonText;
    var r := Reread(ClusterElement(c), span);
    assert CommonText(r.Common()) == CommonText(c.common) by { SameCategory(c.common, r.Common()); }
    var a, b := FieldsOf(ClusterElement(c)), FieldsOf(r);
    FlatEmpty(a, b);
    hide FlatDiffs;
    assert a[2].text == b[2].text <==> Survives(ClusterElement(c));
  }

  lemma SameCategory(a: CommonFields, b: CommonFields)
    requires a.category == b.category
    ensures CommonText(a) == CommonText(b)
  {}

  lemma EcuSurvives(u: EcuInstance, span: RawSpan)
    requires TidyRefs(u.connectedChannels)
    ensures ElementDiffs(EcuElement(u), Reread(EcuElement(u), span)) == [] <==> Survives(EcuElement(u))
  {
    hide ListText, SortedStrings, CommonText;
    var r := Reread(EcuElement(u), span);
    assert CommonText(r.Common()) == CommonText(u.common) by { SameCategory(u.common, r.Common()); }
    var a, b := FieldsOf(EcuElement(u)), FieldsOf(r);
    FlatEmpty(a, b);
    EmptyListShows(u.connectedChannels);
    hide FlatDiffs, TidyRefs;
    assert a[1].text == b[1].text <==> u.connectedChannels == [];
    assert a[2].text == b[2].text <==> ListText(u.controllers) == ListText(SortedStrings(u.controllers));
  }

  /** A dropped category shows unless it reads like an absent one. */
  lemma DroppedCategory(a: CommonFields, b: CommonFields)
    requires b.category == None
    ensures CommonText(a) == CommonText(b) <==> OptionText(a.category) == "nullopt"
  {
    var x, y := CommonText(a), CommonText(b);
    assert x[9..] == OptionText(a.category) && y[9..] == "nullopt";
  }

  /** Flat diffs with some fields erased are empty iff the other fields agree. */
  lemma ErasedEmpty(a: seq<FieldText>, b: seq<FieldText>, field: Field)
    requires SameFields(a, b)
    ensures Without(FlatDiffs(a, b), field) == []
      <==> forall i :: 0 <= i < |a| ==> a[i].field == field || a[i].text == b[i].text
  {
    hide FlatDiffs, Without;
    var diffs := FlatDiffs(a, b);
    forall i | 0 <= i < |a| && a[i].field != field && a[i].text != b[i].text ensures Without(diffs, field) != [] {
      var d := FieldDiff(Plain(a[i].field), a[i].text, b[i].text);
      FlatMembers(a, b, d);
      WithoutMembers(diffs, field, d);
    }
    if Without(diffs, field) != [] {
      var d := Without(diffs, field)[0];
      WithoutMembers(diffs, field, d);
      FlatMembers(a, b, d);
    }
  }

  lemma ErasedTwiceEmpty(a: seq<FieldText>, b: seq<FieldText>, field: Field, other: Field)
    requires SameFields(a, b)
    ensures Without(Without(FlatDiffs(a, b), field), other) == [] <==>
      forall i :: 0 <= i < |a| ==> a[i].field == field || a[i].field == other || a[i].text == b[i].text
  {
    hide FlatDiffs, Without;
    var diffs := FlatDiffs(a, b);
    var kept := Without(Without(diffs, field), other);
    forall i | 0 <= i < |a| && a[i].field != field && a[i].field != other && a[i].text != b[i].text ensures kept != [] {
      var d := FieldDiff(Plain(a[i].field), a[i].text, b[i].text);
      FlatMembers(a, b, d);
      WithoutMembers(diffs, field, d);
      WithoutMembers(Without(diffs, field), other, d);
    }
    if kept != [] {
      var d := kept[0];
      WithoutMembers(Without(diffs, field), other, d);
      WithoutMembers(diffs, field, d);
      FlatMembers(a, b, d);
    }
  }

  lemma MentionsField(a: seq<FieldText>, b: seq<FieldText>, i: nat)
    requires SameFields(a, b) && i < |a| && forall j :: 0 <= j < |a| && j != i ==> a[j].field != a[i].field
    ensures Mentions(FlatDiffs(a, b), a[i].field) <==> a[i].text != b[i].text
  {
    hide FlatDiffs;
    if a[i].text != b[i].text {
      FlatMembers(a, b, FieldDiff(Plain(a[i].field), a[i].text, b[i].text));
    }
    if Mentions(FlatDiffs(a, b), a[i].field) {
      var d :| d in FlatDiffs(a, b) && d.fieldName == Plain(a[i].field);
      FlatMembers(a, b, d);
    }
  }

  /** The flat part of a frame comparison. */
  lemma FrameFlat(f: Frame, r: Frame)
    requires TidyRefs(f.transmitters) && r.common.category == None && r.length == f.length && r.transmitters == []
    ensures var flat := FlatDiffs(FieldsOf(FrameElement(f)), FieldsOf(FrameElement(r)));
      && (Mentions(flat, Transmitters) <==> f.transmitters != [])
      && (Without(flat, Pdus) == [] <==> OptionText(f.common.category) == "nullopt" && f.transmitters == [])
  {
    hide ListText, CommonText, NatToString, FlatDiffs, Without, Mentions, FramePduText, TidyRefs, OptionText;
    var a, b := FieldsOf(FrameElement(f)), FieldsOf(FrameElement(r));
    DroppedCategory(f.common, r.common);
    EmptyListShows(f.transmitters);
    assert a[0].field == CommonField && a[1].field == Length && a[2].field == Transmitters && a[3].field == Pdus;
    ErasedEmpty(a, b, Pdus);
    MentionsField(a, b, 2);
    assert a[2].text == b[2].text <==> f.transmitters == [];
    assert a[0].text == b[0].text <==> OptionText(f.common.category) == "nullopt";
    assert a[1].text == b[1].text;
  }

  lemma FrameSurvives(f: Frame, span: RawSpan)
    requires TidyRefs(f.transmitters)
    ensures ElementDiffs(FrameElement(f), Reread(FrameElement(f), span)) == [] <==> Survives(FrameElement(f))
  {
    var r := Frame(Renewed(f.common, None, span), f.length, [], SortedFramePdus(f.pdus));
    assert Reread(FrameElement(f), span) == FrameElement(r);
    FrameFlat(f, r);
    hide FieldsOf, SortedFramePdus, FlatDiffs, NestedDiffs, Without, Mentions, TidyRefs, OptionText, FramePduItem,
      MemberItems, Reread;
    SortedFramePdusSame(f.pdus);
    TransmittersAgainstNothing(f.transmitters);
    var flat := FlatDiffs(FieldsOf(FrameElement(f)), FieldsOf(FrameElement(r)));
    assert Without(flat, Pdus) + [] == Without(flat, Pdus);
  }

  lemma TransmittersAgainstNothing(names: seq<string>)
    ensures NestedDiffs(MemberItems(names), MemberItems([]), Transmitters) == [] <==> names == []
  {
    hide NestedDiffs;
    assert MemberItems([]) == [];
    NestedAgainstNothing(MemberItems(names), Transmitters);
  }

  lemma GroupFlat(g: SignalGroup, r: SignalGroup)
    requires r.common.category == None
    ensures Without(FlatDiffs(FieldsOf(GroupElement(g)), FieldsOf(GroupElement(r))), Field.Members) == []
      <==> OptionText(g.common.category) == "nullopt"
  {
    hide ListText, CommonText, FlatDiffs, Without, OptionText;
    var a, b := FieldsOf(GroupElement(g)), FieldsOf(GroupElement(r));
    DroppedCategory(g.common, r.common);
    assert a[0].field == CommonField && a[1].field == Field.Members;
    ErasedEmpty(a, b, Field.Members);
    assert a[0].text == b[0].text <==> OptionText(g.common.category) == "nullopt";
  }

  lemma GroupSurvives(g: SignalGroup, span: RawSpan)
    ensures ElementDiffs(GroupElement(g), Reread(GroupElement(g), span)) == [] <==> Survives(GroupElement(g))
  {
    var r := SignalGroup(Renewed(g.common, None, span), SortedStrings(g.members));
    assert Reread(GroupElement(g), span) == GroupElement(r);
    GroupFlat(g, r);
    hide FieldsOf, SortedStrings, FlatDiffs, NestedDiffs, Without, OptionText, MemberItems, Reread;
    SortedMembers(g.members, Field.Members);
    var flat := FlatDiffs(FieldsOf(GroupElement(g)), FieldsOf(GroupElement(r)));
    assert Without(flat, Field.Members) + [] == Without(flat, Field.Members);
  }

  // ----- PDUs: the first mapping of each signal -----

  function ForSignal(key: string): PduSignalMapping -> bool {
    HasKey(PduSignalItem, key)
  }

  lemma ForSignalMeans(key: string, m: PduSignalMapping)
    ensures ForSignal(key)(m) <==> m.signalShortNameRef == key
  {
    var item := PduSignalItem;
    assert item(m).key == PduSignalItem(m).key;
  }

  lemma {:induction false} BigEndianFilter(ms: seq<PduSignalMapping>, key: string)
    ensures Filter(BigEndianAll(ms), ForSignal(key)) == BigEndianAll(Filter(ms, ForSignal(key)))
  {
    hide ForSignal, Filter;
    FilterNothing(ForSignal(key));
    if ms != [] {
      var front, last := ms[..|ms| - 1], ms[|ms| - 1];
      BigEndianFilter(front, key);
      assert ms == front + [last];
      ForSignalMeans(key, last);
      ForSignalMeans(key, BigEndian(last));
      FilterConcat(front, [last], ForSignal(key));
      FilterConcat(BigEndianAll(front), [BigEndian(last)], ForSignal(key));
      FilterSingle(last, ForSignal(key));
      FilterSingle(BigEndian(last), ForSignal(key));
      var kept := Filter(front, ForSignal(key));
      assert (kept + [last])[..|kept|] == kept;
      assert kept + [] == kept;
    }
  }

  lemma FilterNothing<T>(p: T -> bool)
    ensures Filter([], p) == []
  {}

  /** The first match of a filter, by its position. */
  lemma {:induction false} FilterFirst<T>(s: seq<T>, p: T -> bool) returns (i: nat)
    requires Filter(s, p) != []
    ensures i < |s| && s[i] == Filter(s, p)[0] && p(s[i]) && forall j :: 0 <= j < i ==> !p(s[j])
  {
    if p(s[0]) {
      i := 0;
    } else {
      var k := FilterFirst(s[1..], p);
      i := k + 1;
      forall j | 0 <= j < i ensures !p(s[j]) {
        if j > 0 {
          assert s[j] == s[1..][j - 1];
        }
      }
    }
  }

  lemma {:induction false} FilterFinds<T>(s: seq<T>, p: T -> bool, x: T)
    requires x in s && p(x)
    ensures Filter(s, p) != []
  {
    if !p(s[0]) {
      FilterFinds(s[1..], p, x);
    }
  }

  lemma PduItemsSame(m: PduSignalMapping)
    ensures FlatDiffs(PduSignalItem(m).fields, PduSignalItem(BigEndian(m)).fields) == []
      <==> m.byteOrder == MostSignificantByteFirst
  {
    hide NatToString, PduSignalText;
    var a, b := PduSignalItem(m).fields, PduSignalItem(BigEndian(m)).fields;
    FlatEmpty(a, b);
    hide FlatDiffs;
    ByteOrderShows(m.byteOrder);
    assert a[2].text == b[2].text <==> m.byteOrder == MostSignificantByteFirst;
  }

  /** What a signal's key holds on each side of a round trip. */
  lemma PduKey(ms: seq<PduSignalMapping>, key: string)
    ensures var o, n := ByKey(MapSeq(ms, PduSignalItem)),
      ByKey(MapSeq(BigEndianAll(SortedPduSignals(ms)), PduSignalItem));
      && (key in o <==> key in n) && (key in o <==> Filter(ms, ForSignal(key)) != [])
      && (key in o ==> o[key] == PduSignalItem(Filter(ms, ForSignal(key))[0])
                       && n[key] == PduSignalItem(BigEndian(Filter(ms, ForSignal(key))[0])))
  {
    ByKeyFirst(ms, PduSignalItem, key);
    ByKeyFirst(BigEndianAll(SortedPduSignals(ms)), PduSignalItem, key);
    assert ForSignal(key) == HasKey(PduSignalItem, key);
    hide ByKey, StableSort, PduSignalItem, ForSignal, BigEndian, BigEndianAll, Filter;
    forall a, b | ForSignal(key)(a) && ForSignal(key)(b) ensures PduSignalLeq(a, b) {
      ForSignalMeans(key, a);
      ForSignalMeans(key, b);
      StrReflexive(a.signalShortNameRef);
    }
    StableSortIsStable(ms, PduSignalLeq, ForSignal(key));
    BigEndianFilter(SortedPduSignals(ms), key);
  }

  lemma FirstOfKey(ms: seq<PduSignalMapping>, key: string)
    requires FirstsBigEndian(ms) && Filter(ms, ForSignal(key)) != []
    ensures Filter(ms, ForSignal(key))[0].byteOrder == MostSignificantByteFirst
  {
    hide ForSignal, Filter;
    var i := FilterFirst(ms, ForSignal(key));
    ForSignalMeans(key, ms[i]);
    forall j | 0 <= j < i ensures ms[j].signalShortNameRef != key {
      ForSignalMeans(key, ms[j]);
    }
  }

  lemma FirstsFromKeys(ms: seq<PduSignalMapping>)
    requires forall key ::
      Filter(ms, ForSignal(key)) != [] ==> Filter(ms, ForSignal(key))[0].byteOrder == MostSignificantByteFirst
    ensures FirstsBigEndian(ms)
  {
    hide ForSignal, Filter;
    forall i | 0 <= i < |ms|
      ensures ms[i].byteOrder == MostSignificantByteFirst || exists j ::
        0 <= j < i && ms[j].signalShortNameRef == ms[i].signalShortNameRef
    {
      var key := ms[i].signalShortNameRef;
      ForSignalMeans(key, ms[i]);
      FilterFinds(ms, ForSignal(key), ms[i]);
      var k := FilterFirst(ms, ForSignal(key));
      ForSignalMeans(key, ms[k]);
    }
  }

  lemma PduMappingsSurvive(ms: seq<PduSignalMapping>)
    ensures NestedDiffs(MapSeq(ms, PduSignalItem), MapSeq(BigEndianAll(SortedPduSignals(ms)), PduSignalItem),
                        SignalMappings) == []
      <==> FirstsBigEndian(ms)
  {
    var a, b := MapSeq(ms, PduSignalItem), MapSeq(BigEndianAll(SortedPduSignals(ms)), PduSignalItem);
    hide ByKey, NestedDiffs, StableSort, PduSignalText, NatToString, FlatDiffs, Filter, FirstsBigEndian, BigEndianAll,
      PduSignalItem, ForSignal;
    NestedEmpty(a, b, SignalMappings);
    forall key ensures key in ByKey(a) <==> key in ByKey(b) {
      PduKey(ms, key);
    }
    if FirstsBigEndian(ms) {
      forall key | key in ByKey(a) ensures FlatDiffs(ByKey(a)[key].fields, ByKey(b)[key].fields) == [] {
        PduKey(ms, key);
        FirstOfKey(ms, key);
        PduItemsSame(Filter(ms, ForSignal(key))[0]);
      }
    }
    if SharedAgree(ByKey(a), ByKey(b)) {
      forall key | Filter(ms, ForSignal(key)) != []
        ensures Filter(ms, ForSignal(key))[0].byteOrder == MostSignificantByteFirst
      {
        PduKey(ms, key);
        PduItemsSame(Filter(ms, ForSignal(key))[0]);
      }
      FirstsFromKeys(ms);
    }
  }

  lemma PduFlat(p: Pdu, r: Pdu)
    requires r.common.category == None && r.length == p.length
    ensures Without(FlatDiffs(FieldsOf(PduElement(p)), FieldsOf(PduElement(r))), SignalMappings) == []
      <==> OptionText(p.common.category) == "nullopt"
  {
    hide ListText, CommonText, FlatDiffs, Without, OptionText, NatToString, PduSignalText;
    var a, b := FieldsOf(PduElement(p)), FieldsOf(PduElement(r));
    DroppedCategory(p.common, r.common);
    assert a[0].field == CommonField && a[1].field == Length && a[2].field == SignalMappings;
    ErasedEmpty(a, b, SignalMappings);
    assert a[0].text == b[0].text <==> OptionText(p.common.category) == "nullopt";
    assert a[1].text == b[1].text;
  }

  lemma PduSplit(p: Pdu, r: Pdu)
    ensures ElementDiffs(PduElement(p), PduElement(r)) == [] <==>
      Without(FlatDiffs(FieldsOf(PduElement(p)), FieldsOf(PduElement(r))), SignalMappings) == []
      && NestedDiffs(PduSignals(p), PduSignals(r), SignalMappings) == []
  {
    hide FieldsOf, FlatDiffs, NestedDiffs, Without, PduSignals;
    var flat, nested := FlatDiffs(FieldsOf(PduElement(p)), FieldsOf(PduElement(r))),
      NestedDiffs(PduSignals(p), PduSignals(r), SignalMappings);
    assert |Without(flat, SignalMappings) + nested| == |Without(flat, SignalMappings)| + |nested|;
  }

  lemma PduSurvives(p: Pdu, span: RawSpan)
    ensures ElementDiffs(PduElement(p), Reread(PduElement(p), span)) == [] <==> Survives(PduElement(p))
  {
    var r := Pdu(Renewed(p.common, None, span), p.length, BigEndianAll(SortedPduSignals(p.signalMappings)));
    assert Reread(PduElement(p), span) == PduElement(r);
    PduFlat(p, r);
    PduMappingsSurvive(p.signalMappings);
    PduSplit(p, r);
    hide ElementDiffs, FieldsOf, SortedPduSignals, FlatDiffs, NestedDiffs, Without, BigEndianAll, FirstsBigEndian,
      OptionText, Reread, PduSignalItem;
  }

  // ----- signals -----

  lemma TableAgainstNothing(t: Option<seq<ValueTableEntry>>)
    ensures TableDiffs(t, None) == [] <==> TableItems(t) == []
  {
    hide NestedDiffs;
    NestedAgainstNothing(TableItems(t), ValueTable);
  }

  lemma ReceiversAgainstNothing(names: seq<string>)
    ensures NestedDiffs(MemberItems(names), MemberItems([]), Receivers) == [] <==> names == []
  {
    hide NestedDiffs;
    assert MemberItems([]) == [];
    NestedAgainstNothing(MemberItems(names), Receivers);
  }

  /** The fields of a signal a comparison keeps, equal on both sides of a round trip. */
  predicate SignalFieldsKept(s: Signal) {
    && OptionText(s.common.category) == "nullopt" && s.startBit == 0 && s.byteOrder == MostSignificantByteFirst
    && s.factor.text == "1" && s.offset.text == "0" && DoubleOptionText(s.min) == "nullopt"
    && DoubleOptionText(s.max) == "nullopt" && OptionText(s.unit) == "nullopt"
  }

  lemma ByteOrderShows(o: ByteOrder)
    ensures ByteOrderText(o) == ByteOrderText(MostSignificantByteFirst) <==> o == MostSignificantByteFirst
  {
    assert ByteOrderText(LeastSignificantByteFirst)[0] == 'L' && ByteOrderText(MostSignificantByteFirst)[0] == 'M';
  }

  lemma ZeroShows(n: nat)
    ensures NatToString(n) == NatToString(0) <==> n == 0
  {
    if NatToString(n) == NatToString(0) {
      PrintInjective(n, 0);
    }
  }

  lemma AbsentTexts()
    ensures OptionText(None) == "nullopt" && DoubleOptionText(None) == "nullopt"
  {}

  /** Every field but the two keyed ones, compared with its default. */
  lemma SignalFlat(s: Signal, r: Signal)
    requires r.common.category == None && r.startBit == 0 && r.bitLength == s.bitLength && r.isSigned == s.isSigned
    requires r.byteOrder == MostSignificantByteFirst && r.factor.text == "1" && r.offset.text == "0"
    requires r.min == None && r.max == None && r.unit == None && r.initValue == s.initValue
    ensures Without(Without(FlatDiffs(FieldsOf(SignalElement(s)), FieldsOf(SignalElement(r))), ValueTable),
                    Receivers) == []
      <==> SignalFieldsKept(s)
  {
    SignalFieldsAlike(s, r);
    hide FieldsOf, CommonText, NatToString, FlatDiffs, Without, ByteOrderText, BoolText, OptionText, DoubleOptionText;
    var a, b := FieldsOf(SignalElement(s)), FieldsOf(SignalElement(r));
    SignalFieldsAt(s);
    SignalFieldsAt(r);
    DroppedCategory(s.common, r.common);
    ZeroShows(s.startBit);
    ByteOrderShows(s.byteOrder);
    AbsentTexts();
    ErasedTwiceEmpty(a, b, ValueTable, Receivers);
  }

  lemma SignalSplit(s: Signal, r: Signal)
    requires r.valueTable == None && r.receivers == []
    ensures ElementDiffs(SignalElement(s), SignalElement(r)) == [] <==>
      Without(Without(FlatDiffs(FieldsOf(SignalElement(s)), FieldsOf(SignalElement(r))), ValueTable), Receivers) == []
      && TableItems(s.valueTable) == [] && s.receivers == []
  {
    hide FieldsOf, FlatDiffs, NestedDiffs, Without, TableDiffs, TableItems, MemberItems;
    TableAgainstNothing(s.valueTable);
    ReceiversAgainstNothing(s.receivers);
    var flat := Without(Without(FlatDiffs(FieldsOf(SignalElement(s)), FieldsOf(SignalElement(r))), ValueTable),
                        Receivers);
    var table, nested := TableDiffs(s.valueTable, None),
      NestedDiffs(MemberItems(s.receivers), MemberItems([]), Receivers);
    assert |flat + table + nested| == |flat| + |table| + |nested|;
  }

  lemma SignalSurvives(s: Signal, span: RawSpan)
    ensures ElementDiffs(SignalElement(s), Reread(SignalElement(s), span)) == [] <==> Survives(SignalElement(s))
  {
    var r := Reread(SignalElement(s), span).sig;
    SignalFlat(s, r);
    SignalSplit(s, r);
    hide ElementDiffs, FieldsOf, FlatDiffs, Without, TableItems, OptionText, DoubleOptionText;
  }

  /** A record shows no difference after a round trip exactly when it survives. */
  lemma ElementSurvives(reader: FloatReader, e: Element, span: RawSpan)
    requires Tidy(reader, e)
    ensures ElementDiffs(e, Reread(e, span)) == [] <==> Survives(e)
  {
    hide ElementDiffs, Reread, Survives;
    match e
    case ClusterElement(c) => ClusterSurvives(c, span);
    case EcuElement(u) => EcuSurvives(u, span);
    case FrameElement(f) => FrameSurvives(f, span);
    case PduElement(p) => PduSurvives(p, span);
    case SignalElement(s) => SignalSurvives(s, span);
    case GroupElement(g) => GroupSurvives(g, span);
  }

  // ----- positional lists -----

  /** The separator of rendered lists does not occur in the name. */
  predicate Separable(name: string) {
    forall i :: 0 <= i < |name| - 1 ==> !(name[i] == ',' && name[i + 1] == ' ')
  }

  /** Where the last separator of a joined text stands. */
  lemma LastItem(f: string, x: string, g: string, y: string)
    requires f + ", " + x == g + ", " + y && Separable(x) && Separable(y)
    ensures f == g && x == y
  {
    var text := f + ", " + x;
    assert text[|f|] == ',' && text[|f| + 1] == ' ' && text[|g|] == ',' && text[|g| + 1] == ' ';
    assert f == text[..|f|] && g == text[..|g|] && x == text[|f| + 2..] && y == text[|g| + 2..];
  }

  /** Lists of one length render alike only if they are the same, when no name holds the separator. */
  lemma {:induction false} ListsTellApart(a: seq<string>, b: seq<string>)
    requires |a| == |b| && (forall x <- a :: Separable(x)) && (forall x <- b :: Separable(x))
      && Join(a, ", ") == Join(b, ", ")
    ensures a == b
  {
    if |a| > 1 {
      var k := |a| - 1;
      assert a[k] in a && b[k] in b;
      LastItem(Join(a[..k], ", "), a[k], Join(b[..k], ", "), b[k]);
      ListsTellApart(a[..k], b[..k]);
      assert a == a[..k] + [a[k]] && b == b[..k] + [b[k]];
    }
  }

  /** A list whose names hold no separator reads the same sorted exactly when it is sorted. */
  lemma ReadsSortedIff(names: seq<string>)
    requires forall x <- names :: Separable(x)
    ensures ListText(names) == ListText(SortedStrings(names)) <==> SortedBy(names, StrLeq)
  {
    var sorted := SortedStrings(names);
    StrOrder();
    StableSortSorts(names, StrLeq);
    hide StrLeq, StableSort, Separable, Join;
    if SortedBy(names, StrLeq) {
      StableSortIdempotent(names, StrLeq);
    }
    if ListText(names) == ListText(sorted) {
      Unbracketed(Join(names, ", "), Join(sorted, ", "));
      forall x | x in sorted ensures Separable(x) {
        InMultiset(sorted, x);
        InMultiset(names, x);
      }
      ListsTellApart(names, sorted);
    }
  }

  lemma Unbracketed(a: string, b: string)
    requires "[" + a + "]" == "[" + b + "]"
    ensures a == b
  {
    assert ("[" + a + "]")[1..1 + |a|] == a && ("[" + b + "]")[1..1 + |b|] == b;
  }

  /**
    With such names, clusters and control units without channel references
    survive exactly when their lists are sorted.
   */
  lemma ListsSurviveIff(c: Cluster, u: EcuInstance)
    requires (forall x <- c.physicalChannels :: Separable(x)) && forall x <- u.controllers :: Separable(x)
    ensures Survives(ClusterElement(c)) <==> SortedBy(c.physicalChannels, StrLeq)
    ensures Survives(EcuElement(u)) <==> u.connectedChannels == [] && SortedBy(u.controllers, StrLeq)
  {
    hide StrLeq, ListText, SortedStrings, Separable;
    ReadsSortedIff(c.physicalChannels);
    ReadsSortedIff(u.controllers);
  }
}
