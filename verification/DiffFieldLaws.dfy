/** Field diffs swapped: comparing the other way round swaps every old and new value. */
module DiffFieldLaws {
  import opened Wrappers
  import opened Model
  import opened DiffReport
  import opened DiffFields
  import opened Sorting
  import opened Text

  function Swap(d: FieldDiff): FieldDiff {
    FieldDiff(d.fieldName, d.newValue, d.oldValue)
  }

  function SwapAll(diffs: seq<FieldDiff>): (r: seq<FieldDiff>)
    ensures |r| == |diffs|
  {
    if diffs == [] then [] else [Swap(diffs[0])] + SwapAll(diffs[1..])
  }

  lemma {:induction false} SwapConcat(a: seq<FieldDiff>, b: seq<FieldDiff>)
    ensures SwapAll(a + b) == SwapAll(a) + SwapAll(b)
  {
    if a == [] {
      assert a + b == b;
    } else {
      assert (a + b)[1..] == a[1..] + b;
      SwapConcat(a[1..], b);
    }
  }

  lemma SwapOne(d: FieldDiff)
    ensures SwapAll([d]) == [Swap(d)] && SwapAll([]) == []
  {
    assert [d][1..] == [];
  }

  lemma {:induction false} SwapWithout(diffs: seq<FieldDiff>, field: Field)
    ensures Without(SwapAll(diffs), field) == SwapAll(Without(diffs, field))
  {
    if diffs != [] {
      SwapWithout(diffs[1..], field);
      SwapOne(diffs[0]);
      var kept := if diffs[0].fieldName == Plain(field) then [] else [diffs[0]];
      SwapConcat(kept, Without(diffs[1..], field));
      var swapped := SwapAll(diffs[1..]);
      assert SwapAll(diffs)[1..] == swapped;
    }
  }

  /** The same fields in the same order. */
  ghost predicate SameFields(a: seq<FieldText>, b: seq<FieldText>) {
    |a| == |b| && forall i :: 0 <= i < |a| ==> a[i].field == b[i].field
  }

  lemma {:induction false} FlatMirror(a: seq<FieldText>, b: seq<FieldText>)
    requires SameFields(a, b)
    ensures FlatDiffs(b, a) == SwapAll(FlatDiffs(a, b))
  {
    if a != [] {
      FlatMirror(a[1..], b[1..]);
      var d := FieldDiff(Plain(a[0].field), a[0].text, b[0].text);
      SwapOne(d);
      SwapConcat(if a[0].text != b[0].text then [d] else [], FlatDiffs(a[1..], b[1..]));
    }
  }

  lemma {:induction false} FlatSame(a: seq<FieldText>)
    ensures FlatDiffs(a, a) == []
  {
    if a != [] {
      FlatSame(a[1..]);
    }
  }

  lemma {:induction false} RenamedSwap(field: Field, key: string, subs: seq<FieldDiff>)
    ensures RenamedAll(field, key, SwapAll(subs)) == SwapAll(RenamedAll(field, key, subs))
  {
    if subs != [] {
      RenamedSwap(field, key, subs[1..]);
    }
  }

  lemma {:induction false} MentionsSwap(diffs: seq<FieldDiff>, field: Field)
    ensures Mentions(SwapAll(diffs), field) == Mentions(diffs, field)
  {
    if diffs != [] {
      MentionsSwap(diffs[1..], field);
      assert diffs == [diffs[0]] + diffs[1..];
      var rest := SwapAll(diffs[1..]);
      assert SwapAll(diffs) == [Swap(diffs[0])] + rest;
      assert Mentions(diffs, field) <==> diffs[0].fieldName == Plain(field) || Mentions(diffs[1..], field) by {
        MentionsHead(diffs[0], diffs[1..], field);
      }
      MentionsHead(Swap(diffs[0]), rest, field);
    }
  }

  lemma MentionsHead(d: FieldDiff, rest: seq<FieldDiff>, field: Field)
    ensures Mentions([d] + rest, field) <==> d.fieldName == Plain(field) || Mentions(rest, field)
  {
    if Mentions(rest, field) {
      var x :| x in rest && x.fieldName == Plain(field);
      assert x in [d] + rest;
    }
    assert d in [d] + rest;
  }

  // ----- keyed collections -----

  function Opposite(side: Side): Side {
    match side
    case OnlyOld => OnlyNew
    case OnlyNew => OnlyOld
    case Both => Both
  }

  /** Items of one collection carry the same fields. */
  ghost predicate Alike(o: map<string, KeyedItem>, n: map<string, KeyedItem>) {
    forall key :: key in o && key in n ==> SameFields(o[key].fields, n[key].fields)
  }

  lemma {:induction false} KeyPassMirror(side: Side, field: Field, o: map<string, KeyedItem>, n: map<string, KeyedItem>,
                                         keys: seq<string>)
    requires Alike(o, n)
    ensures KeyPass(Opposite(side), field, n, o, keys) == SwapAll(KeyPass(side, field, o, n, keys))
  {
    if keys != [] {
      var front, last := keys[..|keys| - 1], keys[|keys| - 1];
      KeyPassMirror(side, field, o, n, front);
      SwapConcat(KeyPass(side, field, o, n, front), KeyDiffs(side, field, o, n, last));
      KeyMirror(side, field, o, n, last);
    }
  }

  lemma KeyMirror(side: Side, field: Field, o: map<string, KeyedItem>, n: map<string, KeyedItem>, key: string)
    requires Alike(o, n)
    ensures KeyDiffs(Opposite(side), field, n, o, key) == SwapAll(KeyDiffs(side, field, o, n, key))
  {
    if side == Both && key in o && key in n {
      FlatMirror(o[key].fields, n[key].fields);
      RenamedSwap(field, key, FlatDiffs(o[key].fields, n[key].fields));
    }
  }

  function Shared(keys: seq<string>, other: set<string>): (r: seq<string>)
    ensures forall k :: k in r <==> k in keys && k in other
  {
    if keys == [] then []
    else
      var front, last := keys[..|keys| - 1], keys[|keys| - 1];
      assert keys == front + [last];
      Shared(front, other) + if last in other then [last] else []
  }

  lemma {:induction false} SharedSorted(keys: seq<string>, other: set<string>)
    requires SortedBy(keys, StrLeq) && NoDuplicates(keys)
    ensures SortedBy(Shared(keys, other), StrLeq) && NoDuplicates(Shared(keys, other))
  {
    hide StrLeq;
    if keys != [] {
      var front, last := keys[..|keys| - 1], keys[|keys| - 1];
      SharedSorted(front, other);
      forall k | k in front ensures StrLeq(k, last) && k != last {}
    }
  }

  lemma {:induction false} AscendingSorted(s: set<string>)
    ensures SortedBy(Ascending(s), StrLeq)
    decreases |s|
  {
    hide StrLeq;
    if s != {} {
      AscendingSorted(s - {Least(s)});
    }
  }

  /** Only keys both sides have contribute to the shared pass. */
  lemma {:induction false} SharedPass(field: Field, o: map<string, KeyedItem>, n: map<string, KeyedItem>,
                                      keys: seq<string>, other: set<string>)
    requires forall k <- keys :: k !in other ==> !(k in o && k in n)
    ensures KeyPass(Both, field, o, n, keys) == KeyPass(Both, field, o, n, Shared(keys, other))
  {
    if keys != [] {
      var front, last := keys[..|keys| - 1], keys[|keys| - 1];
      assert forall k <- front :: k in keys;
      assert last in keys;
      SharedPass(field, o, n, front, other);
      if last in other {
        var shared := Shared(keys, other);
        assert shared == Shared(front, other) + [last];
        assert shared[..|shared| - 1] == Shared(front, other) && shared[|shared| - 1] == last;
      } else {
        assert KeyDiffs(Both, field, o, n, last) == [];
        assert Shared(keys, other) == Shared(front, other);
        assert KeyPass(Both, field, o, n, keys) == KeyPass(Both, field, o, n, front) + [];
      }
    }
  }

  lemma SharedKeysAgree(a: set<string>, b: set<string>)
    ensures Shared(Ascending(a), b) == Shared(Ascending(b), a)
  {
    hide StrLeq, Ascending;
    AscendingSorted(a);
    AscendingSorted(b);
    SharedSorted(Ascending(a), b);
    SharedSorted(Ascending(b), a);
    SameListing(Shared(Ascending(a), b), Shared(Ascending(b), a));
    SortedStringsUnique(Shared(Ascending(a), b), Shared(Ascending(b), a));
  }

  ghost predicate Mirrored(a: seq<FieldDiff>, b: seq<FieldDiff>) {
    multiset(b) == multiset(SwapAll(a))
  }

  lemma NestedMirror(oldItems: seq<KeyedItem>, newItems: seq<KeyedItem>, field: Field)
    requires Alike(ByKey(oldItems), ByKey(newItems))
    ensures Mirrored(NestedDiffs(oldItems, newItems, field), NestedDiffs(newItems, oldItems, field))
  {
    hide ByKey, KeyPass, Ascending, Shared, SwapAll;
    var o, n := ByKey(oldItems), ByKey(newItems);
    var gone, come, both :=
      KeyPass(OnlyOld, field, o, n, Ascending(o.Keys)), KeyPass(OnlyNew, field, o, n, Ascending(n.Keys)),
        KeyPass(Both, field, o, n, Ascending(o.Keys));
    KeyPassMirror(OnlyOld, field, o, n, Ascending(o.Keys));
    KeyPassMirror(OnlyNew, field, o, n, Ascending(n.Keys));
    SharedPass(field, o, n, Ascending(o.Keys), n.Keys);
    SharedPass(field, o, n, Ascending(n.Keys), o.Keys);
    SharedKeysAgree(o.Keys, n.Keys);
    KeyPassMirror(Both, field, o, n, Ascending(n.Keys));
    SwapConcat(gone + come, both);
    SwapConcat(gone, come);
  }

  lemma {:induction false} NestedSame(a: seq<KeyedItem>, b: seq<KeyedItem>, field: Field)
    requires ByKey(a) == ByKey(b)
    ensures NestedDiffs(a, b, field) == []
  {
    var m := ByKey(a);
    KeyPassSame(OnlyOld, field, m, Ascending(m.Keys));
    KeyPassSame(OnlyNew, field, m, Ascending(m.Keys));
    KeyPassSame(Both, field, m, Ascending(m.Keys));
  }

  lemma {:induction false} KeyPassSame(side: Side, field: Field, m: map<string, KeyedItem>, keys: seq<string>)
    ensures KeyPass(side, field, m, m, keys) == []
  {
    if keys != [] {
      KeyPassSame(side, field, m, keys[..|keys| - 1]);
      var last := keys[|keys| - 1];
      if last in m {
        FlatSame(m[last].fields);
      }
    }
  }

  // ----- elements -----

  lemma {:induction false} ByKeyFrom(items: seq<KeyedItem>)
    ensures forall key :: key in ByKey(items) ==> ByKey(items)[key] in items
  {
    if items != [] {
      ByKeyFrom(items[..|items| - 1]);
    }
  }

  lemma CollectionsAlike(a: seq<KeyedItem>, b: seq<KeyedItem>)
    requires forall x, y :: x in a && y in b ==> SameFields(x.fields, y.fields)
    ensures Alike(ByKey(a), ByKey(b))
  {
    ByKeyFrom(a);
    ByKeyFrom(b);
  }

  lemma MirroredConcat(a: seq<FieldDiff>, b: seq<FieldDiff>, c: seq<FieldDiff>, d: seq<FieldDiff>)
    requires Mirrored(a, b) && Mirrored(c, d)
    ensures Mirrored(a + c, b + d)
  {
    SwapConcat(a, c);
  }

  lemma {:induction false} WithoutConcat(a: seq<FieldDiff>, b: seq<FieldDiff>, field: Field)
    ensures Without(a + b, field) == Without(a, field) + Without(b, field)
  {
    if a == [] {
      assert a + b == b;
    } else {
      assert (a + b)[1..] == a[1..] + b && (a + b)[0] == a[0];
      WithoutConcat(a[1..], b, field);
      var head := if a[0].fieldName == Plain(field) then [] else [a[0]];
      assert Without(a + b, field) == head + (Without(a[1..], field) + Without(b, field));
    }
  }

  /** Comparing elements the other way round swaps every value, as a collection of diffs. */
  lemma ElementMirror(o: Element, n: Element)
    ensures Mirrored(ElementDiffs(o, n), ElementDiffs(n, o))
  {
    hide FlatDiffs, NestedDiffs, Without, SwapAll, Mentions, ByKey, TableDiffs;
    match (o, n)
    case (ClusterElement(_), ClusterElement(_)) => FlatMirror(FieldsOf(o), FieldsOf(n));
    case (EcuElement(_), EcuElement(_)) => FlatMirror(FieldsOf(o), FieldsOf(n));
    case (FrameElement(a), FrameElement(b)) => FrameMirror(a, b);
    case (PduElement(a), PduElement(b)) => PduMirror(a, b);
    case (SignalElement(a), SignalElement(b)) => SignalMirror(a, b);
    case (GroupElement(a), GroupElement(b)) => GroupMirror(a, b);
    case _ => SwapNothing();
  }

  lemma PduMirror(a: Pdu, b: Pdu)
    ensures Mirrored(ElementDiffs(PduElement(a), PduElement(b)), ElementDiffs(PduElement(b), PduElement(a)))
  {
    hide FlatDiffs, NestedDiffs, Without, SwapAll, ByKey, Mirrored;
    var oldFields, newFields := FieldsOf(PduElement(a)), FieldsOf(PduElement(b));
    var flat := FlatDiffs(oldFields, newFields);
    FlatMirror(oldFields, newFields);
    SwapWithout(flat, SignalMappings);
    SwapIsMirror(Without(flat, SignalMappings));
    CollectionsAlike(PduSignals(a), PduSignals(b));
    NestedMirror(PduSignals(a), PduSignals(b), SignalMappings);
    MirroredConcat(Without(flat, SignalMappings), Without(FlatDiffs(newFields, oldFields), SignalMappings),
                   NestedDiffs(PduSignals(a), PduSignals(b), SignalMappings),
                   NestedDiffs(PduSignals(b), PduSignals(a), SignalMappings));
  }

  lemma GroupMirror(a: SignalGroup, b: SignalGroup)
    ensures Mirrored(ElementDiffs(GroupElement(a), GroupElement(b)), ElementDiffs(GroupElement(b), GroupElement(a)))
  {
    hide FlatDiffs, NestedDiffs, Without, SwapAll, ByKey, Mirrored;
    var oldFields, newFields := FieldsOf(GroupElement(a)), FieldsOf(GroupElement(b));
    var flat := FlatDiffs(oldFields, newFields);
    FlatMirror(oldFields, newFields);
    SwapWithout(flat, Field.Members);
    SwapIsMirror(Without(flat, Field.Members));
    MembersMirror(a.members, b.members, Field.Members);
    MirroredConcat(Without(flat, Field.Members), Without(FlatDiffs(newFields, oldFields), Field.Members),
                   NestedDiffs(MemberItems(a.members), MemberItems(b.members), Field.Members),
                   NestedDiffs(MemberItems(b.members), MemberItems(a.members), Field.Members));
  }

  lemma SwapNothing()
    ensures Mirrored([], [])
  {}

  lemma MembersMirror(a: seq<string>, b: seq<string>, field: Field)
    ensures Mirrored(NestedDiffs(MemberItems(a), MemberItems(b), field),
                     NestedDiffs(MemberItems(b), MemberItems(a), field))
  {
    hide NestedDiffs, ByKey;
    CollectionsAlike(MemberItems(a), MemberItems(b));
    NestedMirror(MemberItems(a), MemberItems(b), field);
  }

  lemma FrameMirror(a: Frame, b: Frame)
    ensures Mirrored(ElementDiffs(FrameElement(a), FrameElement(b)), ElementDiffs(FrameElement(b), FrameElement(a)))
  {
    hide FlatDiffs, NestedDiffs, Without, SwapAll, Mentions, ByKey, Mirrored;
    var oldFields, newFields := FieldsOf(FrameElement(a)), FieldsOf(FrameElement(b));
    var flat, back := FlatDiffs(oldFields, newFields), FlatDiffs(newFields, oldFields);
    var there, here := NestedDiffs(FramePdus(a), FramePdus(b), Pdus), NestedDiffs(FramePdus(b), FramePdus(a), Pdus);
    FlatMirror(oldFields, newFields);
    SwapWithout(flat, Pdus);
    SwapWithout(Without(flat, Pdus), Transmitters);
    MentionsSwap(flat, Transmitters);
    CollectionsAlike(FramePdus(a), FramePdus(b));
    NestedMirror(FramePdus(a), FramePdus(b), Pdus);
    SwapIsMirror(Without(flat, Pdus));
    SwapIsMirror(Without(Without(flat, Pdus), Transmitters));
    MirroredConcat(Without(flat, Pdus), Without(back, Pdus), there, here);
    if Mentions(flat, Transmitters) {
      NestedNotPlain(FramePdus(a), FramePdus(b), Pdus, Transmitters);
      NestedNotPlain(FramePdus(b), FramePdus(a), Pdus, Transmitters);
      WithoutConcat(Without(flat, Pdus), there, Transmitters);
      WithoutConcat(Without(back, Pdus), here, Transmitters);
      MembersMirror(a.transmitters, b.transmitters, Transmitters);
      MirroredConcat(Without(Without(flat, Pdus), Transmitters), Without(Without(back, Pdus), Transmitters), there,
                     here);
      MirroredConcat(Without(Without(flat, Pdus) + there, Transmitters),
                     Without(Without(back, Pdus) + here, Transmitters),
                     NestedDiffs(MemberItems(a.transmitters), MemberItems(b.transmitters), Transmitters),
                     NestedDiffs(MemberItems(b.transmitters), MemberItems(a.transmitters), Transmitters));
    }
  }

  lemma SwapIsMirror(a: seq<FieldDiff>)
    ensures Mirrored(a, SwapAll(a))
  {}

  lemma {:induction false} KeyPassNotPlain(side: Side, field: Field, o: map<string, KeyedItem>,
                                           n: map<string, KeyedItem>, keys: seq<string>)
    ensures forall d <- KeyPass(side, field, o, n, keys) :: !d.fieldName.Plain?
  {
    if keys != [] {
      KeyPassNotPlain(side, field, o, n, keys[..|keys| - 1]);
      var key := keys[|keys| - 1];
      if side == Both && key in o && key in n {
        RenamedNotPlain(field, key, FlatDiffs(o[key].fields, n[key].fields));
      }
    }
  }

  lemma {:induction false} RenamedNotPlain(field: Field, key: string, subs: seq<FieldDiff>)
    ensures forall d <- RenamedAll(field, key, subs) :: !d.fieldName.Plain?
  {
    if subs != [] {
      RenamedNotPlain(field, key, subs[1..]);
    }
  }

  lemma {:induction false} WithoutOthers(diffs: seq<FieldDiff>, field: Field)
    requires forall d <- diffs :: !d.fieldName.Plain?
    ensures Without(diffs, field) == diffs
  {
    if diffs != [] {
      WithoutOthers(diffs[1..], field);
    }
  }

  /** Dropping a flat field leaves keyed diffs alone. */
  lemma NestedNotPlain(a: seq<KeyedItem>, b: seq<KeyedItem>, field: Field, dropped: Field)
    ensures Without(NestedDiffs(a, b, field), dropped) == NestedDiffs(a, b, field)
  {
    hide KeyPass, ByKey, Without;
    var o, n := ByKey(a), ByKey(b);
    KeyPassNotPlain(OnlyOld, field, o, n, Ascending(o.Keys));
    KeyPassNotPlain(OnlyNew, field, o, n, Ascending(n.Keys));
    KeyPassNotPlain(Both, field, o, n, Ascending(o.Keys));
    WithoutOthers(NestedDiffs(a, b, field), dropped);
  }

  lemma TableMirror(a: Option<seq<ValueTableEntry>>, b: Option<seq<ValueTableEntry>>)
    ensures Mirrored(TableDiffs(a, b), TableDiffs(b, a))
  {
    hide NestedDiffs, ByKey;
    CollectionsAlike(TableItems(a), TableItems(b));
    NestedMirror(TableItems(a), TableItems(b), ValueTable);
  }

  lemma SignalMirror(a: Signal, b: Signal)
    ensures Mirrored(ElementDiffs(SignalElement(a), SignalElement(b)), ElementDiffs(SignalElement(b), SignalElement(a)))
  {
    hide FlatDiffs, NestedDiffs, Without, SwapAll, TableDiffs, ByKey, Mirrored, Mentions;
    var oldFields, newFields := FieldsOf(SignalElement(a)), FieldsOf(SignalElement(b));
    SignalFieldsAlike(a, b);
    hide FieldsOf;
    var flat, back := FlatDiffs(oldFields, newFields), FlatDiffs(newFields, oldFields);
    FlatMirror(oldFields, newFields);
    SwapWithout(flat, ValueTable);
    SwapWithout(Without(flat, ValueTable), Receivers);
    SwapIsMirror(Without(Without(flat, ValueTable), Receivers));
    TableMirror(a.valueTable, b.valueTable);
    MembersMirror(a.receivers, b.receivers, Receivers);
    MirroredConcat(Without(Without(flat, ValueTable), Receivers), Without(Without(back, ValueTable), Receivers),
                   TableDiffs(a.valueTable, b.valueTable), TableDiffs(b.valueTable, a.valueTable));
    MirroredConcat(Without(Without(flat, ValueTable), Receivers) + TableDiffs(a.valueTable, b.valueTable),
                   Without(Without(back, ValueTable), Receivers) + TableDiffs(b.valueTable, a.valueTable),
                   NestedDiffs(MemberItems(a.receivers), MemberItems(b.receivers), Receivers),
                   NestedDiffs(MemberItems(b.receivers), MemberItems(a.receivers), Receivers));
  }

  /** The fields of a signal by position; table and receivers come last. */
  lemma SignalFieldsAt(s: Signal)
    ensures var a := FieldsOf(SignalElement(s));
      && |a| == 13 && a[0] == FieldText(CommonField, CommonText(s.common))
        && a[1] == FieldText(StartBit, NatToString(s.startBit))
      && a[2] == FieldText(BitLength, NatToString(s.bitLength))
        && a[3] == FieldText(ByteOrderField, ByteOrderText(s.byteOrder))
      && a[4] == FieldText(IsSigned, BoolText(s.isSigned)) && a[5] == FieldText(Factor, s.factor.text)
      && a[6] == FieldText(Offset, s.offset.text) && a[7] == FieldText(Min, DoubleOptionText(s.min))
      && a[8] == FieldText(Max, DoubleOptionText(s.max)) && a[9] == FieldText(Unit, OptionText(s.unit))
      && a[10] == FieldText(InitValue, DoubleOptionText(s.initValue)) && a[11].field == Receivers
        && a[12].field == ValueTable
  {
    hide CommonText, NatToString, ByteOrderText, BoolText, DoubleOptionText, OptionText, ListText, TableText;
  }

  lemma SignalFieldsAlike(a: Signal, b: Signal)
    ensures SameFields(FieldsOf(SignalElement(a)), FieldsOf(SignalElement(b)))
  {
    hide FieldsOf, CommonText, NatToString, ByteOrderText, BoolText, DoubleOptionText, OptionText;
    SignalFieldsAt(a);
    SignalFieldsAt(b);
  }

  /** An element compared with itself shows nothing. */
  lemma ElementSame(e: Element)
    ensures ElementDiffs(e, e) == []
  {
    hide ByKey, NestedDiffs, FieldsOf, TableDiffs;
    FlatSame(FieldsOf(e));
    match e
    case ClusterElement(_) =>
    case EcuElement(_) =>
    case FrameElement(f) => NestedSame(FramePdus(f), FramePdus(f), Pdus);
    case PduElement(p) => NestedSame(PduSignals(p), PduSignals(p), SignalMappings);
    case SignalElement(s) =>
      TableSame(s.valueTable);
      NestedSame(MemberItems(s.receivers), MemberItems(s.receivers), Receivers);
    case GroupElement(g) => NestedSame(MemberItems(g.members), MemberItems(g.members), Field.Members);
  }

  lemma TableSame(t: Option<seq<ValueTableEntry>>)
    ensures TableDiffs(t, t) == []
  {
    hide ByKey, NestedDiffs;
    NestedSame(TableItems(t), TableItems(t), ValueTable);
  }
}
