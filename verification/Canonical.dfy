/**
  The written form is canonical: writing what was read back writes the same
  tree, and no permutation of records or nested lists changes it as long as
  names and mapping keys are distinct.
 */
module Canonical {
  import opened Wrappers
  import opened DiffFields
  import opened DiffMatch
  import opened Model
  import opened ModelBuilder
  import opened Numbers
  import opened RawTree
  import opened ReadBack
  import opened Reparse
  import opened RoundTrip
  import opened Sorting
  import opened Text
  import opened WriteElements
  import opened WriteEngine
  import opened XmlTree

  // ----- sorting twice -----

  lemma FramePduOrder()
    ensures TotalPreorder(FramePduLeq)
  {
    StrOrder();
    hide StrLeq;
    forall x, y, z | FramePduLeq(x, y) && FramePduLeq(y, z) ensures FramePduLeq(x, z) {
      StrTransitive(x.pduShortNameRef, y.pduShortNameRef, z.pduShortNameRef);
    }
    forall x, y ensures FramePduLeq(x, y) || FramePduLeq(y, x) {
      StrTotal(x.pduShortNameRef, y.pduShortNameRef);
    }
  }

  lemma PduSignalOrder()
    ensures TotalPreorder(PduSignalLeq)
  {
    hide StrLeq;
    forall x, y, z | PduSignalLeq(x, y) && PduSignalLeq(y, z) ensures PduSignalLeq(x, z) {
      StrTransitive(x.signalShortNameRef, y.signalShortNameRef, z.signalShortNameRef);
    }
    forall x, y ensures PduSignalLeq(x, y) || PduSignalLeq(y, x) {
      StrTotal(x.signalShortNameRef, y.signalShortNameRef);
    }
  }

  lemma NameOrder()
    ensures TotalPreorder(NameLeq)
  {
    hide StrLeq;
    forall x, y, z | NameLeq(x, y) && NameLeq(y, z) ensures NameLeq(x, z) {
      StrTransitive(x.Common().shortName, y.Common().shortName, z.Common().shortName);
    }
    forall x, y ensures NameLeq(x, y) || NameLeq(y, x) {
      StrTotal(x.Common().shortName, y.Common().shortName);
    }
  }

  lemma SortedStringsTwice(names: seq<string>)
    ensures SortedStrings(SortedStrings(names)) == SortedStrings(names)
  {
    hide StableSort, StrLeq;
    StrOrder();
    StableSortSorts(names, StrLeq);
    StableSortIdempotent(SortedStrings(names), StrLeq);
  }

  lemma SortedFramePdusTwice(ms: seq<FramePduMapping>)
    ensures SortedFramePdus(SortedFramePdus(ms)) == SortedFramePdus(ms)
  {
    hide StableSort, FramePduLeq;
    FramePduOrder();
    StableSortSorts(ms, FramePduLeq);
    StableSortIdempotent(SortedFramePdus(ms), FramePduLeq);
  }

  lemma SortedPduSignalsTwice(ms: seq<PduSignalMapping>)
    ensures SortedPduSignals(BigEndianAll(SortedPduSignals(ms))) == BigEndianAll(SortedPduSignals(ms))
  {
    var sorted := SortedPduSignals(ms);
    hide StableSort, StrLeq;
    PduSignalOrder();
    StableSortSorts(ms, PduSignalLeq);
    forall i, j | 0 <= i < j < |sorted| ensures PduSignalLeq(BigEndianAll(sorted)[i], BigEndianAll(sorted)[j]) {
      assert PduSignalLeq(sorted[i], sorted[j]);
    }
    StableSortIdempotent(BigEndianAll(sorted), PduSignalLeq);
  }

  /** Byte orders of mappings are not written. */
  lemma {:induction false} ByteOrderUnwritten(owner: string, ms: seq<PduSignalMapping>)
    ensures PduSignalNodes(owner, BigEndianAll(ms)) == PduSignalNodes(owner, ms)
  {
    hide MappingNode;
    if ms != [] {
      var k := |ms| - 1;
      ByteOrderUnwritten(owner, ms[..k]);
      assert BigEndianAll(ms)[..k] == BigEndianAll(ms[..k]);
    }
  }

  // ----- writing what was read back -----

  lemma ClusterRewritten(c: Cluster, span: RawSpan)
    ensures ElementNode(Reread(ClusterElement(c), span)) == ClusterNode(c)
  {
    SortedStringsTwice(c.physicalChannels);
    hide StableSort, NamedNodes, NatToString;
    assert |SortedStrings(c.physicalChannels)| == |c.physicalChannels|;
  }

  lemma EcuRewritten(u: EcuInstance, span: RawSpan)
    ensures ElementNode(Reread(EcuElement(u), span)) == EcuInstanceNode(u)
  {
    SortedStringsTwice(u.controllers);
    hide StableSort, NamedNodes;
  }

  lemma FrameRewritten(f: Frame, span: RawSpan)
    ensures ElementNode(Reread(FrameElement(f), span)) == FrameNode(f)
  {
    SortedFramePdusTwice(f.pdus);
    hide StableSort, FramePduNodes, NatToString;
  }

  lemma PduRewritten(p: Pdu, span: RawSpan)
    ensures ElementNode(Reread(PduElement(p), span)) == PduNode(p)
  {
    SortedPduSignalsTwice(p.signalMappings);
    ByteOrderUnwritten(p.common.shortName, SortedPduSignals(p.signalMappings));
    hide StableSort, PduSignalNodes, NatToString, BigEndianAll;
  }

  lemma GroupRewritten(g: SignalGroup, span: RawSpan)
    ensures ElementNode(Reread(GroupElement(g), span)) == SignalGroupNode(g)
  {
    SortedStringsTwice(g.members);
    hide StableSort, MemberRefs;
  }

  lemma SignalRewritten(s: Signal, span: RawSpan)
    ensures ElementNode(Reread(SignalElement(s), span)) == SignalNode(s)
  {
    hide NatToString;
  }

  /** A record and what it reads back as are written alike. */
  lemma ElementRewritten(e: Element, span: RawSpan)
    ensures ElementNode(Reread(e, span)) == ElementNode(e)
  {
    hide Reread, ClusterNode, EcuInstanceNode, FrameNode, PduNode, SignalNode, SignalGroupNode;
    match e
    case ClusterElement(c) => ClusterRewritten(c, span);
    case EcuElement(u) => EcuRewritten(u, span);
    case FrameElement(f) => FrameRewritten(f, span);
    case PduElement(p) => PduRewritten(p, span);
    case SignalElement(s) => SignalRewritten(s, span);
    case GroupElement(g) => GroupRewritten(g, span);
  }

  lemma {:induction false} GroupRewrittenAlike(es: seq<Element>, rs: seq<Element>)
    requires Rereads(es, rs)
    ensures ElementNodes(rs) == ElementNodes(es)
  {
    hide Reread, ElementNode;
    if es != [] {
      var k := |es| - 1;
      GroupRewrittenAlike(es[..k], rs[..k]);
      ElementRewritten(es[k], rs[k].Common().rawSpanRef);
    }
  }

  lemma RereadSorted(es: seq<Element>, rs: seq<Element>)
    requires Rereads(es, rs) && SortedBy(es, NameLeq)
    ensures StableSort(rs, NameLeq) == rs
  {
    hide StrLeq;
    forall i, j | 0 <= i < j < |rs| ensures NameLeq(rs[i], rs[j]) {
      RereadSpan(es[i], rs[i].Common().rawSpanRef);
      RereadSpan(es[j], rs[j].Common().rawSpanRef);
      assert NameLeq(es[i], es[j]);
    }
    StableSortIdempotent(rs, NameLeq);
  }

  lemma GroupRewrites(reader: FloatReader, project: ParsedProject, node: Node, t: ElementType)
    requires TidyProject(reader, project) && Loaded(Document(project), node)
    ensures ElementNodes(SortedGroup(ParsedProject([ReadDocument(reader, node)]), t)) ==
      ElementNodes(SortedGroup(project, t))
  {
    DocumentReadBack(reader, project, node, t);
    OneFile(ReadDocument(reader, node), t);
    hide Loaded, Document, ReadDocument, TidyProject, CollectAll, FileElements, StableSort, Rereads, ElementNodes,
      NameLeq;
    NameOrder();
    StableSortSorts(CollectAll(project, t), NameLeq);
    RereadSorted(SortedGroup(project, t), FileElements(ReadDocument(reader, node), t));
    GroupRewrittenAlike(SortedGroup(project, t), FileElements(ReadDocument(reader, node), t));
  }

  lemma {:induction false} GroupsAlike(p: ParsedProject, q: ParsedProject, k: nat)
    requires k <= |TYPES|
    requires forall t :: ElementNodes(SortedGroup(p, t)) == ElementNodes(SortedGroup(q, t))
    ensures GroupNodes(p, k) == GroupNodes(q, k)
  {
    hide ElementNodes, SortedGroup;
    if k > 0 {
      GroupsAlike(p, q, k - 1);
    }
  }

  lemma DocumentsAlike(p: ParsedProject, q: ParsedProject)
    requires forall t :: ElementNodes(SortedGroup(p, t)) == ElementNodes(SortedGroup(q, t))
    ensures Document(p) == Document(q)
  {
    hide ElementNodes, SortedGroup, GroupNodes;
    GroupsAlike(p, q, |TYPES|);
  }

  /** Writing the reparsed project writes the very tree that was parsed. */
  lemma WritingIsCanonical(reader: FloatReader, project: ParsedProject, written: Node, node: Node)
    requires TidyProject(reader, project) && Written(project) == Ok(written) && Loaded(written, node)
    ensures Written(ParsedProject([ReadDocument(reader, node)])) == Ok(written)
  {
    var reparsed := ParsedProject([ReadDocument(reader, node)]);
    StillNamed(reader, project, node);
    hide Loaded, ReadDocument, TidyProject, ElementNodes, SortedGroup, HasBlankText, Problems, Document;
    forall t ensures ElementNodes(SortedGroup(reparsed, t)) == ElementNodes(SortedGroup(project, t)) {
      GroupRewrites(reader, project, node, t);
    }
    DocumentsAlike(reparsed, project);
  }

  /** Reparsing names every record of a project that passed validation. */
  lemma StillNamed(reader: FloatReader, project: ParsedProject, node: Node)
    requires TidyProject(reader, project) && Problems(project.files) == [] && Loaded(Document(project), node)
    ensures Problems([ReadDocument(reader, node)]) == []
  {
    hide Problems, Loaded, Document, ReadDocument, TidyProject, FilesElements, FileElements, AllNamed;
    ProblemsExact(project.files);
    ProblemsExact([ReadDocument(reader, node)]);
    forall t ensures AllNamed(FilesElements([ReadDocument(reader, node)], t)) {
      DocumentReadBack(reader, project, node, t);
      OneFile(ReadDocument(reader, node), t);
      assert AllNamed(FilesElements(project.files, t));
      SortedGroupHolds(project, t);
      RereadsNamed(CollectAll(project, t), SortedGroup(project, t), FileElements(ReadDocument(reader, node), t));
    }
  }

  lemma RereadsNamed(all: seq<Element>, es: seq<Element>, rs: seq<Element>)
    requires AllNamed(all) && Rereads(es, rs) && forall e <- es :: e in all
    ensures AllNamed(rs)
  {
    forall i | 0 <= i < |rs| ensures rs[i].Common().shortName != "" {
      assert es[i] in all;
      RereadSpan(es[i], rs[i].Common().rawSpanRef);
    }
  }

  // ----- permutations -----

  /** A record up to what the writer ignores: nested lists sorted, unwritten fields at their defaults. */
  function CanonicalOf(e: Element): Element {
    Reread(e, NOWHERE)
  }

  /** Records that differ in the order of nested lists only; mapping keys distinct. */
  ghost predicate Shuffled(a: Element, b: Element) {
    match (a, b)
    case (ClusterElement(x), ClusterElement(y)) =>
      x.(physicalChannels := []) == y.(physicalChannels := [])
        && multiset(x.physicalChannels) == multiset(y.physicalChannels)
    case (EcuElement(x), EcuElement(y)) =>
      x.(controllers := []) == y.(controllers := []) && multiset(x.controllers) == multiset(y.controllers)
    case (FrameElement(x), FrameElement(y)) =>
      x.(pdus := []) == y.(pdus := []) && multiset(x.pdus) == multiset(y.pdus)
      && forall m, m' :: m in x.pdus && m' in x.pdus && m.pduShortNameRef == m'.pduShortNameRef ==> m == m'
    case (PduElement(x), PduElement(y)) =>
      x.(signalMappings := []) == y.(signalMappings := []) && multiset(x.signalMappings) == multiset(y.signalMappings)
      && forall m, m' ::
        m in x.signalMappings && m' in x.signalMappings && m.signalShortNameRef == m'.signalShortNameRef ==> m == m'
    case (SignalElement(x), SignalElement(y)) => x == y
    case (GroupElement(x), GroupElement(y)) =>
      x.(members := []) == y.(members := []) && multiset(x.members) == multiset(y.members)
    case _ => false
  }

  lemma SortedStringsPermuted(a: seq<string>, b: seq<string>)
    requires multiset(a) == multiset(b)
    ensures SortedStrings(a) == SortedStrings(b)
  {
    PermutedStringsSort(a, b);
  }

  lemma FramePdusPermuted(a: seq<FramePduMapping>, b: seq<FramePduMapping>)
    requires multiset(a) == multiset(b)
    requires forall m, m' :: m in a && m' in a && m.pduShortNameRef == m'.pduShortNameRef ==> m == m'
    ensures SortedFramePdus(a) == SortedFramePdus(b)
  {
    FramePduOrder();
    hide StrLeq, StableSort;
    forall x, y | x in a && y in a && FramePduLeq(x, y) && FramePduLeq(y, x) ensures x == y {
      StrAntisymmetric(x.pduShortNameRef, y.pduShortNameRef);
    }
    SortUndoesPermutation(a, b, FramePduLeq);
  }

  lemma PduSignalsPermuted(a: seq<PduSignalMapping>, b: seq<PduSignalMapping>)
    requires multiset(a) == multiset(b)
    requires forall m, m' :: m in a && m' in a && m.signalShortNameRef == m'.signalShortNameRef ==> m == m'
    ensures SortedPduSignals(a) == SortedPduSignals(b)
  {
    PduSignalOrder();
    hide StrLeq, StableSort;
    forall x, y | x in a && y in a && PduSignalLeq(x, y) && PduSignalLeq(y, x) ensures x == y {
      StrAntisymmetric(x.signalShortNameRef, y.signalShortNameRef);
    }
    SortUndoesPermutation(a, b, PduSignalLeq);
  }

  /** Shuffling nested lists leaves the canonical record alone. */
  lemma ShufflingIsCanonical(a: Element, b: Element)
    requires Shuffled(a, b)
    ensures CanonicalOf(a) == CanonicalOf(b)
  {
    hide StableSort, BigEndianAll;
    match (a, b)
    case (ClusterElement(x), ClusterElement(y)) => SortedStringsPermuted(x.physicalChannels, y.physicalChannels);
    case (EcuElement(x), EcuElement(y)) => SortedStringsPermuted(x.controllers, y.controllers);
    case (FrameElement(x), FrameElement(y)) => FramePdusPermuted(x.pdus, y.pdus);
    case (PduElement(x), PduElement(y)) => PduSignalsPermuted(x.signalMappings, y.signalMappings);
    case (SignalElement(x), SignalElement(y)) =>
    case (GroupElement(x), GroupElement(y)) => SortedStringsPermuted(x.members, y.members);
  }

  predicate DistinctNames(es: seq<Element>) {
    forall a, b :: a in es && b in es && a.Common().shortName == b.Common().shortName ==> a == b
  }

  /** The same canonical records in any order, with distinct names, make the same sorted group. */
  lemma GroupPermuted(es: seq<Element>, fs: seq<Element>)
    requires multiset(MapSeq(es, CanonicalOf)) == multiset(MapSeq(fs, CanonicalOf))
      && DistinctNames(MapSeq(es, CanonicalOf))
    ensures ElementNodes(StableSort(es, NameLeq)) == ElementNodes(StableSort(fs, NameLeq))
  {
    var a, b := StableSort(es, NameLeq), StableSort(fs, NameLeq);
    NameOrder();
    StableSortSorts(es, NameLeq);
    StableSortSorts(fs, NameLeq);
    hide StableSort, StrLeq, CanonicalOf, TotalPreorder;
    MapSorted(es, NameLeq, CanonicalOf);
    MapSorted(fs, NameLeq, CanonicalOf);
    CanonicalSorted(a);
    CanonicalSorted(b);
    forall x, y | x in MapSeq(a, CanonicalOf) && y in MapSeq(a, CanonicalOf) && NameLeq(x, y) && NameLeq(y, x)
      ensures x == y {
      InMultiset(MapSeq(a, CanonicalOf), x);
      InMultiset(MapSeq(a, CanonicalOf), y);
      InMultiset(MapSeq(es, CanonicalOf), x);
      InMultiset(MapSeq(es, CanonicalOf), y);
      StrAntisymmetric(x.Common().shortName, y.Common().shortName);
    }
    SortedUnique(MapSeq(a, CanonicalOf), MapSeq(b, CanonicalOf), NameLeq);
    CanonicalNodes(a, b);
  }

  lemma CanonicalSorted(es: seq<Element>)
    requires SortedBy(es, NameLeq)
    ensures SortedBy(MapSeq(es, CanonicalOf), NameLeq)
  {
    hide StrLeq;
    var cs := MapSeq(es, CanonicalOf);
    forall i, j | 0 <= i < j < |cs| ensures NameLeq(cs[i], cs[j]) {
      assert NameLeq(es[i], es[j]);
      RereadSpan(es[i], NOWHERE);
      RereadSpan(es[j], NOWHERE);
    }
  }

  lemma {:induction false} CanonicalNodes(a: seq<Element>, b: seq<Element>)
    requires MapSeq(a, CanonicalOf) == MapSeq(b, CanonicalOf)
    ensures ElementNodes(a) == ElementNodes(b)
  {
    hide Reread, ElementNode;
    assert |a| == |MapSeq(a, CanonicalOf)| == |b|;
    if a != [] {
      var k := |a| - 1;
      forall i | 0 <= i < |a| ensures CanonicalOf(a[i]) == CanonicalOf(b[i]) {
        assert MapSeq(a, CanonicalOf)[i] == MapSeq(b, CanonicalOf)[i];
      }
      assert MapSeq(a[..k], CanonicalOf) == MapSeq(b[..k], CanonicalOf);
      CanonicalNodes(a[..k], b[..k]);
      ElementRewritten(a[k], NOWHERE);
      ElementRewritten(b[k], NOWHERE);
    }
  }

  /**
    With distinct names, the written tree depends neither on how records are
    spread over files and ordered in them nor on the order of nested lists.
   */
  lemma WritingIgnoresOrder(p: ParsedProject, q: ParsedProject)
    requires forall t :: multiset(MapSeq(CollectAll(p, t), CanonicalOf)) ==
      multiset(MapSeq(CollectAll(q, t), CanonicalOf))
    requires forall t :: DistinctNames(MapSeq(CollectAll(p, t), CanonicalOf))
    ensures Document(p) == Document(q)
  {
    hide CollectAll, DistinctNames, StableSort, ElementNodes, CanonicalOf, Document;
    forall t ensures ElementNodes(SortedGroup(p, t)) == ElementNodes(SortedGroup(q, t)) {
      assert DistinctNames(MapSeq(CollectAll(p, t), CanonicalOf));
      GroupPermuted(CollectAll(p, t), CollectAll(q, t));
    }
    DocumentsAlike(p, q);
  }

  // ----- when order matters -----

  /** However the records are ordered, they are written alike. */
  ghost predicate OrderIrrelevant(es: seq<Element>) {
    forall fs: seq<Element> :: multiset(fs) == multiset(es)
      ==> ElementNodes(StableSort(fs, NameLeq)) == ElementNodes(StableSort(es, NameLeq))
  }

  /** Records of one name are written alike. */
  predicate NamesDecide(es: seq<Element>) {
    forall a, b :: a in es && b in es && a.Common().shortName == b.Common().shortName
      ==> ElementNode(a) == ElementNode(b)
  }

  /** What a record is sorted by and what it is written as. */
  datatype Entry = Entry(name: string, node: Node)

  function EntryOf(e: Element): Entry {
    Entry(e.Common().shortName, ElementNode(e))
  }

  predicate EntryLeq(x: Entry, y: Entry) {
    StrLeq(x.name, y.name)
  }

  lemma {:induction false} NodesByEntry(es: seq<Element>)
    ensures |ElementNodes(es)| == |es| && forall i :: 0 <= i < |es| ==> ElementNodes(es)[i] == ElementNode(es[i])
  {
    hide ElementNode;
    if es != [] {
      NodesByEntry(es[..|es| - 1]);
    }
  }

  lemma EntriesSorted(es: seq<Element>)
    requires SortedBy(es, NameLeq)
    ensures SortedBy(MapSeq(es, EntryOf), EntryLeq)
  {
    hide ElementNode, StrLeq;
    var entries := MapSeq(es, EntryOf);
    forall i, j | 0 <= i < j < |entries| ensures EntryLeq(entries[i], entries[j]) {
      assert NameLeq(es[i], es[j]);
    }
  }

  lemma SameEntriesSameNodes(es: seq<Element>, fs: seq<Element>)
    requires MapSeq(es, EntryOf) == MapSeq(fs, EntryOf)
    ensures ElementNodes(es) == ElementNodes(fs)
  {
    hide ElementNode, ElementNodes;
    NodesByEntry(es);
    NodesByEntry(fs);
    assert |es| == |MapSeq(es, EntryOf)| == |fs|;
    forall i | 0 <= i < |es| ensures ElementNode(es[i]) == ElementNode(fs[i]) {
      assert MapSeq(es, EntryOf)[i] == MapSeq(fs, EntryOf)[i];
    }
  }

  lemma DecidedNamesWriteAlike(es: seq<Element>, fs: seq<Element>)
    requires multiset(fs) == multiset(es) && NamesDecide(es)
    ensures ElementNodes(StableSort(fs, NameLeq)) == ElementNodes(StableSort(es, NameLeq))
  {
    var a, b := StableSort(es, NameLeq), StableSort(fs, NameLeq);
    NameOrder();
    StableSortSorts(es, NameLeq);
    StableSortSorts(fs, NameLeq);
    hide StableSort, StrLeq, TotalPreorder, ElementNode, ElementNodes;
    EntriesSorted(a);
    EntriesSorted(b);
    MapPermuted(a, b, EntryOf);
    var x, y := MapSeq(a, EntryOf), MapSeq(b, EntryOf);
    EntriesDecided(es, a);
    SortedUnique(x, y, EntryLeq);
    SameEntriesSameNodes(a, b);
  }

  lemma EntriesDecided(es: seq<Element>, a: seq<Element>)
    requires NamesDecide(es) && multiset(a) == multiset(es)
    ensures forall u, v ::
      u in MapSeq(a, EntryOf) && v in MapSeq(a, EntryOf) && EntryLeq(u, v) && EntryLeq(v, u) ==> u == v
  {
    hide ElementNode, StrLeq;
    var x := MapSeq(a, EntryOf);
    forall u, v | u in x && v in x && EntryLeq(u, v) && EntryLeq(v, u) ensures u == v {
      var i :| 0 <= i < |a| && x[i] == u;
      var j :| 0 <= j < |a| && x[j] == v;
      SameMembers(a, es, a[i]);
      SameMembers(a, es, a[j]);
      StrAntisymmetric(u.name, v.name);
    }
  }

  lemma SameMembers(a: seq<Element>, b: seq<Element>, e: Element)
    requires multiset(a) == multiset(b)
    ensures e in a <==> e in b
  {
    InMultiset(a, e);
    InMultiset(b, e);
  }

  predicate HasName(e: Element, name: string) {
    e.Common().shortName == name
  }

  function Named(name: string): Element -> bool {
    e => HasName(e, name)
  }

  /** Of two lists written alike, name by name, the first records of a name are. */
  lemma {:induction false} FirstOfName(s: seq<Element>, t: seq<Element>, name: string)
    requires |s| == |t| && forall i :: 0 <= i < |s| ==> EntryOf(s[i]) == EntryOf(t[i])
    requires Filter(s, Named(name)) != [] && Filter(t, Named(name)) != []
    ensures ElementNode(Filter(s, Named(name))[0]) == ElementNode(Filter(t, Named(name))[0])
  {
    hide ElementNode;
    assert s != [] && t != [];
    assert EntryOf(s[0]) == EntryOf(t[0]);
    if !HasName(s[0], name) {
      FirstOfName(s[1..], t[1..], name);
    }
  }

  /** The record in front stays in front of its name. */
  lemma FrontKeepsName(e: Element, rest: seq<Element>)
    ensures var p := Named(e.Common().shortName);
      Filter(StableSort([e] + rest, NameLeq), p) != [] && Filter(StableSort([e] + rest, NameLeq), p)[0] == e
  {
    var p := Named(e.Common().shortName);
    StrReflexive(e.Common().shortName);
    hide StrLeq, StableSort;
    StableSortIsStable([e] + rest, NameLeq, p);
    assert HasName(e, e.Common().shortName);
    assert ([e] + rest)[1..] == rest;
  }

  lemma BroughtForward(es: seq<Element>, i: nat) returns (fs: seq<Element>)
    requires i < |es|
    ensures fs == [es[i]] + (es[..i] + es[i + 1..]) && multiset(fs) == multiset(es)
  {
    fs := [es[i]] + (es[..i] + es[i + 1..]);
    assert es == es[..i] + ([es[i]] + es[i + 1..]);
  }

  lemma SameNodesSameEntries(s: seq<Element>, t: seq<Element>)
    requires multiset(s) == multiset(t) && SortedBy(s, NameLeq) && SortedBy(t, NameLeq)
      && ElementNodes(s) == ElementNodes(t)
    ensures |s| == |t| && forall i :: 0 <= i < |s| ==> EntryOf(s[i]) == EntryOf(t[i])
  {
    hide ElementNode, ElementNodes, StrLeq;
    NodesByEntry(s);
    NodesByEntry(t);
    var name := (e: Element) => e.Common().shortName;
    MapPermuted(s, t, name);
    var x, y := MapSeq(s, name), MapSeq(t, name);
    forall i, j | 0 <= i < j < |x| ensures StrLeq(x[i], x[j]) && StrLeq(y[i], y[j]) {
      assert NameLeq(s[i], s[j]) && NameLeq(t[i], t[j]);
    }
    SortedStringsUnique(x, y);
    forall i | 0 <= i < |s| ensures EntryOf(s[i]) == EntryOf(t[i]) {
      assert x[i] == y[i];
    }
  }

  lemma OrderShows(es: seq<Element>, i: nat, j: nat)
    requires i < |es| && j < |es| && es[i].Common().shortName == es[j].Common().shortName
      && ElementNode(es[i]) != ElementNode(es[j])
    ensures !OrderIrrelevant(es)
  {
    var fs := BroughtForward(es, i);
    var gs := BroughtForward(es, j);
    var s, t := StableSort(fs, NameLeq), StableSort(gs, NameLeq);
    FrontKeepsName(es[i], es[..i] + es[i + 1..]);
    FrontKeepsName(es[j], es[..j] + es[j + 1..]);
    NameOrder();
    StableSortSorts(fs, NameLeq);
    StableSortSorts(gs, NameLeq);
    hide StableSort, StrLeq, TotalPreorder, ElementNode, ElementNodes, Named;
    if OrderIrrelevant(es) {
      SameNodesSameEntries(s, t);
      FirstOfName(s, t, es[i].Common().shortName);
    }
  }

  /** The order of records shows in the written list if and only if some two of one name are written differently. */
  lemma OrderMattersIff(es: seq<Element>)
    ensures OrderIrrelevant(es) <==> NamesDecide(es)
  {
    hide StableSort, ElementNode, ElementNodes, NameLeq;
    if NamesDecide(es) {
      forall fs: seq<Element> | multiset(fs) == multiset(es)
        ensures ElementNodes(StableSort(fs, NameLeq)) == ElementNodes(StableSort(es, NameLeq))
      {
        DecidedNamesWriteAlike(es, fs);
      }
    } else {
      var a, b :| a in es && b in es && a.Common().shortName == b.Common().shortName
        && ElementNode(a) != ElementNode(b);
      var i :| 0 <= i < |es| && es[i] == a;
      var j :| 0 <= j < |es| && es[j] == b;
      OrderShows(es, i, j);
    }
  }
}
