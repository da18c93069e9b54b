/**
  The builders against the readers: what each record becomes when the element
  written for it is loaded and read again.
 */
module ReadBack {
  import opened Wrappers
  import opened Model
  import opened ModelBuilder
  import opened Numbers
  import opened RawTree
  import opened Sorting
  import opened Text
  import opened WriteElements
  import opened WriteEngine
  import opened XmlTree

  // ----- records as a parser leaves them -----

  predicate TidyCommon(c: CommonFields) {
    Trimmed(c.shortName) && (c.category.Some? ==> Trimmed(c.category.value))
  }

  predicate TidyNames(names: seq<string>) {
    forall name <- names :: name != "" && Trimmed(name)
  }

  predicate TidyRefs(names: seq<string>) {
    forall name <- names :: name != "" && RefName(name)
  }

  predicate TidyFramePdu(m: FramePduMapping) {
    RefName(m.pduShortNameRef) && m.startPosition < TWO_32
  }

  predicate TidyPduSignal(m: PduSignalMapping) {
    RefName(m.signalShortNameRef) && m.startPosition < TWO_32
  }

  predicate TidyInitValue(reader: FloatReader, value: Option<Double>) {
    value.Some? ==> ReadsBack(reader, value.value)
  }

  /** Texts trimmed, references reduced, numbers in their 32 bits, nested names not empty. */
  predicate Tidy(reader: FloatReader, e: Element) {
    TidyCommon(e.Common()) &&
    match e
    case ClusterElement(c) => (c.baudrate.Some? ==> c.baudrate.value < TWO_32) && TidyNames(c.physicalChannels)
    case EcuElement(u) => TidyRefs(u.connectedChannels) && TidyNames(u.controllers)
    case FrameElement(f) => f.length < TWO_32 && TidyRefs(f.transmitters) && forall m <- f.pdus :: TidyFramePdu(m)
    case PduElement(p) => p.length < TWO_32 && forall m <- p.signalMappings :: TidyPduSignal(m)
    case SignalElement(s) =>
      s.startBit < TWO_32 && s.bitLength < TWO_32 && TidyRefs(s.receivers) && TidyInitValue(reader, s.initValue)
    case GroupElement(g) => TidyRefs(g.members)
  }

  // ----- what writing and reading keeps -----

  function Renewed(c: CommonFields, category: Option<string>, span: RawSpan): CommonFields {
    CommonFields(c.shortName, category, span)
  }

  function BigEndian(m: PduSignalMapping): PduSignalMapping {
    m.(byteOrder := MostSignificantByteFirst)
  }

  function BigEndianAll(ms: seq<PduSignalMapping>): (r: seq<PduSignalMapping>)
    ensures |r| == |ms| && forall i :: 0 <= i < |ms| ==> r[i] == BigEndian(ms[i])
  {
    if ms == [] then [] else BigEndianAll(ms[..|ms| - 1]) + [BigEndian(ms[|ms| - 1])]
  }

  /** The record that comes back: nested lists sorted, dropped fields at their defaults. */
  function Reread(e: Element, span: RawSpan): Element {
    match e
    case ClusterElement(c) =>
      ClusterElement(Cluster(Renewed(c.common, c.common.category, span), c.baudrate, SortedStrings(c.physicalChannels)))
    case EcuElement(u) =>
      EcuElement(EcuInstance(Renewed(u.common, u.common.category, span), [], SortedStrings(u.controllers)))
    case FrameElement(f) =>
      FrameElement(Frame(Renewed(f.common, None, span), f.length, [], SortedFramePdus(f.pdus)))
    case PduElement(p) =>
      PduElement(Pdu(Renewed(p.common, None, span), p.length, BigEndianAll(SortedPduSignals(p.signalMappings))))
    case SignalElement(s) =>
      SignalElement(Signal(Renewed(s.common, None, span), 0, s.bitLength, MostSignificantByteFirst, s.isSigned,
                           ONE, ZERO, None, None, None, s.initValue, [], None))
    case GroupElement(g) =>
      GroupElement(SignalGroup(Renewed(g.common, None, span), SortedStrings(g.members)))
  }

  // ----- searching the written pieces -----

  lemma SearchLeaf(node: Node, tag: Tag)
    requires node.children == []
    ensures FindIn([node], tag) == if node.tag == tag then Some(node) else None
    ensures MatchesIn([node], tag) == if node.tag == tag then [node] else []
  {
    SearchOne(node, tag);
    assert MatchesIn([], tag) == [];
  }

  lemma SearchBranch(node: Node, tag: Tag)
    requires node.tag != tag
    ensures FindIn([node], tag) == None
    ensures MatchesIn([node], tag) == MatchesIn(node.children, tag)
  {
    SearchOne(node, tag);
  }

  lemma SearchWrapper(tag: Tag, children: seq<Node>, t: Tag)
    requires t != tag
    ensures FindIn(Wrapper(tag, children), t) == None
    ensures MatchesIn(Wrapper(tag, children), t) == MatchesIn(children, t)
  {
    if children != [] {
      SearchBranch(Branch(tag, children), t);
    }
  }

  lemma SearchOptional(tag: Tag, value: Option<string>, t: Tag)
    ensures FindIn(OptionalLeaf(tag, value), t) == if t == tag && value.Some? then Some(Leaf(tag, value.value))
      else None
    ensures MatchesIn(OptionalLeaf(tag, value), t) == if t == tag && value.Some? then [Leaf(tag, value.value)] else []
  {
    if value.Some? {
      SearchLeaf(Leaf(tag, value.value), t);
    }
  }

  lemma {:induction false} SearchNamed(tag: Tag, names: seq<string>, t: Tag)
    requires tag != SHORT_NAME && t != SHORT_NAME
    ensures MatchesIn(NamedNodes(tag, names), t) == if t == tag then NamedNodes(tag, names) else []
  {
    if names != [] {
      var front, last := names[..|names| - 1], NamedNode(tag, names[|names| - 1]);
      SearchNamed(tag, front, t);
      MatchesInConcat(NamedNodes(tag, front), [last], t);
      SearchOne(last, t);
      SearchLeaf(Leaf(SHORT_NAME, names[|names| - 1]), t);
    }
  }

  /** The text of a leaf child survives loading. */
  lemma LoadedText(written: Node, node: Node, tag: Tag)
    requires Loaded(written, node)
    requires FindChild(written, tag).Some? ==> FindChild(written, tag).value.children == []
    ensures ChildText(node, tag) == ChildText(written, tag)
  {
    LoadedFind(written.children, node.children, tag);
  }

  lemma TrimmedText(node: Node, tag: Tag)
    requires FindChild(node, tag).Some? && Trimmed(FindChild(node, tag).value.text)
    ensures ChildText(node, tag) == Some(FindChild(node, tag).value.text)
  {
    TrimTrimmed(FindChild(node, tag).value.text);
  }

  /** A decimal leaf reads as its number. */
  lemma LoadedNumber(written: Node, node: Node, tag: Tag, n: nat, fallback: nat)
    requires Loaded(written, node)
    requires FindChild(written, tag) == Some(Leaf(tag, NatToString(n))) && n < TWO_32
    ensures ChildUint32(node, tag, fallback) == n
  {
    hide ParseUint32, NatToString, TrimText;
    LoadedText(written, node, tag);
    PrintedDigits(n);
    TrimmedText(written, tag);
    Uint32RoundTrip(n);
  }

  lemma NamedText(tag: Tag, name: string, node: Node)
    requires Trimmed(name) && Loaded(NamedNode(tag, name), node)
    ensures ChildText(node, SHORT_NAME) == Some(name)
  {
    hide Loaded, TrimText;
    SearchLeaf(Leaf(SHORT_NAME, name), SHORT_NAME);
    LoadedText(NamedNode(tag, name), node, SHORT_NAME);
    TrimmedText(NamedNode(tag, name), SHORT_NAME);
  }

  lemma {:induction false} NamesReadBack(tag: Tag, names: seq<string>, nodes: seq<Node>)
    requires TidyNames(names) && |nodes| == |names|
    requires forall i :: 0 <= i < |names| ==> Loaded(NamedNode(tag, names[i]), nodes[i])
    ensures NamesOf(nodes) == names
  {
    hide Loaded, NamedNode, ChildText, Trimmed;
    if names != [] {
      var last := |names| - 1;
      NamesReadBack(tag, names[..last], nodes[..last]);
      assert names[last] in names;
      NamedText(tag, names[last], nodes[last]);
      assert names == names[..last] + [names[last]];
    }
  }

  lemma LoadedNames(tag: Tag, names: seq<string>, nodes: seq<Node>)
    requires TidyNames(names) && AllLoaded(NamedNodes(tag, names), nodes)
    ensures NamesOf(nodes) == names
  {
    LoadedEach(NamedNodes(tag, names), nodes);
    hide Loaded, AllLoaded, NamesOf;
    NamesReadBack(tag, names, nodes);
  }

  lemma SortedKeepsNames(names: seq<string>)
    requires TidyNames(names)
    ensures TidyNames(SortedStrings(names))
  {
    forall x | x in SortedStrings(names) ensures x in names {
      InMultiset(SortedStrings(names), x);
      InMultiset(names, x);
    }
  }

  /** The common fields of a loaded element. */
  lemma LoadedCommon(written: Node, node: Node, common: CommonFields, category: Option<string>)
    requires Loaded(written, node) && TidyCommon(common.(category := category))
    requires FindChild(written, SHORT_NAME) == Some(Leaf(SHORT_NAME, common.shortName))
    requires FindChild(written, CATEGORY) == if category.Some? then Some(Leaf(CATEGORY, category.value)) else None
    ensures CommonOf(node) == Renewed(common, category, node.span)
  {
    hide Loaded, TrimText;
    LoadedText(written, node, SHORT_NAME);
    TrimmedText(written, SHORT_NAME);
    LoadedText(written, node, CATEGORY);
    if category.Some? {
      TrimmedText(written, CATEGORY);
    }
  }

  // ----- clusters and control units -----

  lemma ConditionalSearch(c: Cluster, t: Tag)
    requires t != SHORT_NAME && t != PHYSICAL_CHANNELS
    ensures MatchesIn(OptionalLeaf(BAUDRATE, Decimal(c.baudrate))
                      + Wrapper(PHYSICAL_CHANNELS, NamedNodes(CAN_PHYSICAL_CHANNEL, SortedStrings(c.physicalChannels))),
                        t) ==
      if t == BAUDRATE && c.baudrate.Some? then [Leaf(BAUDRATE, NatToString(c.baudrate.value))]
      else if t == CAN_PHYSICAL_CHANNEL then NamedNodes(CAN_PHYSICAL_CHANNEL, SortedStrings(c.physicalChannels))
      else []
  {
    hide NatToString, SortedStrings, MatchesIn, FindIn, NamedNodes, Wrapper, OptionalLeaf;
    var channels := NamedNodes(CAN_PHYSICAL_CHANNEL, SortedStrings(c.physicalChannels));
    SearchOptional(BAUDRATE, Decimal(c.baudrate), t);
    SearchNamed(CAN_PHYSICAL_CHANNEL, SortedStrings(c.physicalChannels), t);
    SearchWrapper(PHYSICAL_CHANNELS, channels, t);
    MatchesInConcat(OptionalLeaf(BAUDRATE, Decimal(c.baudrate)), Wrapper(PHYSICAL_CHANNELS, channels), t);
  }

  lemma VariantsSearch(c: Cluster, t: Tag)
    requires t != SHORT_NAME && t != CAN_CLUSTER_VARIANTS && t != CAN_CLUSTER_CONDITIONAL && t != PHYSICAL_CHANNELS
    ensures FindIn(ClusterVariants(c), t) == None
    ensures MatchesIn(ClusterVariants(c), t) ==
      if t == BAUDRATE && c.baudrate.Some? then [Leaf(BAUDRATE, NatToString(c.baudrate.value))]
      else if t == CAN_PHYSICAL_CHANNEL then NamedNodes(CAN_PHYSICAL_CHANNEL, SortedStrings(c.physicalChannels))
      else []
  {
    hide NatToString, StableSort, MatchesIn, FindIn, NamedNodes, Wrapper, OptionalLeaf;
    var conditional := Branch(CAN_CLUSTER_CONDITIONAL, OptionalLeaf(BAUDRATE, Decimal(c.baudrate))
                              + Wrapper(PHYSICAL_CHANNELS, NamedNodes(CAN_PHYSICAL_CHANNEL,
                                SortedStrings(c.physicalChannels))));
    ConditionalSearch(c, t);
    SearchBranch(conditional, t);
    SearchBranch(Branch(CAN_CLUSTER_VARIANTS, [conditional]), t);
    SearchNothing(t);
  }

  lemma SearchNothing(t: Tag)
    ensures FindIn([], t) == None && MatchesIn([], t) == []
  {}

  /** A leaf of another tag in front changes no search. */
  lemma SkipLeaf(head: Node, rest: seq<Node>, t: Tag)
    requires head.children == [] && head.tag != t
    ensures FindIn([head] + rest, t) == FindIn(rest, t)
    ensures MatchesIn([head] + rest, t) == MatchesIn(rest, t)
  {
    SearchLeaf(head, t);
    FindInConcat([head], rest, t);
    MatchesInConcat([head], rest, t);
  }

  lemma SkipHeader(name: string, category: Option<string>, rest: seq<Node>, t: Tag)
    requires t != SHORT_NAME && t != CATEGORY
    ensures FindIn([Leaf(SHORT_NAME, name)] + OptionalLeaf(CATEGORY, category) + rest, t) == FindIn(rest, t)
    ensures MatchesIn([Leaf(SHORT_NAME, name)] + OptionalLeaf(CATEGORY, category) + rest, t) == MatchesIn(rest, t)
  {
    hide MatchesIn, FindIn;
    var head, optional := Leaf(SHORT_NAME, name), OptionalLeaf(CATEGORY, category);
    assert [head] + optional + rest == [head] + (optional + rest);
    SkipLeaf(head, optional + rest, t);
    if category.Some? {
      SkipLeaf(Leaf(CATEGORY, category.value), rest, t);
    } else {
      assert optional + rest == rest;
    }
  }

  lemma ClusterSearch(c: Cluster, t: Tag)
    requires t != SHORT_NAME && t != CATEGORY && t != CAN_CLUSTER_VARIANTS && t != CAN_CLUSTER_CONDITIONAL
      && t != PHYSICAL_CHANNELS
    ensures FindIn(ClusterNode(c).children, t) == None
    ensures MatchesIn(ClusterNode(c).children, t) == MatchesIn(ClusterVariants(c), t)
  {
    SkipHeader(c.common.shortName, c.common.category, ClusterVariants(c), t);
    VariantsSearch(c, t);
  }

  lemma ClusterCommon(c: Cluster)
    ensures FindChild(ClusterNode(c), SHORT_NAME) == Some(Leaf(SHORT_NAME, c.common.shortName))
    ensures FindChild(ClusterNode(c), CATEGORY) == if c.common.category.Some?
      then Some(Leaf(CATEGORY, c.common.category.value)) else None
  {
    HeaderSearch(c.common.shortName, c.common.category, ClusterVariants(c));
    if ClusterVariants(c) != [] {
      SearchBranch(ClusterVariants(c)[0], CATEGORY);
    }
  }

  lemma HeaderSearch(name: string, category: Option<string>, rest: seq<Node>)
    ensures FindIn([Leaf(SHORT_NAME, name)] + OptionalLeaf(CATEGORY, category) + rest, SHORT_NAME) ==
      Some(Leaf(SHORT_NAME, name))
    ensures FindIn([Leaf(SHORT_NAME, name)] + OptionalLeaf(CATEGORY, category) + rest, CATEGORY) ==
      if category.Some? then Some(Leaf(CATEGORY, category.value)) else FindIn(rest, CATEGORY)
  {
    var head, optional := [Leaf(SHORT_NAME, name)], OptionalLeaf(CATEGORY, category);
    SearchLeaf(head[0], SHORT_NAME);
    SearchLeaf(head[0], CATEGORY);
    SearchOptional(CATEGORY, category, CATEGORY);
    FindInConcat(head, optional, SHORT_NAME);
    FindInConcat(head, optional, CATEGORY);
    FindInConcat(head + optional, rest, SHORT_NAME);
    FindInConcat(head + optional, rest, CATEGORY);
  }

  lemma BaudrateReadBack(c: Cluster, node: Node)
    requires (c.baudrate.Some? ==> c.baudrate.value < TWO_32) && Loaded(ClusterNode(c), node)
    ensures ReadCluster(node).baudrate == c.baudrate
  {
    hide Loaded, AllLoaded, FindIn, MatchesIn, NatToString, ParseUint32, TrimText, ClusterNode, NamesOf, CommonOf;
    var written := ClusterNode(c);
    ClusterSearch(c, BAUDRATE);
    VariantsSearch(c, BAUDRATE);
    LoadedText(written, node, BAUDRATE);
    LoadedDescendants(written, node, BAUDRATE);
    if c.baudrate.Some? {
      var n := c.baudrate.value;
      LoadedOne(Leaf(BAUDRATE, NatToString(n)), Descendants(node, BAUDRATE));
      PrintedDigits(n);
      TrimTrimmed(NatToString(n));
      Uint32RoundTrip(n);
    } else {
      LoadedNone(Descendants(node, BAUDRATE));
    }
  }

  lemma ChannelsReadBack(c: Cluster, node: Node)
    requires TidyNames(c.physicalChannels) && Loaded(ClusterNode(c), node)
    ensures ReadCluster(node).physicalChannels == SortedStrings(c.physicalChannels)
  {
    hide Loaded, AllLoaded, FindIn, MatchesIn, NamesOf, NamedNodes, StableSort, ClusterNode, CommonOf, BaudrateText,
      ParseUint32, TidyNames;
    var written := ClusterNode(c);
    ClusterSearch(c, PHYSICAL_CHANNEL);
    VariantsSearch(c, PHYSICAL_CHANNEL);
    ClusterSearch(c, CAN_PHYSICAL_CHANNEL);
    VariantsSearch(c, CAN_PHYSICAL_CHANNEL);
    LoadedDescendants(written, node, PHYSICAL_CHANNEL);
    LoadedDescendants(written, node, CAN_PHYSICAL_CHANNEL);
    LoadedNone(Descendants(node, PHYSICAL_CHANNEL));
    SortedKeepsNames(c.physicalChannels);
    LoadedNames(CAN_PHYSICAL_CHANNEL, SortedStrings(c.physicalChannels), Descendants(node, CAN_PHYSICAL_CHANNEL));
  }

  lemma ClusterReadBack(reader: FloatReader, c: Cluster, node: Node)
    requires Tidy(reader, ClusterElement(c)) && Loaded(ClusterNode(c), node)
    ensures ClusterElement(ReadCluster(node)) == Reread(ClusterElement(c), node.span)
  {
    ClusterCommon(c);
    LoadedCommon(ClusterNode(c), node, c.common, c.common.category);
    BaudrateReadBack(c, node);
    ChannelsReadBack(c, node);
    hide CommonOf, BaudrateText, NamesOf, ClusterNode, SortedStrings, ParseUint32;
  }

  lemma LoadedDescendants(written: Node, node: Node, tag: Tag)
    requires Loaded(written, node)
    ensures AllLoaded(Descendants(written, tag), Descendants(node, tag))
  {
    LoadedMatchesIn(written.children, node.children, tag);
  }

  lemma LoadedNone(nodes: seq<Node>)
    ensures AllLoaded([], nodes) <==> nodes == []
    ensures NamesOf([]) == [] && RefNames([]) == []
  {}

  lemma LoadedOne(written: Node, nodes: seq<Node>)
    requires AllLoaded([written], nodes) && written.children == []
    ensures |nodes| == 1 && nodes[0].text == written.text
  {
    LoadedEach([written], nodes);
  }

  lemma EcuSearch(u: EcuInstance, t: Tag)
    requires t != SHORT_NAME && t != CATEGORY && t != COMM_CONTROLLERS
    ensures FindIn(EcuInstanceNode(u).children, t) == None
    ensures MatchesIn(EcuInstanceNode(u).children, t) ==
      if t == CAN_COMMUNICATION_CONTROLLER then NamedNodes(CAN_COMMUNICATION_CONTROLLER, SortedStrings(u.controllers))
        else []
  {
    hide MatchesIn, FindIn, NamedNodes, StableSort;
    var controllers := NamedNodes(CAN_COMMUNICATION_CONTROLLER, SortedStrings(u.controllers));
    SkipHeader(u.common.shortName, u.common.category, Wrapper(COMM_CONTROLLERS, controllers), t);
    SearchWrapper(COMM_CONTROLLERS, controllers, t);
    SearchNamed(CAN_COMMUNICATION_CONTROLLER, SortedStrings(u.controllers), t);
  }

  lemma EcuCommon(u: EcuInstance)
    ensures FindChild(EcuInstanceNode(u), SHORT_NAME) == Some(Leaf(SHORT_NAME, u.common.shortName))
    ensures FindChild(EcuInstanceNode(u), CATEGORY) == if u.common.category.Some?
      then Some(Leaf(CATEGORY, u.common.category.value)) else None
  {
    hide NamedNodes, SortedStrings, FindIn;
    var controllers := NamedNodes(CAN_COMMUNICATION_CONTROLLER, SortedStrings(u.controllers));
    HeaderSearch(u.common.shortName, u.common.category, Wrapper(COMM_CONTROLLERS, controllers));
    SearchWrapper(COMM_CONTROLLERS, controllers, CATEGORY);
  }

  lemma EcuAbsent(u: EcuInstance, node: Node, t: Tag)
    requires Loaded(EcuInstanceNode(u), node) && (t == CHANNEL_REF || t == CAN_CONTROLLER)
    ensures Descendants(node, t) == []
  {
    hide Loaded, AllLoaded, FindIn, MatchesIn, NamedNodes, SortedStrings, EcuInstanceNode;
    EcuSearch(u, t);
    LoadedDescendants(EcuInstanceNode(u), node, t);
    LoadedNone(Descendants(node, t));
  }

  lemma EcuControllers(u: EcuInstance, node: Node)
    requires TidyNames(u.controllers) && Loaded(EcuInstanceNode(u), node)
    ensures NamesOf(Descendants(node, CAN_COMMUNICATION_CONTROLLER)) == SortedStrings(u.controllers)
  {
    hide Loaded, AllLoaded, FindIn, MatchesIn, NamesOf, NamedNodes, SortedStrings, EcuInstanceNode, TidyNames;
    EcuSearch(u, CAN_COMMUNICATION_CONTROLLER);
    LoadedDescendants(EcuInstanceNode(u), node, CAN_COMMUNICATION_CONTROLLER);
    SortedKeepsNames(u.controllers);
    LoadedNames(CAN_COMMUNICATION_CONTROLLER, SortedStrings(u.controllers),
                Descendants(node, CAN_COMMUNICATION_CONTROLLER));
  }

  lemma ControllersReadBack(u: EcuInstance, node: Node)
    requires TidyNames(u.controllers) && Loaded(EcuInstanceNode(u), node)
    ensures ReadEcuInstance(node).controllers == SortedStrings(u.controllers)
    ensures ReadEcuInstance(node).connectedChannels == []
  {
    hide Loaded, Descendants, NamesOf, SortedStrings, EcuInstanceNode, CommonOf, TidyNames, RefNames;
    NothingRead();
    EcuAbsent(u, node, CHANNEL_REF);
    EcuAbsent(u, node, CAN_CONTROLLER);
    EcuControllers(u, node);
    assert [] + SortedStrings(u.controllers) == SortedStrings(u.controllers);
  }

  lemma EcuReadBack(reader: FloatReader, u: EcuInstance, node: Node)
    requires Tidy(reader, EcuElement(u)) && Loaded(EcuInstanceNode(u), node)
    ensures EcuElement(ReadEcuInstance(node)) == Reread(EcuElement(u), node.span)
  {
    EcuCommon(u);
    LoadedCommon(EcuInstanceNode(u), node, u.common, u.common.category);
    ControllersReadBack(u, node);
    hide CommonOf, NamesOf, RefNames, EcuInstanceNode, SortedStrings;
  }

  // ----- mappings -----

  /** Searching a leaf, an optional leaf and another leaf. */
  lemma SearchThree(head: Node, optional: seq<Node>, last: Node, t: Tag)
    requires head.children == [] && last.children == [] && head.tag != t
    requires optional == [] || (|optional| == 1 && optional[0].children == [])
    ensures FindIn([head] + optional + [last], t) ==
      if optional != [] && optional[0].tag == t then Some(optional[0]) else if last.tag == t then Some(last) else None
    ensures (optional == [] || optional[0].tag != t) && last.tag != t ==> MatchesIn([head] + optional + [last], t) == []
  {
    hide MatchesIn, FindIn;
    assert [head] + optional + [last] == [head] + (optional + [last]);
    SkipLeaf(head, optional + [last], t);
    SearchLeaf(last, t);
    if optional == [] {
      assert optional + [last] == [last];
    } else {
      assert optional == [optional[0]];
      SearchLeaf(optional[0], t);
      FindInConcat(optional, [last], t);
      MatchesInConcat(optional, [last], t);
    }
  }

  /** The direct children of a mapping element. */
  lemma MappingFind(tag: Tag, name: string, refTag: Tag, dest: string, ref: string, start: nat)
    requires refTag != START_POSITION && refTag != SHORT_NAME
    ensures ref == "" ==> FindChild(MappingNode(tag, name, refTag, dest, ref, start), refTag) == None
    ensures ref != "" ==>
      FindChild(MappingNode(tag, name, refTag, dest, ref, start), refTag) == Some(RefLeaf(refTag, dest, ref))
    ensures FindChild(MappingNode(tag, name, refTag, dest, ref, start), START_POSITION) ==
      Some(Leaf(START_POSITION, NatToString(start)))
  {
    OptionalRefShape(refTag, dest, ref);
    hide MatchesIn, FindIn, NatToString, OptionalRef, RefLeaf;
    var head, optional, last := Leaf(SHORT_NAME, name), OptionalRef(refTag, dest, ref),
      Leaf(START_POSITION, NatToString(start));
    SearchThree(head, optional, last, refTag);
    SearchThree(head, optional, last, START_POSITION);
  }

  lemma MappingLacks(tag: Tag, name: string, refTag: Tag, dest: string, ref: string, start: nat, t: Tag)
    requires t != SHORT_NAME && t != refTag && t != START_POSITION
    ensures Lacks(MappingNode(tag, name, refTag, dest, ref, start).children, t)
  {
    OptionalRefShape(refTag, dest, ref);
    hide MatchesIn, FindIn, NatToString, OptionalRef, RefLeaf, Lacks;
    ThreeLack(Leaf(SHORT_NAME, name), OptionalRef(refTag, dest, ref), Leaf(START_POSITION, NatToString(start)), t);
  }

  lemma ThreeLack(head: Node, optional: seq<Node>, last: Node, t: Tag)
    requires head.children == [] && last.children == [] && head.tag != t && last.tag != t
    requires optional == [] || (|optional| == 1 && optional[0].children == [] && optional[0].tag != t)
    ensures Lacks([head] + optional + [last], t)
  {
    hide MatchesIn, FindIn;
    SearchThree(head, optional, last, t);
  }

  lemma MappingTag(tag: Tag, name: string, refTag: Tag, dest: string, ref: string, start: nat)
    ensures MappingNode(tag, name, refTag, dest, ref, start).tag == tag
  {}

  lemma OptionalRefShape(refTag: Tag, dest: string, ref: string)
    ensures ref == "" ==> OptionalRef(refTag, dest, ref) == []
    ensures ref != "" ==> OptionalRef(refTag, dest, ref) == [RefLeaf(refTag, dest, ref)]
    ensures RefLeaf(refTag, dest, ref).tag == refTag && RefLeaf(refTag, dest, ref).children == []
  {}

  /** A reference and a start position read back from a loaded mapping. */
  lemma MappingReadBack(tag: Tag, name: string, refTag: Tag, dest: string, ref: string, start: nat, node: Node)
    requires Loaded(MappingNode(tag, name, refTag, dest, ref, start), node)
    requires RefName(ref) && start < TWO_32 && refTag != START_POSITION && refTag != SHORT_NAME
    ensures RefIn(ChildText(node, refTag)) == ref
    ensures ChildUint32(node, START_POSITION, 0) == start
  {
    hide Loaded, FindIn, ShortNameOfRef, TrimText, ParseUint32, NatToString;
    var written := MappingNode(tag, name, refTag, dest, ref, start);
    MappingFind(tag, name, refTag, dest, ref, start);
    hide MappingNode;
    LoadedNumber(written, node, START_POSITION, start, 0);
    LoadedText(written, node, refTag);
    if ref != "" {
      SysPathReduces(ref);
      TrimmedText(written, refTag);
    }
  }

  lemma NoText(written: Node, node: Node, tag: Tag)
    requires Loaded(written, node) && FindChild(written, tag) == None
    ensures ChildText(node, tag) == None
  {
    LoadedText(written, node, tag);
  }

  lemma MappingNoText(tag: Tag, name: string, refTag: Tag, dest: string, ref: string, start: nat, node: Node, t: Tag)
    requires Loaded(MappingNode(tag, name, refTag, dest, ref, start), node)
    requires t != SHORT_NAME && t != refTag && t != START_POSITION
    ensures ChildText(node, t) == None
  {
    hide Loaded, MappingNode, ChildText, Lacks;
    var written := MappingNode(tag, name, refTag, dest, ref, start);
    MappingLacks(tag, name, refTag, dest, ref, start, t);
    LacksMeansNotFound(written.children, t);
    NoText(written, node, t);
  }

  // ----- frames -----

  lemma {:induction false} FramePduNodesSearch(owner: string, ms: seq<FramePduMapping>, t: Tag)
    requires t != SHORT_NAME && t != PDU_REF && t != START_POSITION
    ensures MatchesIn(FramePduNodes(owner, ms), t) == if t == PDU_TO_FRAME_MAPPING then FramePduNodes(owner, ms) else []
  {
    hide MatchesIn, FindIn, MappingNode;
    SearchNothing(t);
    if ms != [] {
      var idx := |ms| - 1;
      var m := ms[idx];
      var last := FramePduNode(owner, idx, m);
      FramePduNodesSearch(owner, ms[..idx], t);
      MatchesInConcat(FramePduNodes(owner, ms[..idx]), [last], t);
      MappingLacks(PDU_TO_FRAME_MAPPING, MappingName(owner, m.pduShortNameRef, idx), PDU_REF, "I-SIGNAL-I-PDU",
                   m.pduShortNameRef, m.startPosition, t);
      MappingTag(PDU_TO_FRAME_MAPPING, MappingName(owner, m.pduShortNameRef, idx), PDU_REF, "I-SIGNAL-I-PDU",
                 m.pduShortNameRef, m.startPosition);
      SearchMapping(last, t);
    }
  }

  lemma SearchMapping(node: Node, t: Tag)
    requires MatchesIn(node.children, t) == []
    ensures MatchesIn([node], t) == if node.tag == t then [node] else []
  {
    SearchOne(node, t);
  }

  lemma FrameSearch(f: Frame, t: Tag)
    requires t != PDU_REF && t != START_POSITION && t != PDU_TO_FRAME_MAPPINGS
    ensures FindIn(FrameNode(f).children, t) ==
      if t == SHORT_NAME then Some(Leaf(SHORT_NAME, f.common.shortName))
      else if t == FRAME_LENGTH then Some(Leaf(FRAME_LENGTH, NatToString(f.length)))
      else None
    ensures t != SHORT_NAME && t != FRAME_LENGTH ==>
      MatchesIn(FrameNode(f).children, t) ==
      (if t == PDU_TO_FRAME_MAPPING then FramePduNodes(f.common.shortName, SortedFramePdus(f.pdus)) else [])
  {
    hide MatchesIn, FindIn, NatToString, SortedFramePdus, FramePduNodes;
    var name, length := Leaf(SHORT_NAME, f.common.shortName), Leaf(FRAME_LENGTH, NatToString(f.length));
    var mappings := FramePduNodes(f.common.shortName, SortedFramePdus(f.pdus));
    TwoLeaves(name, length, Wrapper(PDU_TO_FRAME_MAPPINGS, mappings), t);
    SearchWrapper(PDU_TO_FRAME_MAPPINGS, mappings, t);
    if t != SHORT_NAME {
      FramePduNodesSearch(f.common.shortName, SortedFramePdus(f.pdus), t);
    }
  }

  lemma TwoLeaves(a: Node, b: Node, rest: seq<Node>, t: Tag)
    requires a.children == [] && b.children == []
    ensures FindIn([a, b] + rest, t) == if a.tag == t then Some(a) else if b.tag == t then Some(b) else FindIn(rest, t)
    ensures a.tag != t && b.tag != t ==> MatchesIn([a, b] + rest, t) == MatchesIn(rest, t)
  {
    hide MatchesIn, FindIn;
    assert [a, b] + rest == [a] + ([b] + rest);
    SearchLeaf(a, t);
    SearchLeaf(b, t);
    FindInConcat([a], [b] + rest, t);
    FindInConcat([b], rest, t);
    MatchesInConcat([a], [b] + rest, t);
    MatchesInConcat([b], rest, t);
  }

  lemma {:induction false} FramePdusReadBack(owner: string, ms: seq<FramePduMapping>, nodes: seq<Node>)
    requires AllLoaded(FramePduNodes(owner, ms), nodes) && forall m <- ms :: TidyFramePdu(m)
    ensures ReadFramePdus(nodes) == ms
  {
    FramePduNodesAt(owner, ms);
    LoadedEach(FramePduNodes(owner, ms), nodes);
    ReadFramePdusAt(nodes);
    hide Loaded, AllLoaded, FramePduNodes, ReadFramePdus, MappingNode, ChildUint32, RefIn;
    forall i | 0 <= i < |ms| ensures ReadFramePdus(nodes)[i] == ms[i] {
      var m := ms[i];
      assert TidyFramePdu(m);
      assert Loaded(FramePduNodes(owner, ms)[i], nodes[i]);
      MappingReadBack(PDU_TO_FRAME_MAPPING, MappingName(owner, m.pduShortNameRef, i), PDU_REF, "I-SIGNAL-I-PDU",
                      m.pduShortNameRef, m.startPosition, nodes[i]);
    }
  }

  lemma SortedKeepsFramePdus(ms: seq<FramePduMapping>)
    requires forall m <- ms :: TidyFramePdu(m)
    ensures forall m <- SortedFramePdus(ms) :: TidyFramePdu(m)
  {
    forall m | m in SortedFramePdus(ms) ensures m in ms {
      InMultiset(SortedFramePdus(ms), m);
      InMultiset(ms, m);
    }
  }

  lemma FrameScalars(f: Frame, node: Node)
    requires TidyCommon(f.common) && f.length < TWO_32 && Loaded(FrameNode(f), node)
    ensures ReadFrame(node).common == Renewed(f.common, None, node.span)
    ensures ReadFrame(node).length == f.length
  {
    var written := FrameNode(f);
    hide Loaded, AllLoaded, FindIn, MatchesIn, NatToString, FrameNode, ChildText, ParseUint32, TrimText, CommonOf;
    FrameSearch(f, SHORT_NAME);
    FrameSearch(f, CATEGORY);
    LoadedCommon(written, node, f.common, None);
    FrameSearch(f, FRAME_LENGTH);
    LoadedNumber(written, node, FRAME_LENGTH, f.length, 0);
    FrameSearch(f, LENGTH);
    NoText(written, node, LENGTH);
  }

  lemma NothingRead()
    ensures ReadFramePdus([]) == [] && ReadPduSignals([]) == [] && RefNames([]) == [] && NamesOf([]) == []
  {}

  /** Searches for tags the frame does not hold find nothing. */
  lemma FrameAbsent(f: Frame, node: Node, t: Tag)
    requires Loaded(FrameNode(f), node) && (t == TRANSMITTER_REF || t == FRAME_PDU)
    ensures Descendants(node, t) == []
  {
    hide Loaded, AllLoaded, FindIn, MatchesIn, FramePduNodes, SortedFramePdus, FrameNode, NatToString;
    FrameSearch(f, t);
    LoadedDescendants(FrameNode(f), node, t);
    LoadedNone(Descendants(node, t));
  }

  lemma FrameMappings(f: Frame, node: Node)
    requires (forall m <- f.pdus :: TidyFramePdu(m)) && Loaded(FrameNode(f), node)
    ensures ReadFramePdus(Descendants(node, PDU_TO_FRAME_MAPPING)) == SortedFramePdus(f.pdus)
  {
    hide Loaded, AllLoaded, FindIn, MatchesIn, FramePduNodes, SortedFramePdus, FrameNode, ReadFramePdus, TidyFramePdu,
      NatToString;
    FrameSearch(f, PDU_TO_FRAME_MAPPING);
    LoadedDescendants(FrameNode(f), node, PDU_TO_FRAME_MAPPING);
    SortedKeepsFramePdus(f.pdus);
    FramePdusReadBack(f.common.shortName, SortedFramePdus(f.pdus), Descendants(node, PDU_TO_FRAME_MAPPING));
  }

  lemma FrameLists(f: Frame, node: Node)
    requires (forall m <- f.pdus :: TidyFramePdu(m)) && Loaded(FrameNode(f), node)
    ensures ReadFrame(node).transmitters == [] && ReadFrame(node).pdus == SortedFramePdus(f.pdus)
  {
    hide Loaded, Descendants, SortedFramePdus, FrameNode, CommonOf, ReadFramePdus, TidyFramePdu, ChildUint32, RefNames;
    NothingRead();
    FrameAbsent(f, node, TRANSMITTER_REF);
    FrameAbsent(f, node, FRAME_PDU);
    FrameMappings(f, node);
    assert [] + SortedFramePdus(f.pdus) == SortedFramePdus(f.pdus);
  }

  lemma FrameReadBack(reader: FloatReader, f: Frame, node: Node)
    requires Tidy(reader, FrameElement(f)) && Loaded(FrameNode(f), node)
    ensures FrameElement(ReadFrame(node)) == Reread(FrameElement(f), node.span)
  {
    hide Loaded, FrameNode, SortedFramePdus, ReadFrame, TidyFramePdu;
    FrameScalars(f, node);
    FrameLists(f, node);
  }

  // ----- PDUs -----

  lemma {:induction false} PduSignalNodesSearch(owner: string, ms: seq<PduSignalMapping>, t: Tag)
    requires t != SHORT_NAME && t != I_SIGNAL_REF && t != START_POSITION
    ensures MatchesIn(PduSignalNodes(owner, ms), t) == if t == I_SIGNAL_TO_I_PDU_MAPPING then PduSignalNodes(owner, ms)
      else []
  {
    hide MatchesIn, FindIn, MappingNode;
    SearchNothing(t);
    if ms != [] {
      var idx := |ms| - 1;
      var m := ms[idx];
      var last := PduSignalNode(owner, idx, m);
      PduSignalNodesSearch(owner, ms[..idx], t);
      MatchesInConcat(PduSignalNodes(owner, ms[..idx]), [last], t);
      MappingLacks(I_SIGNAL_TO_I_PDU_MAPPING, MappingName(owner, m.signalShortNameRef, idx), I_SIGNAL_REF, "I-SIGNAL",
                   m.signalShortNameRef, m.startPosition, t);
      MappingTag(I_SIGNAL_TO_I_PDU_MAPPING, MappingName(owner, m.signalShortNameRef, idx), I_SIGNAL_REF, "I-SIGNAL",
                 m.signalShortNameRef, m.startPosition);
      SearchMapping(last, t);
    }
  }

  lemma PduSearch(p: Pdu, t: Tag)
    requires t != I_SIGNAL_REF && t != START_POSITION && t != I_SIGNAL_TO_PDU_MAPPINGS
    ensures FindIn(PduNode(p).children, t) ==
      if t == SHORT_NAME then Some(Leaf(SHORT_NAME, p.common.shortName))
      else if t == LENGTH then Some(Leaf(LENGTH, NatToString(p.length)))
      else None
    ensures t != SHORT_NAME && t != LENGTH ==>
      MatchesIn(PduNode(p).children, t) ==
      (if t == I_SIGNAL_TO_I_PDU_MAPPING then PduSignalNodes(p.common.shortName, SortedPduSignals(p.signalMappings))
        else [])
  {
    hide MatchesIn, FindIn, NatToString, SortedPduSignals, PduSignalNodes;
    var name, length := Leaf(SHORT_NAME, p.common.shortName), Leaf(LENGTH, NatToString(p.length));
    var mappings := PduSignalNodes(p.common.shortName, SortedPduSignals(p.signalMappings));
    TwoLeaves(name, length, Wrapper(I_SIGNAL_TO_PDU_MAPPINGS, mappings), t);
    SearchWrapper(I_SIGNAL_TO_PDU_MAPPINGS, mappings, t);
    if t != SHORT_NAME {
      PduSignalNodesSearch(p.common.shortName, SortedPduSignals(p.signalMappings), t);
    }
  }

  lemma PduSignalReadBack(owner: string, idx: nat, m: PduSignalMapping, node: Node)
    requires TidyPduSignal(m) && Loaded(PduSignalNode(owner, idx, m), node)
    ensures ReadPduSignal(node) == BigEndian(m)
  {
    var name := MappingName(owner, m.signalShortNameRef, idx);
    hide Loaded, MappingNode, ChildText, ChildUint32, RefIn, ParseByteOrder, MappingName;
    MappingNoText(I_SIGNAL_TO_I_PDU_MAPPING, name, I_SIGNAL_REF, "I-SIGNAL", m.signalShortNameRef, m.startPosition,
                  node, SIGNAL_REF);
    MappingNoText(I_SIGNAL_TO_I_PDU_MAPPING, name, I_SIGNAL_REF, "I-SIGNAL", m.signalShortNameRef, m.startPosition,
                  node, BYTE_ORDER);
    MappingNoText(I_SIGNAL_TO_I_PDU_MAPPING, name, I_SIGNAL_REF, "I-SIGNAL", m.signalShortNameRef, m.startPosition,
                  node,
                  PACKING_BYTE_ORDER);
    MappingReadBack(I_SIGNAL_TO_I_PDU_MAPPING, name, I_SIGNAL_REF, "I-SIGNAL", m.signalShortNameRef, m.startPosition,
                    node);
  }

  lemma {:induction false} PduSignalsReadBack(owner: string, ms: seq<PduSignalMapping>, nodes: seq<Node>)
    requires AllLoaded(PduSignalNodes(owner, ms), nodes) && forall m <- ms :: TidyPduSignal(m)
    ensures ReadPduSignals(nodes) == BigEndianAll(ms)
  {
    PduSignalNodesAt(owner, ms);
    LoadedEach(PduSignalNodes(owner, ms), nodes);
    ReadPduSignalsAt(nodes);
    hide Loaded, AllLoaded, PduSignalNodes, PduSignalNode, ReadPduSignals, ReadPduSignal, TidyPduSignal, BigEndianAll;
    forall i | 0 <= i < |ms| ensures ReadPduSignals(nodes)[i] == BigEndianAll(ms)[i] {
      assert ms[i] in ms;
      assert Loaded(PduSignalNodes(owner, ms)[i], nodes[i]);
      PduSignalReadBack(owner, i, ms[i], nodes[i]);
    }
  }

  lemma SortedKeepsPduSignals(ms: seq<PduSignalMapping>)
    requires forall m <- ms :: TidyPduSignal(m)
    ensures forall m <- SortedPduSignals(ms) :: TidyPduSignal(m)
  {
    forall m | m in SortedPduSignals(ms) ensures m in ms {
      InMultiset(SortedPduSignals(ms), m);
      InMultiset(ms, m);
    }
  }

  lemma PduScalars(p: Pdu, node: Node)
    requires TidyCommon(p.common) && p.length < TWO_32 && Loaded(PduNode(p), node)
    ensures ReadPdu(node).common == Renewed(p.common, None, node.span)
    ensures ReadPdu(node).length == p.length
  {
    var written := PduNode(p);
    hide Loaded, AllLoaded, FindIn, MatchesIn, NatToString, PduNode, ChildText, ParseUint32, TrimText, CommonOf;
    PduSearch(p, SHORT_NAME);
    PduSearch(p, CATEGORY);
    LoadedCommon(written, node, p.common, None);
    PduSearch(p, LENGTH);
    LoadedNumber(written, node, LENGTH, p.length, 0);
  }

  lemma PduMappings(p: Pdu, node: Node)
    requires (forall m <- p.signalMappings :: TidyPduSignal(m)) && Loaded(PduNode(p), node)
    ensures Descendants(node, PDU_SIGNAL_MAPPING) == []
    ensures ReadPduSignals(Descendants(node, I_SIGNAL_TO_I_PDU_MAPPING)) ==
      BigEndianAll(SortedPduSignals(p.signalMappings))
  {
    hide Loaded, AllLoaded, FindIn, MatchesIn, PduSignalNodes, SortedPduSignals, PduNode, ReadPduSignals, TidyPduSignal,
      BigEndianAll, NatToString;
    PduSearch(p, PDU_SIGNAL_MAPPING);
    LoadedDescendants(PduNode(p), node, PDU_SIGNAL_MAPPING);
    LoadedNone(Descendants(node, PDU_SIGNAL_MAPPING));
    PduSearch(p, I_SIGNAL_TO_I_PDU_MAPPING);
    LoadedDescendants(PduNode(p), node, I_SIGNAL_TO_I_PDU_MAPPING);
    SortedKeepsPduSignals(p.signalMappings);
    PduSignalsReadBack(p.common.shortName, SortedPduSignals(p.signalMappings),
                       Descendants(node, I_SIGNAL_TO_I_PDU_MAPPING));
  }

  lemma PduLists(p: Pdu, node: Node)
    requires (forall m <- p.signalMappings :: TidyPduSignal(m)) && Loaded(PduNode(p), node)
    ensures ReadPdu(node).signalMappings == BigEndianAll(SortedPduSignals(p.signalMappings))
  {
    hide Loaded, Descendants, SortedPduSignals, PduNode, CommonOf, ReadPduSignals, TidyPduSignal, ChildUint32,
      BigEndianAll;
    NothingRead();
    PduMappings(p, node);
    var sorted := BigEndianAll(SortedPduSignals(p.signalMappings));
    assert [] + sorted == sorted;
  }

  lemma PduReadBack(reader: FloatReader, p: Pdu, node: Node)
    requires Tidy(reader, PduElement(p)) && Loaded(PduNode(p), node)
    ensures PduElement(ReadPdu(node)) == Reread(PduElement(p), node.span)
  {
    hide Loaded, PduNode, SortedPduSignals, ReadPdu, TidyPduSignal, BigEndianAll;
    PduScalars(p, node);
    PduLists(p, node);
  }

  // ----- signals -----

  /** Every tag a signal element can hold below its top. */
  lemma SignalSearch(s: Signal, t: Tag)
    requires t != NUMERICAL_VALUE_SPECIFICATION && t != NETWORK_REPRESENTATION_PROPS && t != SW_DATA_DEF_PROPS_VARIANTS
    requires t != SW_DATA_DEF_PROPS_CONDITIONAL
    ensures t != VALUE && t != BASE_TYPE_REF ==>
      FindIn(SignalNode(s).children, t) ==
      (if t == SHORT_NAME then Some(Leaf(SHORT_NAME, s.common.shortName))
       else if t == INIT_VALUE && s.initValue.Some? then Some(InitValueNodes(s)[0])
       else if t == LENGTH then Some(Leaf(LENGTH, NatToString(s.bitLength)))
       else None)
    ensures t != SHORT_NAME && t != INIT_VALUE && t != LENGTH && t != VALUE ==>
      MatchesIn(SignalNode(s).children, t) == MatchesIn(SignednessNodes(s), t)
  {
    hide MatchesIn, FindIn, NatToString, SignednessNodes;
    var name, length := Leaf(SHORT_NAME, s.common.shortName), Leaf(LENGTH, NatToString(s.bitLength));
    var init, signed := InitValueNodes(s), SignednessNodes(s);
    assert [name] + init + [length] + signed == [name] + (init + ([length] + signed));
    SearchLeaf(name, t);
    SearchLeaf(length, t);
    FindInConcat([name], init + ([length] + signed), t);
    MatchesInConcat([name], init + ([length] + signed), t);
    FindInConcat(init, [length] + signed, t);
    MatchesInConcat(init, [length] + signed, t);
    FindInConcat([length], signed, t);
    MatchesInConcat([length], signed, t);
    InitValueSearch(s, t);
    SignednessSearch(s, t);
  }

  lemma InitValueSearch(s: Signal, t: Tag)
    requires t != NUMERICAL_VALUE_SPECIFICATION
    ensures FindIn(InitValueNodes(s), t) == if t == INIT_VALUE && s.initValue.Some? then Some(InitValueNodes(s)[0])
      else None
    ensures t != INIT_VALUE && t != VALUE ==> MatchesIn(InitValueNodes(s), t) == []
    ensures s.initValue.Some? ==>
      MatchesIn(InitValueNodes(s)[0].children, VALUE) == [Leaf(VALUE, s.initValue.value.text)]
  {
    hide MatchesIn, FindIn;
    SearchNothing(t);
    if s.initValue.Some? {
      var value := Leaf(VALUE, s.initValue.value.text);
      var spec := Branch(NUMERICAL_VALUE_SPECIFICATION, [value]);
      if t == INIT_VALUE {
        SearchTagged(Branch(INIT_VALUE, [spec]));
      } else {
        SearchBranch(Branch(INIT_VALUE, [spec]), t);
      }
      SearchBranch(spec, t);
      SearchBranch(spec, VALUE);
      SearchLeaf(value, t);
      SearchLeaf(value, VALUE);
    }
  }

  lemma SearchTagged(node: Node)
    ensures FindIn([node], node.tag) == Some(node)
  {
    SearchOne(node, node.tag);
  }

  lemma SignednessSearch(s: Signal, t: Tag)
    requires t != NETWORK_REPRESENTATION_PROPS && t != SW_DATA_DEF_PROPS_VARIANTS && t != SW_DATA_DEF_PROPS_CONDITIONAL
    ensures FindIn(SignednessNodes(s), t) == None
    ensures MatchesIn(SignednessNodes(s), t) ==
      if t == BASE_TYPE_REF && s.isSigned
        then [Node(BASE_TYPE_REF, [("DEST", "SW-BASE-TYPE")], "/SwBaseType/SINT8", [], NOWHERE)] else []
  {
    hide MatchesIn, FindIn;
    SearchNothing(t);
    if s.isSigned {
      var ref := Node(BASE_TYPE_REF, [("DEST", "SW-BASE-TYPE")], "/SwBaseType/SINT8", [], NOWHERE);
      var conditional := Branch(SW_DATA_DEF_PROPS_CONDITIONAL, [ref]);
      var variants := Branch(SW_DATA_DEF_PROPS_VARIANTS, [conditional]);
      SearchLeaf(ref, t);
      SearchBranch(conditional, t);
      SearchBranch(variants, t);
      SearchBranch(Branch(NETWORK_REPRESENTATION_PROPS, [variants]), t);
    }
  }

  lemma {:induction false} UpperUnchanged(text: string)
    requires forall c <- text :: !('a' <= c <= 'z')
    ensures AsciiUpper(text) == text
  {
    if text != "" {
      assert text[0] in text;
      forall c | c in text[1..] ensures c in text {}
      UpperUnchanged(text[1..]);
    }
  }

  lemma SignedName()
    ensures IsSignedBaseType("/SwBaseType/SINT8")
  {
    RefRoundTrip("/SwBaseType", "SINT8");
    assert "/SwBaseType" + "/" + "SINT8" == "/SwBaseType/SINT8";
    hide ShortNameOfRef;
    UpperUnchanged("SINT8");
    hide AsciiUpper;
    assert "SINT8"[..4] == "SINT";
  }

  lemma SignednessReadBack(s: Signal, node: Node)
    requires Loaded(SignalNode(s), node)
    ensures ReadSignedness(node) == s.isSigned
  {
    hide Loaded, AllLoaded, FindIn, MatchesIn, SignalNode, SignednessNodes, IsSignedBaseType;
    SignalSearch(s, BASE_TYPE_REF);
    SignednessSearch(s, BASE_TYPE_REF);
    LoadedDescendants(SignalNode(s), node, BASE_TYPE_REF);
    if s.isSigned {
      LoadedOne(Node(BASE_TYPE_REF, [("DEST", "SW-BASE-TYPE")], "/SwBaseType/SINT8", [], NOWHERE),
                Descendants(node, BASE_TYPE_REF));
      SignedName();
    } else {
      LoadedNone(Descendants(node, BASE_TYPE_REF));
    }
  }

  lemma InitValueLoaded(s: Signal, node: Node)
    requires Loaded(SignalNode(s), node)
    ensures FindChild(node, INIT_VALUE).Some? == s.initValue.Some?
    ensures s.initValue.Some? ==> Loaded(InitValueNodes(s)[0], FindChild(node, INIT_VALUE).value)
  {
    LoadedChildren(SignalNode(s), node);
    LoadedFind(SignalNode(s).children, node.children, INIT_VALUE);
    hide Loaded, AllLoaded, FindIn, MatchesIn, SignalNode;
    SignalSearch(s, INIT_VALUE);
  }

  lemma InitValueReadBack(reader: FloatReader, s: Signal, node: Node)
    requires TidyInitValue(reader, s.initValue) && Loaded(SignalNode(s), node)
    ensures ReadInitValue(reader, node) == s.initValue
  {
    hide Loaded, AllLoaded, MatchesIn, FindIn, SignalNode, ParseDouble, ReadsBack;
    InitValueLoaded(s, node);
    if s.initValue.Some? {
      var init := FindChild(node, INIT_VALUE).value;
      InitValueSearch(s, INIT_VALUE);
      LoadedDescendants(InitValueNodes(s)[0], init, VALUE);
      hide InitValueNodes;
      LoadedOne(Leaf(VALUE, s.initValue.value.text), Descendants(init, VALUE));
      ParsePrinted(reader, s.initValue.value);
    }
  }

  lemma LoadedChildren(written: Node, node: Node)
    requires Loaded(written, node)
    ensures AllLoaded(written.children, node.children)
  {}

  lemma SignalScalars(s: Signal, node: Node)
    requires TidyCommon(s.common) && s.bitLength < TWO_32 && Loaded(SignalNode(s), node)
    ensures CommonOf(node) == Renewed(s.common, None, node.span)
    ensures ChildUint32(node, BIT_LENGTH, ChildUint32(node, LENGTH, 0)) == s.bitLength
    ensures ChildUint32(node, START_BIT, 0) == 0 && ByteOrderIn(ChildText(node, BYTE_ORDER)) == MostSignificantByteFirst
  {
    var written := SignalNode(s);
    hide Loaded, AllLoaded, FindIn, MatchesIn, NatToString, SignalNode, ChildText, ParseUint32, TrimText, CommonOf,
      ParseByteOrder;
    SignalSearch(s, SHORT_NAME);
    SignalSearch(s, CATEGORY);
    LoadedCommon(written, node, s.common, None);
    SignalSearch(s, LENGTH);
    LoadedNumber(written, node, LENGTH, s.bitLength, 0);
    SignalSearch(s, BIT_LENGTH);
    NoText(written, node, BIT_LENGTH);
    SignalSearch(s, START_BIT);
    NoText(written, node, START_BIT);
    SignalSearch(s, BYTE_ORDER);
    NoText(written, node, BYTE_ORDER);
  }

  lemma SignalLists(s: Signal, node: Node)
    requires Loaded(SignalNode(s), node)
    ensures RefNames(Descendants(node, RECEIVER_REF)) == [] && FindChild(node, VALUE_TABLE) == None
  {
    hide Loaded, AllLoaded, FindIn, MatchesIn, SignalNode, SignednessNodes, RefNames;
    SignalSearch(s, RECEIVER_REF);
    SignednessSearch(s, RECEIVER_REF);
    LoadedDescendants(SignalNode(s), node, RECEIVER_REF);
    LoadedNone(Descendants(node, RECEIVER_REF));
    SignalSearch(s, VALUE_TABLE);
    LoadedChildren(SignalNode(s), node);
    LoadedFind(SignalNode(s).children, node.children, VALUE_TABLE);
  }

  lemma SignalReadBack(reader: FloatReader, s: Signal, node: Node)
    requires Tidy(reader, SignalElement(s)) && Loaded(SignalNode(s), node)
    ensures SignalElement(ReadSignal(reader, node)) == Reread(SignalElement(s), node.span)
  {
    hide Loaded, SignalNode, CommonOf, ChildUint32, ChildText, ByteOrderIn, ReadSignedness, ReadInitValue, RefNames,
      FindIn, MatchesIn;
    SignalScalars(s, node);
    SignednessReadBack(s, node);
    InitValueReadBack(reader, s, node);
    SignalLists(s, node);
  }

  // ----- signal groups -----

  lemma {:induction false} MemberRefsSearch(names: seq<string>, t: Tag)
    ensures MatchesIn(MemberRefs(names), t) == if t == I_SIGNAL_REF then MemberRefs(names) else []
  {
    hide MatchesIn, FindIn;
    SearchNothing(t);
    if names != [] {
      var front, last := names[..|names| - 1], names[|names| - 1];
      MemberRefsSearch(front, t);
      SearchLeaf(RefLeaf(I_SIGNAL_REF, "I-SIGNAL", last), t);
      MatchesInConcat(MemberRefs(front), [RefLeaf(I_SIGNAL_REF, "I-SIGNAL", last)], t);
    }
  }

  lemma GroupSearch(g: SignalGroup, t: Tag)
    requires t != I_SIGNAL_REFS
    ensures FindIn(SignalGroupNode(g).children, t) == if t == SHORT_NAME then Some(Leaf(SHORT_NAME, g.common.shortName))
      else None
    ensures t != SHORT_NAME ==>
      MatchesIn(SignalGroupNode(g).children, t) ==
        (if t == I_SIGNAL_REF then MemberRefs(SortedStrings(g.members)) else [])
  {
    hide MatchesIn, FindIn, SortedStrings, MemberRefs;
    var name, members := Leaf(SHORT_NAME, g.common.shortName), MemberRefs(SortedStrings(g.members));
    SearchLeaf(name, t);
    FindInConcat([name], Wrapper(I_SIGNAL_REFS, members), t);
    MatchesInConcat([name], Wrapper(I_SIGNAL_REFS, members), t);
    SearchWrapper(I_SIGNAL_REFS, members, t);
    MemberRefsSearch(SortedStrings(g.members), t);
  }

  lemma SysPathReduces(name: string)
    requires RefName(name) && name != ""
    ensures Trimmed(SysPath(name)) && ShortNameOfRef(SysPath(name)) == name
  {
    RefRoundTrip("/Sys", name);
    assert "/Sys" + "/" + name == SysPath(name);
  }

  lemma {:induction false} MembersReadBack(names: seq<string>, nodes: seq<Node>)
    requires TidyRefs(names) && |nodes| == |names|
    requires forall i :: 0 <= i < |names| ==> nodes[i].text == SysPath(names[i])
    ensures RefNames(nodes) == names
  {
    hide ShortNameOfRef, SysPath, RefName;
    if names != [] {
      var last := |names| - 1;
      MembersReadBack(names[..last], nodes[..last]);
      assert names[last] in names;
      SysPathReduces(names[last]);
      assert names == names[..last] + [names[last]];
    }
  }

  lemma SortedKeepsRefs(names: seq<string>)
    requires TidyRefs(names)
    ensures TidyRefs(SortedStrings(names))
  {
    forall x | x in SortedStrings(names) ensures x in names {
      InMultiset(SortedStrings(names), x);
      InMultiset(names, x);
    }
  }

  lemma MembersLoaded(names: seq<string>, nodes: seq<Node>)
    requires TidyRefs(names) && AllLoaded(MemberRefs(names), nodes)
    ensures RefNames(nodes) == names
  {
    LoadedEach(MemberRefs(names), nodes);
    hide RefNames, AllLoaded, TidyRefs;
    forall i | 0 <= i < |names| ensures nodes[i].text == SysPath(names[i]) {
      assert Loaded(MemberRefs(names)[i], nodes[i]);
    }
    MembersReadBack(names, nodes);
  }

  lemma GroupMembers(g: SignalGroup, node: Node)
    requires TidyRefs(g.members) && Loaded(SignalGroupNode(g), node)
    ensures RefNames(Descendants(node, I_SIGNAL_REF)) == SortedStrings(g.members)
    ensures Descendants(node, SYSTEM_SIGNAL_REF) == []
  {
    hide Loaded, AllLoaded, FindIn, MatchesIn, SortedStrings, MemberRefs, SignalGroupNode, RefNames, TidyRefs;
    GroupSearch(g, I_SIGNAL_REF);
    GroupSearch(g, SYSTEM_SIGNAL_REF);
    LoadedDescendants(SignalGroupNode(g), node, I_SIGNAL_REF);
    LoadedDescendants(SignalGroupNode(g), node, SYSTEM_SIGNAL_REF);
    LoadedNone(Descendants(node, SYSTEM_SIGNAL_REF));
    SortedKeepsRefs(g.members);
    MembersLoaded(SortedStrings(g.members), Descendants(node, I_SIGNAL_REF));
  }

  lemma GroupLists(g: SignalGroup, node: Node)
    requires TidyRefs(g.members) && Loaded(SignalGroupNode(g), node)
    ensures ReadSignalGroup(node).members == SortedStrings(g.members)
  {
    hide Loaded, Descendants, SortedStrings, SignalGroupNode, CommonOf, RefNames, TidyRefs;
    NothingRead();
    GroupMembers(g, node);
    assert SortedStrings(g.members) + [] == SortedStrings(g.members);
  }

  lemma GroupReadBack(reader: FloatReader, g: SignalGroup, node: Node)
    requires Tidy(reader, GroupElement(g)) && Loaded(SignalGroupNode(g), node)
    ensures GroupElement(ReadSignalGroup(node)) == Reread(GroupElement(g), node.span)
  {
    hide Loaded, FindIn, MatchesIn, SortedStrings, SignalGroupNode, RefNames, CommonOf;
    GroupSearch(g, SHORT_NAME);
    GroupSearch(g, CATEGORY);
    LoadedCommon(SignalGroupNode(g), node, g.common, None);
    GroupLists(g, node);
  }

  // ----- any record -----

  /** What the writer emits for a record, loaded, reads back as the reread record. */
  lemma ElementReadBack(reader: FloatReader, t: ElementType, e: Element, node: Node)
    requires HasType(e, t) && Tidy(reader, e) && Loaded(ElementNode(e), node)
    ensures Family(node.tag) == Some(t) && ReadElement(reader, t, node) == Reread(e, node.span)
  {
    TagSurvives(ElementNode(e), node);
    ElementTag(e, t);
    hide Loaded, Tidy, Reread, ReadCluster, ReadEcuInstance, ReadFrame, ReadPdu, ReadSignal, ReadSignalGroup,
      ClusterNode, EcuInstanceNode, FrameNode, PduNode, SignalNode, SignalGroupNode;
    match e
    case ClusterElement(c) => ClusterReadBack(reader, c, node);
    case EcuElement(u) => EcuReadBack(reader, u, node);
    case FrameElement(f) => FrameReadBack(reader, f, node);
    case PduElement(p) => PduReadBack(reader, p, node);
    case SignalElement(s) => SignalReadBack(reader, s, node);
    case GroupElement(g) => GroupReadBack(reader, g, node);
  }

  lemma TagSurvives(written: Node, node: Node)
    requires Loaded(written, node)
    ensures node.tag == written.tag
  {}

  lemma ElementTag(e: Element, t: ElementType)
    requires HasType(e, t)
    ensures Family(ElementNode(e).tag) == Some(t)
  {
    hide OptionalLeaf, ClusterVariants, Wrapper, NamedNodes, SortedStrings, FramePduNodes, SortedFramePdus,
      PduSignalNodes,
      SortedPduSignals, InitValueNodes, SignednessNodes, MemberRefs, NatToString;
  }
}
