/** The six element builders and the sorting that fixes the order of nested lists. */
module WriteElements {
  import opened Wrappers
  import opened Model
  import opened Sorting
  import opened Text
  import opened XmlTree

  // ----- pieces -----

  function OptionalLeaf(tag: Tag, value: Option<string>): seq<Node> {
    match value
    case None => []
    case Some(text) => [Leaf(tag, text)]
  }

  function Decimal(value: Option<nat>): Option<string> {
    match value
    case None => None
    case Some(n) => Some(NatToString(n))
  }

  /** The path of a record in the one package the writer emits. */
  function SysPath(name: string): string {
    "/Sys/" + name
  }

  function RefLeaf(tag: Tag, dest: string, name: string): Node {
    Node(tag, [("DEST", dest)], SysPath(name), [], NOWHERE)
  }

  function NamedNode(tag: Tag, name: string): Node {
    Branch(tag, [Leaf(SHORT_NAME, name)])
  }

  function NamedNodes(tag: Tag, names: seq<string>): (r: seq<Node>)
    ensures |r| == |names| && forall i :: 0 <= i < |names| ==> r[i] == NamedNode(tag, names[i])
  {
    if names == [] then [] else NamedNodes(tag, names[..|names| - 1]) + [NamedNode(tag, names[|names| - 1])]
  }

  /** A wrapper element, left out when it would be empty. */
  function Wrapper(tag: Tag, children: seq<Node>): seq<Node> {
    if children == [] then [] else [Branch(tag, children)]
  }

  // ----- order of nested lists -----

  function SortedStrings(names: seq<string>): seq<string> {
    StableSort(names, StrLeq)
  }

  predicate FramePduLeq(a: FramePduMapping, b: FramePduMapping) {
    StrLeq(a.pduShortNameRef, b.pduShortNameRef)
  }

  predicate PduSignalLeq(a: PduSignalMapping, b: PduSignalMapping) {
    StrLeq(a.signalShortNameRef, b.signalShortNameRef)
  }

  function SortedFramePdus(mappings: seq<FramePduMapping>): seq<FramePduMapping> {
    StableSort(mappings, FramePduLeq)
  }

  function SortedPduSignals(mappings: seq<PduSignalMapping>): seq<PduSignalMapping> {
    StableSort(mappings, PduSignalLeq)
  }

  // ----- clusters and control units -----

  function ClusterVariants(c: Cluster): seq<Node> {
    if c.baudrate.None? && c.physicalChannels == [] then []
    else
      [Branch(CAN_CLUSTER_VARIANTS,
              [Branch(CAN_CLUSTER_CONDITIONAL,
                      OptionalLeaf(BAUDRATE, Decimal(c.baudrate))
                      + Wrapper(PHYSICAL_CHANNELS, NamedNodes(CAN_PHYSICAL_CHANNEL,
                                                              SortedStrings(c.physicalChannels))))])]
  }

  function ClusterNode(c: Cluster): Node {
    Branch(CAN_CLUSTER,
           [Leaf(SHORT_NAME, c.common.shortName)] + OptionalLeaf(CATEGORY, c.common.category) + ClusterVariants(c))
  }

  function EcuInstanceNode(u: EcuInstance): Node {
    Branch(ECU_INSTANCE,
           [Leaf(SHORT_NAME, u.common.shortName)] + OptionalLeaf(CATEGORY, u.common.category)
           + Wrapper(COMM_CONTROLLERS, NamedNodes(CAN_COMMUNICATION_CONTROLLER, SortedStrings(u.controllers))))
  }

  method AppendNamed(tag: Tag, names: seq<string>) returns (children: seq<Node>)
    ensures children == NamedNodes(tag, names)
  {
    children := [];
    for i := 0 to |names|
      invariant children == NamedNodes(tag, names[..i])
    {
      assert names[..i + 1][..i] == names[..i];
      children := children + [NamedNode(tag, names[i])];
    }
    assert names[..|names|] == names;
  }

  method BuildClusterElement(c: Cluster) returns (node: Node)
    ensures node == ClusterNode(c)
  {
    hide NamedNodes, StableSort, NatToString;
    var children := [Leaf(SHORT_NAME, c.common.shortName)];
    children := children + OptionalLeaf(CATEGORY, c.common.category);
    if c.baudrate.Some? || c.physicalChannels != [] {
      var conditional := OptionalLeaf(BAUDRATE, Decimal(c.baudrate));
      if c.physicalChannels != [] {
        var channels := AppendNamed(CAN_PHYSICAL_CHANNEL, SortedStrings(c.physicalChannels));
        conditional := conditional + [Branch(PHYSICAL_CHANNELS, channels)];
      } else {
        assert conditional + [] == conditional;
      }
      children := children + [Branch(CAN_CLUSTER_VARIANTS, [Branch(CAN_CLUSTER_CONDITIONAL, conditional)])];
    }
    node := Branch(CAN_CLUSTER, children);
  }

  method BuildEcuInstanceElement(u: EcuInstance) returns (node: Node)
    ensures node == EcuInstanceNode(u)
  {
    hide NamedNodes, StableSort;
    var children := [Leaf(SHORT_NAME, u.common.shortName)];
    children := children + OptionalLeaf(CATEGORY, u.common.category);
    if u.controllers != [] {
      var controllers := AppendNamed(CAN_COMMUNICATION_CONTROLLER, SortedStrings(u.controllers));
      children := children + [Branch(COMM_CONTROLLERS, controllers)];
    }
    node := Branch(ECU_INSTANCE, children);
  }

  // ----- frames and PDUs -----

  /** The name a mapping gets: owner and target, or owner and position when it has no target. */
  function MappingName(owner: string, ref: string, idx: nat): string {
    if ref == "" then owner + "_mapping_" + NatToString(idx) else owner + "_" + ref
  }

  function OptionalRef(tag: Tag, dest: string, ref: string): seq<Node> {
    if ref == "" then [] else [RefLeaf(tag, dest, ref)]
  }

  /** A mapping: its name, the reference unless it names nothing, the start position. */
  function MappingNode(tag: Tag, name: string, refTag: Tag, dest: string, ref: string, start: nat): Node {
    Branch(tag, [Leaf(SHORT_NAME, name)] + OptionalRef(refTag, dest, ref) + [Leaf(START_POSITION, NatToString(start))])
  }

  function FramePduNode(owner: string, idx: nat, m: FramePduMapping): Node {
    MappingNode(PDU_TO_FRAME_MAPPING, MappingName(owner, m.pduShortNameRef, idx),
                PDU_REF, "I-SIGNAL-I-PDU", m.pduShortNameRef, m.startPosition)
  }

  function FramePduNodes(owner: string, mappings: seq<FramePduMapping>): seq<Node> {
    if mappings == [] then []
    else
      FramePduNodes(owner, mappings[..|mappings| - 1])
      + [FramePduNode(owner, |mappings| - 1, mappings[|mappings| - 1])]
  }

  lemma {:induction false} FramePduNodesAt(owner: string, mappings: seq<FramePduMapping>)
    ensures |FramePduNodes(owner, mappings)| == |mappings|
    ensures forall i :: 0 <= i < |mappings| ==> FramePduNodes(owner, mappings)[i] == FramePduNode(owner, i, mappings[i])
  {
    hide FramePduNode;
    if mappings != [] {
      FramePduNodesAt(owner, mappings[..|mappings| - 1]);
    }
  }

  function FrameNode(f: Frame): Node {
    Branch(CAN_FRAME,
           [Leaf(SHORT_NAME, f.common.shortName), Leaf(FRAME_LENGTH, NatToString(f.length))]
           + Wrapper(PDU_TO_FRAME_MAPPINGS, FramePduNodes(f.common.shortName, SortedFramePdus(f.pdus))))
  }

  function PduSignalNode(owner: string, idx: nat, m: PduSignalMapping): Node {
    MappingNode(I_SIGNAL_TO_I_PDU_MAPPING, MappingName(owner, m.signalShortNameRef, idx),
                I_SIGNAL_REF, "I-SIGNAL", m.signalShortNameRef, m.startPosition)
  }

  function PduSignalNodes(owner: string, mappings: seq<PduSignalMapping>): seq<Node> {
    if mappings == [] then []
    else
      PduSignalNodes(owner, mappings[..|mappings| - 1])
      + [PduSignalNode(owner, |mappings| - 1, mappings[|mappings| - 1])]
  }

  lemma {:induction false} PduSignalNodesAt(owner: string, mappings: seq<PduSignalMapping>)
    ensures |PduSignalNodes(owner, mappings)| == |mappings|
    ensures forall i ::
      0 <= i < |mappings| ==> PduSignalNodes(owner, mappings)[i] == PduSignalNode(owner, i, mappings[i])
  {
    hide PduSignalNode;
    if mappings != [] {
      PduSignalNodesAt(owner, mappings[..|mappings| - 1]);
    }
  }

  function PduNode(p: Pdu): Node {
    Branch(I_SIGNAL_I_PDU,
           [Leaf(SHORT_NAME, p.common.shortName), Leaf(LENGTH, NatToString(p.length))]
           + Wrapper(I_SIGNAL_TO_PDU_MAPPINGS, PduSignalNodes(p.common.shortName, SortedPduSignals(p.signalMappings))))
  }

  method BuildFramePduNode(owner: string, idx: nat, m: FramePduMapping) returns (entry: Node)
    ensures entry == FramePduNode(owner, idx, m)
  {
    hide MappingName;
    var children := [Leaf(SHORT_NAME, MappingName(owner, m.pduShortNameRef, idx))];
    if m.pduShortNameRef != "" {
      children := children + [RefLeaf(PDU_REF, "I-SIGNAL-I-PDU", m.pduShortNameRef)];
    }
    children := children + [Leaf(START_POSITION, NatToString(m.startPosition))];
    entry := Branch(PDU_TO_FRAME_MAPPING, children);
  }

  method AppendFramePdus(owner: string, sorted: seq<FramePduMapping>) returns (mappings: seq<Node>)
    ensures mappings == FramePduNodes(owner, sorted)
  {
    hide FramePduNode;
    mappings := [];
    for idx := 0 to |sorted|
      invariant mappings == FramePduNodes(owner, sorted[..idx])
    {
      assert sorted[..idx + 1][..idx] == sorted[..idx];
      var entry := BuildFramePduNode(owner, idx, sorted[idx]);
      mappings := mappings + [entry];
    }
    assert sorted[..|sorted|] == sorted;
  }

  method BuildFrameElement(f: Frame) returns (node: Node)
    ensures node == FrameNode(f)
  {
    hide StableSort;
    var children := [Leaf(SHORT_NAME, f.common.shortName)];
    children := children + [Leaf(FRAME_LENGTH, NatToString(f.length))];
    if f.pdus != [] {
      var mappings := AppendFramePdus(f.common.shortName, SortedFramePdus(f.pdus));
      children := children + [Branch(PDU_TO_FRAME_MAPPINGS, mappings)];
    }
    node := Branch(CAN_FRAME, children);
  }

  method BuildPduSignalNode(owner: string, idx: nat, m: PduSignalMapping) returns (entry: Node)
    ensures entry == PduSignalNode(owner, idx, m)
  {
    hide MappingName;
    var children := [Leaf(SHORT_NAME, MappingName(owner, m.signalShortNameRef, idx))];
    if m.signalShortNameRef != "" {
      children := children + [RefLeaf(I_SIGNAL_REF, "I-SIGNAL", m.signalShortNameRef)];
    }
    children := children + [Leaf(START_POSITION, NatToString(m.startPosition))];
    entry := Branch(I_SIGNAL_TO_I_PDU_MAPPING, children);
  }

  method AppendPduSignals(owner: string, sorted: seq<PduSignalMapping>) returns (mappings: seq<Node>)
    ensures mappings == PduSignalNodes(owner, sorted)
  {
    hide PduSignalNode;
    mappings := [];
    for idx := 0 to |sorted|
      invariant mappings == PduSignalNodes(owner, sorted[..idx])
    {
      assert sorted[..idx + 1][..idx] == sorted[..idx];
      var entry := BuildPduSignalNode(owner, idx, sorted[idx]);
      mappings := mappings + [entry];
    }
    assert sorted[..|sorted|] == sorted;
  }

  method BuildPduElement(p: Pdu) returns (node: Node)
    ensures node == PduNode(p)
  {
    hide StableSort;
    var children := [Leaf(SHORT_NAME, p.common.shortName)];
    children := children + [Leaf(LENGTH, NatToString(p.length))];
    if p.signalMappings != [] {
      var mappings := AppendPduSignals(p.common.shortName, SortedPduSignals(p.signalMappings));
      children := children + [Branch(I_SIGNAL_TO_PDU_MAPPINGS, mappings)];
    }
    node := Branch(I_SIGNAL_I_PDU, children);
  }

  // ----- signals and groups -----

  function InitValueNodes(s: Signal): seq<Node> {
    match s.initValue
    case None => []
    case Some(d) => [Branch(INIT_VALUE, [Branch(NUMERICAL_VALUE_SPECIFICATION, [Leaf(VALUE, d.text)])])]
  }

  /** Signedness is written as a reference to a base type with a signed name. */
  function SignednessNodes(s: Signal): seq<Node> {
    if !s.isSigned then []
    else
      [Branch(NETWORK_REPRESENTATION_PROPS,
              [Branch(SW_DATA_DEF_PROPS_VARIANTS,
                      [Branch(SW_DATA_DEF_PROPS_CONDITIONAL,
                              [Node(BASE_TYPE_REF, [("DEST", "SW-BASE-TYPE")], "/SwBaseType/SINT8", [], NOWHERE)])])])]
  }

  function SignalNode(s: Signal): Node {
    Branch(I_SIGNAL,
           [Leaf(SHORT_NAME, s.common.shortName)] + InitValueNodes(s) + [Leaf(LENGTH, NatToString(s.bitLength))]
           + SignednessNodes(s))
  }

  function MemberRefs(names: seq<string>): (r: seq<Node>)
    ensures |r| == |names| && forall i :: 0 <= i < |names| ==> r[i] == RefLeaf(I_SIGNAL_REF, "I-SIGNAL", names[i])
  {
    if names == [] then []
    else MemberRefs(names[..|names| - 1]) + [RefLeaf(I_SIGNAL_REF, "I-SIGNAL", names[|names| - 1])]
  }

  function SignalGroupNode(g: SignalGroup): Node {
    Branch(I_SIGNAL_GROUP,
           [Leaf(SHORT_NAME, g.common.shortName)] + Wrapper(I_SIGNAL_REFS, MemberRefs(SortedStrings(g.members))))
  }

  method BuildSignalElement(s: Signal) returns (node: Node)
    ensures node == SignalNode(s)
  {
    var children := [Leaf(SHORT_NAME, s.common.shortName)];
    if s.initValue.Some? {
      var spec := Branch(NUMERICAL_VALUE_SPECIFICATION, [Leaf(VALUE, s.initValue.value.text)]);
      children := children + [Branch(INIT_VALUE, [spec])];
    }
    children := children + [Leaf(LENGTH, NatToString(s.bitLength))];
    if s.isSigned {
      var ref := Node(BASE_TYPE_REF, [("DEST", "SW-BASE-TYPE")], "/SwBaseType/SINT8", [], NOWHERE);
      var conditional := Branch(SW_DATA_DEF_PROPS_CONDITIONAL, [ref]);
      var variants := Branch(SW_DATA_DEF_PROPS_VARIANTS, [conditional]);
      children := children + [Branch(NETWORK_REPRESENTATION_PROPS, [variants])];
    }
    node := Branch(I_SIGNAL, children);
  }

  method BuildSignalGroupElement(g: SignalGroup) returns (node: Node)
    ensures node == SignalGroupNode(g)
  {
    hide StableSort;
    var children := [Leaf(SHORT_NAME, g.common.shortName)];
    if g.members != [] {
      var members := [];
      var sorted := SortedStrings(g.members);
      for i := 0 to |sorted|
        invariant members == MemberRefs(sorted[..i])
      {
        assert sorted[..i + 1][..i] == sorted[..i];
        members := members + [RefLeaf(I_SIGNAL_REF, "I-SIGNAL", sorted[i])];
      }
      assert sorted[..|sorted|] == sorted;
      children := children + [Branch(I_SIGNAL_REFS, members)];
    }
    node := Branch(I_SIGNAL_GROUP, children);
  }
}
