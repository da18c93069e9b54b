/** Domain records read from element trees, and the walk that gathers them into a file. */
module ModelBuilder {
  import opened Wrappers
  import opened Model
  import opened Numbers
  import opened Text
  import opened XmlTree

  // ----- texts -----

  /** Trimmed text of a direct child; a blank child gives "". */
  function ChildText(node: Node, tag: Tag): Option<string> {
    match FindChild(node, tag)
    case None => None
    case Some(child) => Some(TrimText(child.text))
  }

  function CommonOf(node: Node): CommonFields {
    var name := ChildText(node, SHORT_NAME);
    CommonFields(if name.Some? then name.value else "", ChildText(node, CATEGORY), node.span)
  }

  function ChildUint32(node: Node, tag: Tag, fallback: nat): nat {
    match ChildText(node, tag)
    case None => fallback
    case Some(text) =>
      match ParseUint32(text)
      case None => fallback
      case Some(v) => v
  }

  /** What the references reduce to, those that name nothing left out. */
  function RefNames(refs: seq<Node>): seq<string> {
    if refs == [] then []
    else
      var name := ShortNameOfRef(refs[|refs| - 1].text);
      RefNames(refs[..|refs| - 1]) + if name == "" then [] else [name]
  }

  /** The short names of the nodes, nameless ones left out. */
  function NamesOf(nodes: seq<Node>): seq<string> {
    if nodes == [] then []
    else
      var name := ChildText(nodes[|nodes| - 1], SHORT_NAME);
      NamesOf(nodes[..|nodes| - 1]) + if name == None || name == Some("") then [] else [name.value]
  }

  method RefShortNames(node: Node, tag: Tag) returns (names: seq<string>)
    ensures names == RefNames(Descendants(node, tag))
  {
    var refs := FindDescendants(node, tag);
    names := [];
    for i := 0 to |refs|
      invariant names == RefNames(refs[..i])
    {
      assert refs[..i + 1][..i] == refs[..i];
      var name := ShortNameOfRef(refs[i].text);
      if name != "" {
        names := names + [name];
      }
    }
    assert refs[..|refs|] == refs;
  }

  method PushShortNames(nodes: seq<Node>, names: seq<string>) returns (grown: seq<string>)
    ensures grown == names + NamesOf(nodes)
  {
    hide ChildText;
    grown := names;
    for i := 0 to |nodes|
      invariant grown == names + NamesOf(nodes[..i])
    {
      assert nodes[..i + 1][..i] == nodes[..i];
      var name := ChildText(nodes[i], SHORT_NAME);
      if name.Some? && name.value != "" {
        grown := grown + [name.value];
      }
    }
    assert nodes[..|nodes|] == nodes;
  }

  // ----- clusters and control units -----

  /** The flat vocabulary's direct child, else the first descendant. */
  function BaudrateText(node: Node): Option<string> {
    var direct := ChildText(node, BAUDRATE);
    var deep := Descendants(node, BAUDRATE);
    if direct.Some? then direct else if deep != [] then Some(TrimText(deep[0].text)) else None
  }

  function ReadCluster(node: Node): Cluster {
    Cluster(
      CommonOf(node),
      match BaudrateText(node) case None => None case Some(text) => ParseUint32(text),
      NamesOf(Descendants(node, PHYSICAL_CHANNEL)) + NamesOf(Descendants(node, CAN_PHYSICAL_CHANNEL)))
  }

  function ReadEcuInstance(node: Node): EcuInstance {
    EcuInstance(
      CommonOf(node),
      RefNames(Descendants(node, CHANNEL_REF)),
      NamesOf(Descendants(node, CAN_CONTROLLER)) + NamesOf(Descendants(node, CAN_COMMUNICATION_CONTROLLER)))
  }

  method BuildCluster(node: Node) returns (cluster: Cluster)
    ensures cluster == ReadCluster(node)
  {
    hide CommonOf, ChildText, ParseUint32, TrimText, NamesOf, Descendants;
    var baudrate: Option<nat> := None;
    var text := ChildText(node, BAUDRATE);
    if text.None? {
      var found := FindDescendants(node, BAUDRATE);
      if found != [] {
        text := Some(TrimText(found[0].text));
      }
    }
    if text.Some? {
      baudrate := ParseUint32(text.value);
    }
    var tags := FindDescendants(node, PHYSICAL_CHANNEL);
    var channels := PushShortNames(tags, []);
    assert channels == NamesOf(tags);
    tags := FindDescendants(node, CAN_PHYSICAL_CHANNEL);
    channels := PushShortNames(tags, channels);
    cluster := Cluster(CommonOf(node), baudrate, channels);
  }

  method BuildEcuInstance(node: Node) returns (ecu: EcuInstance)
    ensures ecu == ReadEcuInstance(node)
  {
    hide CommonOf, NamesOf, RefNames, Descendants;
    var connected := RefShortNames(node, CHANNEL_REF);
    var tags := FindDescendants(node, CAN_CONTROLLER);
    var controllers := PushShortNames(tags, []);
    assert controllers == NamesOf(tags);
    tags := FindDescendants(node, CAN_COMMUNICATION_CONTROLLER);
    controllers := PushShortNames(tags, controllers);
    ecu := EcuInstance(CommonOf(node), connected, controllers);
  }

  // ----- frames and PDUs -----

  function RefIn(text: Option<string>): string {
    match text
    case None => ""
    case Some(ref) => ShortNameOfRef(ref)
  }

  function ReadFramePdu(node: Node): FramePduMapping {
    FramePduMapping(RefIn(ChildText(node, PDU_REF)), ChildUint32(node, START_POSITION, 0))
  }

  function ReadFramePdus(nodes: seq<Node>): seq<FramePduMapping> {
    if nodes == [] then [] else ReadFramePdus(nodes[..|nodes| - 1]) + [ReadFramePdu(nodes[|nodes| - 1])]
  }

  lemma {:induction false} ReadFramePdusAt(nodes: seq<Node>)
    ensures |ReadFramePdus(nodes)| == |nodes|
    ensures forall i :: 0 <= i < |nodes| ==> ReadFramePdus(nodes)[i] == ReadFramePdu(nodes[i])
  {
    hide ReadFramePdu;
    if nodes != [] {
      ReadFramePdusAt(nodes[..|nodes| - 1]);
    }
  }

  function ReadFrame(node: Node): Frame {
    Frame(
      CommonOf(node),
      ChildUint32(node, LENGTH, ChildUint32(node, FRAME_LENGTH, 0)),
      RefNames(Descendants(node, TRANSMITTER_REF)),
      ReadFramePdus(Descendants(node, FRAME_PDU)) + ReadFramePdus(Descendants(node, PDU_TO_FRAME_MAPPING)))
  }

  /** Anything but the one spelling of the little-endian order is big-endian. */
  function ParseByteOrder(raw: string): ByteOrder {
    if AsciiUpper(TrimText(raw)) == "LEAST-SIGNIFICANT-BYTE-FIRST" then LeastSignificantByteFirst
    else MostSignificantByteFirst
  }

  function AsciiUpper(text: string): string {
    if text == "" then ""
    else
      var c := text[0];
      [if 'a' <= c <= 'z' then (c as int - 32) as char else c] + AsciiUpper(text[1..])
  }

  function ByteOrderIn(text: Option<string>): ByteOrder {
    match text
    case None => MostSignificantByteFirst
    case Some(order) => ParseByteOrder(order)
  }

  /** The first of two spellings of a child. */
  function EitherText(node: Node, tag: Tag, other: Tag): Option<string> {
    if ChildText(node, tag).Some? then ChildText(node, tag) else ChildText(node, other)
  }

  function ReadPduSignal(node: Node): PduSignalMapping {
    PduSignalMapping(
      RefIn(EitherText(node, SIGNAL_REF, I_SIGNAL_REF)),
      ChildUint32(node, START_POSITION, 0),
      ByteOrderIn(EitherText(node, BYTE_ORDER, PACKING_BYTE_ORDER)))
  }

  function ReadPduSignals(nodes: seq<Node>): seq<PduSignalMapping> {
    if nodes == [] then [] else ReadPduSignals(nodes[..|nodes| - 1]) + [ReadPduSignal(nodes[|nodes| - 1])]
  }

  lemma {:induction false} ReadPduSignalsAt(nodes: seq<Node>)
    ensures |ReadPduSignals(nodes)| == |nodes|
    ensures forall i :: 0 <= i < |nodes| ==> ReadPduSignals(nodes)[i] == ReadPduSignal(nodes[i])
  {
    hide ReadPduSignal;
    if nodes != [] {
      ReadPduSignalsAt(nodes[..|nodes| - 1]);
    }
  }

  function ReadPdu(node: Node): Pdu {
    Pdu(
      CommonOf(node),
      ChildUint32(node, LENGTH, 0),
      ReadPduSignals(Descendants(node, PDU_SIGNAL_MAPPING))
        + ReadPduSignals(Descendants(node, I_SIGNAL_TO_I_PDU_MAPPING)))
  }

  method PushFramePdus(nodes: seq<Node>, pdus: seq<FramePduMapping>) returns (grown: seq<FramePduMapping>)
    ensures grown == pdus + ReadFramePdus(nodes)
  {
    hide ReadFramePdu;
    grown := pdus;
    for i := 0 to |nodes|
      invariant grown == pdus + ReadFramePdus(nodes[..i])
    {
      assert nodes[..i + 1][..i] == nodes[..i];
      grown := grown + [ReadFramePdu(nodes[i])];
    }
    assert nodes[..|nodes|] == nodes;
  }

  method BuildFrame(node: Node) returns (frame: Frame)
    ensures frame == ReadFrame(node)
  {
    hide CommonOf, ChildUint32, RefNames, ReadFramePdus, Descendants;
    var transmitters := RefShortNames(node, TRANSMITTER_REF);
    var tags := FindDescendants(node, FRAME_PDU);
    var pdus := PushFramePdus(tags, []);
    assert pdus == ReadFramePdus(tags);
    tags := FindDescendants(node, PDU_TO_FRAME_MAPPING);
    pdus := PushFramePdus(tags, pdus);
    frame := Frame(CommonOf(node), ChildUint32(node, LENGTH, ChildUint32(node, FRAME_LENGTH, 0)), transmitters, pdus);
  }

  method PushPduSignals(nodes: seq<Node>, mappings: seq<PduSignalMapping>) returns (grown: seq<PduSignalMapping>)
    ensures grown == mappings + ReadPduSignals(nodes)
  {
    hide ReadPduSignal;
    grown := mappings;
    for i := 0 to |nodes|
      invariant grown == mappings + ReadPduSignals(nodes[..i])
    {
      assert nodes[..i + 1][..i] == nodes[..i];
      grown := grown + [ReadPduSignal(nodes[i])];
    }
    assert nodes[..|nodes|] == nodes;
  }

  method BuildPdu(node: Node) returns (pdu: Pdu)
    ensures pdu == ReadPdu(node)
  {
    hide CommonOf, ChildUint32, ReadPduSignals, Descendants;
    var tags := FindDescendants(node, PDU_SIGNAL_MAPPING);
    var mappings := PushPduSignals(tags, []);
    assert mappings == ReadPduSignals(tags);
    tags := FindDescendants(node, I_SIGNAL_TO_I_PDU_MAPPING);
    mappings := PushPduSignals(tags, mappings);
    pdu := Pdu(CommonOf(node), ChildUint32(node, LENGTH, 0), mappings);
  }

  // ----- signals and groups -----

  /** Base types are signed when they look like SINT8 or S16. */
  predicate IsSignedBaseType(ref: string) {
    var name := AsciiUpper(ShortNameOfRef(ref));
    "SINT" <= name || (|name| >= 2 && name[0] == 'S' && '0' <= name[1] <= '9')
  }

  /** The factor and offset no record in an element tree carries. */
  const ONE := Double("1")
  const ZERO := Double("0")

  function ReadInitValue(reader: FloatReader, node: Node): Option<Double> {
    match FindChild(node, INIT_VALUE)
    case None => None
    case Some(init) =>
      var values := Descendants(init, VALUE);
      if values == [] then None else ParseDouble(reader, values[0].text)
  }

  function ReadTableEntry(node: Node): ValueTableEntry {
    var value := match ChildText(node, VALUE) case None => None case Some(text) => ParseInteger(text);
    var labelText := ChildText(node, LABEL);
    ValueTableEntry(if value.Some? then value.value else 0, if labelText.Some? then labelText.value else "")
  }

  /** The table entries among the children, in order. */
  function ReadTable(nodes: seq<Node>): seq<ValueTableEntry> {
    if nodes == [] then []
    else
      var last := nodes[|nodes| - 1];
      ReadTable(nodes[..|nodes| - 1]) + if last.tag == VALUE_TABLE_ENTRY then [ReadTableEntry(last)] else []
  }

  predicate ReadSignedness(node: Node) {
    var refs := Descendants(node, BASE_TYPE_REF);
    refs != [] && IsSignedBaseType(refs[0].text)
  }

  function ReadSignal(reader: FloatReader, node: Node): Signal {
    Signal(
      CommonOf(node),
      ChildUint32(node, START_BIT, 0),
      ChildUint32(node, BIT_LENGTH, ChildUint32(node, LENGTH, 0)),
      ByteOrderIn(ChildText(node, BYTE_ORDER)),
      ReadSignedness(node),
      ONE, ZERO, None, None, None,
      ReadInitValue(reader, node),
      RefNames(Descendants(node, RECEIVER_REF)),
      match FindChild(node, VALUE_TABLE) case None => None case Some(table) => Some(ReadTable(table.children)))
  }

  function ReadSignalGroup(node: Node): SignalGroup {
    SignalGroup(CommonOf(node), RefNames(Descendants(node, I_SIGNAL_REF))
      + RefNames(Descendants(node, SYSTEM_SIGNAL_REF)))
  }

  method BuildTable(table: Node) returns (entries: seq<ValueTableEntry>)
    ensures entries == ReadTable(table.children)
  {
    hide ReadTableEntry;
    entries := [];
    for i := 0 to |table.children|
      invariant entries == ReadTable(table.children[..i])
    {
      assert table.children[..i + 1][..i] == table.children[..i];
      if table.children[i].tag != VALUE_TABLE_ENTRY {
        continue;
      }
      entries := entries + [ReadTableEntry(table.children[i])];
    }
    assert table.children[..|table.children|] == table.children;
  }

  method BuildInitValue(reader: FloatReader, node: Node) returns (value: Option<Double>)
    ensures value == ReadInitValue(reader, node)
  {
    hide ParseDouble;
    var init := FindChildNode(node, INIT_VALUE);
    if init.None? {
      return None;
    }
    var values := FindDescendants(init.value, VALUE);
    value := if values == [] then None else ParseDouble(reader, values[0].text);
  }

  method BuildSigned(node: Node) returns (isSigned: bool)
    ensures isSigned == ReadSignedness(node)
  {
    hide IsSignedBaseType;
    isSigned := false;
    var baseTypes := FindDescendants(node, BASE_TYPE_REF);
    if baseTypes != [] {
      isSigned := IsSignedBaseType(baseTypes[0].text);
    }
  }

  method BuildSignal(reader: FloatReader, node: Node) returns (sig: Signal)
    ensures sig == ReadSignal(reader, node)
  {
    hide CommonOf, ChildUint32, ChildText, ByteOrderIn, RefNames, ReadTable, ReadSignedness, ReadInitValue, Descendants;
    var isSigned := BuildSigned(node);
    var initValue := BuildInitValue(reader, node);
    var receivers := RefShortNames(node, RECEIVER_REF);
    var valueTable := None;
    var table := FindChildNode(node, VALUE_TABLE);
    if table.Some? {
      var entries := BuildTable(table.value);
      valueTable := Some(entries);
    }
    sig := Signal(
      CommonOf(node),
      ChildUint32(node, START_BIT, 0),
      ChildUint32(node, BIT_LENGTH, ChildUint32(node, LENGTH, 0)),
      ByteOrderIn(ChildText(node, BYTE_ORDER)),
      isSigned, ONE, ZERO, None, None, None, initValue, receivers, valueTable);
  }

  method BuildSignalGroup(node: Node) returns (group: SignalGroup)
    ensures group == ReadSignalGroup(node)
  {
    hide CommonOf, RefNames, Descendants;
    var members := RefShortNames(node, I_SIGNAL_REF);
    var systemRefs := RefShortNames(node, SYSTEM_SIGNAL_REF);
    group := SignalGroup(CommonOf(node), members + systemRefs);
  }

  // ----- the whole tree -----

  /** The record type a tag stands for. */
  function Family(tag: Tag): Option<ElementType> {
    match tag
    case CLUSTER => Some(ClusterType)
    case CAN_CLUSTER => Some(ClusterType)
    case ECU_INSTANCE => Some(EcuInstanceType)
    case FRAME => Some(FrameType)
    case CAN_FRAME => Some(FrameType)
    case PDU => Some(PduType)
    case I_SIGNAL_I_PDU => Some(PduType)
    case SYSTEM_SIGNAL => Some(SignalType)
    case I_SIGNAL => Some(SignalType)
    case SIGNAL_GROUP => Some(SignalGroupType)
    case I_SIGNAL_GROUP => Some(SignalGroupType)
    case _ => None
  }

  function ReadElement(reader: FloatReader, t: ElementType, node: Node): Element {
    match t
    case ClusterType => ClusterElement(ReadCluster(node))
    case EcuInstanceType => EcuElement(ReadEcuInstance(node))
    case FrameType => FrameElement(ReadFrame(node))
    case PduType => PduElement(ReadPdu(node))
    case SignalType => SignalElement(ReadSignal(reader, node))
    case SignalGroupType => GroupElement(ReadSignalGroup(node))
  }

  /** A record joins the list of its type. */
  function Push(file: ParsedFile, e: Element): ParsedFile {
    match e
    case ClusterElement(c) => file.(clusters := file.clusters + [c])
    case EcuElement(u) => file.(ecuInstances := file.ecuInstances + [u])
    case FrameElement(f) => file.(frames := file.frames + [f])
    case PduElement(p) => file.(pdus := file.pdus + [p])
    case SignalElement(s) => file.(signals := file.signals + [s])
    case GroupElement(g) => file.(signalGroups := file.signalGroups + [g])
  }

  /** The records of the tree, outer before inner, in document order. */
  function Records(reader: FloatReader, node: Node): seq<Element>
    decreases node
  {
    (match Family(node.tag) case None => [] case Some(t) => [ReadElement(reader, t, node)])
    + RecordsIn(reader, node.children)
  }

  function RecordsIn(reader: FloatReader, nodes: seq<Node>): seq<Element>
    decreases nodes
  {
    if nodes == [] then [] else Records(reader, nodes[0]) + RecordsIn(reader, nodes[1..])
  }

  function PushAll(file: ParsedFile, records: seq<Element>): ParsedFile {
    if records == [] then file else Push(PushAll(file, records[..|records| - 1]), records[|records| - 1])
  }

  /** The file a document parses to. */
  function ReadDocument(reader: FloatReader, root: Node): ParsedFile {
    PushAll(EMPTY_FILE, Records(reader, root))
  }

  lemma {:induction false} PushAllConcat(file: ParsedFile, a: seq<Element>, b: seq<Element>)
    ensures PushAll(file, a + b) == PushAll(PushAll(file, a), b)
  {
    if b == [] {
      assert a + b == a;
    } else {
      var r := a + b;
      assert r[..|r| - 1] == a + b[..|b| - 1];
      PushAllConcat(file, a, b[..|b| - 1]);
    }
  }

  lemma PushOne(file: ParsedFile, e: Element)
    ensures PushAll(file, [e]) == Push(file, e)
  {
    assert [e][..0] == [];
  }

  method BuildRecord(reader: FloatReader, t: ElementType, node: Node) returns (e: Element)
    ensures e == ReadElement(reader, t, node)
  {
    hide ReadCluster, ReadEcuInstance, ReadFrame, ReadPdu, ReadSignal, ReadSignalGroup;
    match t
    case ClusterType => var c := BuildCluster(node); e := ClusterElement(c);
    case EcuInstanceType => var u := BuildEcuInstance(node); e := EcuElement(u);
    case FrameType => var f := BuildFrame(node); e := FrameElement(f);
    case PduType => var p := BuildPdu(node); e := PduElement(p);
    case SignalType => var s := BuildSignal(reader, node); e := SignalElement(s);
    case SignalGroupType => var g := BuildSignalGroup(node); e := GroupElement(g);
  }

  lemma RecordsStep(reader: FloatReader, nodes: seq<Node>, i: nat)
    requires i < |nodes|
    ensures RecordsIn(reader, nodes[i..]) == Records(reader, nodes[i]) + RecordsIn(reader, nodes[i + 1..])
  {
    assert nodes[i..][1..] == nodes[i + 1..];
  }

  method BuildSubtree(reader: FloatReader, node: Node, file: ParsedFile) returns (grown: ParsedFile)
    ensures grown == PushAll(file, Records(reader, node))
    decreases node
  {
    hide ReadElement, Push;
    grown := file;
    ghost var own := [];
    if Family(node.tag).Some? {
      var e := BuildRecord(reader, Family(node.tag).value, node);
      grown := Push(grown, e);
      PushOne(file, e);
      own := [e];
    }
    ghost var start := grown;
    for i := 0 to |node.children|
      invariant PushAll(start, RecordsIn(reader, node.children)) ==
        PushAll(grown, RecordsIn(reader, node.children[i..]))
    {
      RecordsStep(reader, node.children, i);
      PushAllConcat(grown, Records(reader, node.children[i]), RecordsIn(reader, node.children[i + 1..]));
      grown := BuildSubtree(reader, node.children[i], grown);
    }
    PushAllConcat(file, own, RecordsIn(reader, node.children));
  }
}
