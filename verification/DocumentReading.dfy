/**
  From a printed document to the records it parses to: the loader's tree read
  by the model builder, and which of the document's elements define a name.
 */
module DocumentReading {
  import opened Wrappers
  import opened RawBytes
  import opened RawTree
  import opened Scanner
  import opened Loader
  import opened Markup
  import opened MarkupScan
  import opened ExactSpans
  import opened Numbers
  import opened XmlTree
  import opened References
  import Model
  import ModelBuilder

  // ----- the loader's tree as the builder sees it -----

  function TagOf(name: string): Tag {
    match name
    case "AUTOSAR" => AUTOSAR
    case "SHORT-NAME" => SHORT_NAME
    case "I-SIGNAL" => I_SIGNAL
    case "SIGNAL-GROUP" => SIGNAL_GROUP
    case "SYSTEM-SIGNAL-REF" => SYSTEM_SIGNAL_REF
    case "AR-PACKAGES" => AR_PACKAGES
    case "AR-PACKAGE" => AR_PACKAGE
    case "ELEMENTS" => ELEMENTS
    case "CATEGORY" => CATEGORY
    case "CLUSTER" => CLUSTER
    case "CAN-CLUSTER" => CAN_CLUSTER
    case "CAN-CLUSTER-VARIANTS" => CAN_CLUSTER_VARIANTS
    case "CAN-CLUSTER-CONDITIONAL" => CAN_CLUSTER_CONDITIONAL
    case "BAUDRATE" => BAUDRATE
    case "PHYSICAL-CHANNELS" => PHYSICAL_CHANNELS
    case "PHYSICAL-CHANNEL" => PHYSICAL_CHANNEL
    case "CAN-PHYSICAL-CHANNEL" => CAN_PHYSICAL_CHANNEL
    case "ECU-INSTANCE" => ECU_INSTANCE
    case "CHANNEL-REF" => CHANNEL_REF
    case "COMM-CONTROLLERS" => COMM_CONTROLLERS
    case "CAN-CONTROLLER" => CAN_CONTROLLER
    case "CAN-COMMUNICATION-CONTROLLER" => CAN_COMMUNICATION_CONTROLLER
    case "FRAME" => FRAME
    case "CAN-FRAME" => CAN_FRAME
    case "LENGTH" => LENGTH
    case "FRAME-LENGTH" => FRAME_LENGTH
    case "TRANSMITTER-REF" => TRANSMITTER_REF
    case "FRAME-PDU" => FRAME_PDU
    case "PDU-TO-FRAME-MAPPINGS" => PDU_TO_FRAME_MAPPINGS
    case "PDU-TO-FRAME-MAPPING" => PDU_TO_FRAME_MAPPING
    case "PDU-REF" => PDU_REF
    case "START-POSITION" => START_POSITION
    case "PDU" => PDU
    case "I-SIGNAL-I-PDU" => I_SIGNAL_I_PDU
    case "PDU-SIGNAL-MAPPING" => PDU_SIGNAL_MAPPING
    case "I-SIGNAL-TO-PDU-MAPPINGS" => I_SIGNAL_TO_PDU_MAPPINGS
    case "I-SIGNAL-TO-I-PDU-MAPPING" => I_SIGNAL_TO_I_PDU_MAPPING
    case "SIGNAL-REF" => SIGNAL_REF
    case "I-SIGNAL-REF" => I_SIGNAL_REF
    case "BYTE-ORDER" => BYTE_ORDER
    case "PACKING-BYTE-ORDER" => PACKING_BYTE_ORDER
    case "SYSTEM-SIGNAL" => SYSTEM_SIGNAL
    case "START-BIT" => START_BIT
    case "BIT-LENGTH" => BIT_LENGTH
    case "INIT-VALUE" => INIT_VALUE
    case "NUMERICAL-VALUE-SPECIFICATION" => NUMERICAL_VALUE_SPECIFICATION
    case "VALUE" => VALUE
    case "NETWORK-REPRESENTATION-PROPS" => NETWORK_REPRESENTATION_PROPS
    case "SW-DATA-DEF-PROPS-VARIANTS" => SW_DATA_DEF_PROPS_VARIANTS
    case "SW-DATA-DEF-PROPS-CONDITIONAL" => SW_DATA_DEF_PROPS_CONDITIONAL
    case "BASE-TYPE-REF" => BASE_TYPE_REF
    case "RECEIVER-REF" => RECEIVER_REF
    case "VALUE-TABLE" => VALUE_TABLE
    case "VALUE-TABLE-ENTRY" => VALUE_TABLE_ENTRY
    case "LABEL" => LABEL
    case "I-SIGNAL-GROUP" => I_SIGNAL_GROUP
    case "I-SIGNAL-REFS" => I_SIGNAL_REFS
    case _ => OTHER(name)
  }

  function NodeOf(raw: RawNode): Node
    decreases raw
  {
    Node(TagOf(raw.tagName), raw.attributes, raw.text, NodesOf(raw.children), raw.span)
  }

  function NodesOf(raws: seq<RawNode>): (nodes: seq<Node>)
    ensures |nodes| == |raws|
    decreases raws
  {
    if raws == [] then [] else [NodeOf(raws[0])] + NodesOf(raws[1..])
  }

  lemma ShortNameTag(name: string)
    ensures TagOf(name) == SHORT_NAME <==> name == "SHORT-NAME"
  {}

  /** What a printed document parses to: loaded, then read record by record. */
  function Parse(reader: FloatReader, enc: Encoding, d: Document): Option<Model.ParsedFile>
    requires AllUnits(enc, PrintDocument(d))
  {
    match Run(Encode(enc, PrintDocument(d)), enc, INITIAL, DocumentEvents(d))
    case Err(_) => None
    case Ok(s) => if s.root == None then None else Some(ModelBuilder.ReadDocument(reader, NodeOf(s.root.value)))
  }

  /** The tree of a good document's root. */
  function RootNode(enc: Encoding, d: Document): Node
    requires AllUnits(enc, PrintDocument(d))
  {
    NodeOf(NodeAt(Encode(enc, PrintDocument(d)), enc, d.root, |PrintContent(d.prolog)|))
  }

  lemma ParsedWhole(reader: FloatReader, enc: Encoding, d: Document)
    requires GoodDocument(d) && AllUnits(enc, PrintDocument(d))
    ensures Parse(reader, enc, d) == Some(ModelBuilder.ReadDocument(reader, RootNode(enc, d)))
  {
    hide Run, NodeAt, NodeOf, GoodDocument, PrintDocument, Encode, PrintContent, ModelBuilder.ReadDocument;
    LoadsExactly(enc, d);
  }

  // ----- names defined by records -----

  /** The kind of target an element of this tag is. */
  function KindOf(tag: Tag): Option<Kind> {
    match ModelBuilder.Family(tag)
    case Some(PduType) => Some(PduKind)
    case Some(SignalType) => Some(SignalKind)
    case Some(EcuInstanceType) => Some(EcuKind)
    case _ => None
  }

  predicate RecordDefines(e: Model.Element, x: Ref) {
    match e
    case PduElement(p) => x == Ref(PduKind, p.common.shortName)
    case SignalElement(s) => x == Ref(SignalKind, s.common.shortName)
    case EcuElement(u) => x == Ref(EcuKind, u.common.shortName)
    case _ => false
  }

  lemma PushDefines(file: Model.ParsedFile, e: Model.Element, x: Ref)
    ensures x in FileDefs(ModelBuilder.Push(file, e)) <==> x in FileDefs(file) || RecordDefines(e, x)
  {
    var grown := ModelBuilder.Push(file, e);
    match e
    case PduElement(p) => assert grown.pdus[..|grown.pdus| - 1] == file.pdus;
    case SignalElement(s) => assert grown.signals[..|grown.signals| - 1] == file.signals;
    case EcuElement(u) => assert grown.ecuInstances[..|grown.ecuInstances| - 1] == file.ecuInstances;
    case _ =>
  }

  lemma {:induction false} RecordsDefine(records: seq<Model.Element>, x: Ref)
    ensures x in FileDefs(ModelBuilder.PushAll(Model.EMPTY_FILE, records))
      <==> exists e <- records :: RecordDefines(e, x)
  {
    hide ModelBuilder.Push, FileDefs, RecordDefines;
    if records == [] {
      NothingDefined(x);
    } else {
      var front, last := records[..|records| - 1], records[|records| - 1];
      RecordsDefine(front, x);
      PushDefines(ModelBuilder.PushAll(Model.EMPTY_FILE, front), last, x);
      assert records == front + [last];
    }
  }

  lemma NothingDefined(x: Ref)
    ensures x !in FileDefs(Model.EMPTY_FILE)
  {}

  /** The node is a target of the kind and its name is the name. */
  predicate NodeNames(node: Node, x: Ref) {
    KindOf(node.tag) == Some(x.kind) && ModelBuilder.CommonOf(node).shortName == x.name
  }

  predicate NodeDefines(node: Node, x: Ref)
    decreases node
  {
    NodeNames(node, x) || NodesDefine(node.children, x)
  }

  predicate NodesDefine(nodes: seq<Node>, x: Ref)
    decreases nodes
  {
    nodes != [] && (NodeDefines(nodes[0], x) || NodesDefine(nodes[1..], x))
  }

  lemma ElementDefines(reader: FloatReader, t: Model.ElementType, node: Node, x: Ref)
    requires ModelBuilder.Family(node.tag) == Some(t)
    ensures RecordDefines(ModelBuilder.ReadElement(reader, t, node), x) <==> NodeNames(node, x)
  {
    hide ModelBuilder.CommonOf, ModelBuilder.ChildUint32, ModelBuilder.RefNames, Descendants,
      ModelBuilder.ReadInitValue;
  }

  lemma {:induction false} TreeDefines(reader: FloatReader, node: Node, x: Ref)
    ensures (exists e <- ModelBuilder.Records(reader, node) :: RecordDefines(e, x)) <==> NodeDefines(node, x)
    decreases node
  {
    hide RecordDefines, ModelBuilder.ReadElement, NodeNames, ModelBuilder.Family;
    TreesDefine(reader, node.children, x);
    match ModelBuilder.Family(node.tag)
    case None =>
      Unnamed(node, x);
    case Some(t) =>
      ElementDefines(reader, t, node, x);
      assert ModelBuilder.Records(reader, node) ==
        [ModelBuilder.ReadElement(reader, t, node)] + ModelBuilder.RecordsIn(reader, node.children);
  }

  lemma Unnamed(node: Node, x: Ref)
    requires ModelBuilder.Family(node.tag) == None
    ensures !NodeNames(node, x)
  {}

  lemma {:induction false} TreesDefine(reader: FloatReader, nodes: seq<Node>, x: Ref)
    ensures (exists e <- ModelBuilder.RecordsIn(reader, nodes) :: RecordDefines(e, x)) <==> NodesDefine(nodes, x)
    decreases nodes
  {
    hide RecordDefines, NodeNames, ModelBuilder.Records, NodeDefines;
    if nodes != [] {
      TreeDefines(reader, nodes[0], x);
      TreesDefine(reader, nodes[1..], x);
    }
  }

  // ----- names defined by printed elements -----

  /** The first SHORT-NAME child. */
  function NameElement(items: seq<Item>): (n: Option<Element>)
    ensures n.Some? ==> n.value.name == "SHORT-NAME" && Child(n.value) in items
  {
    if items == [] then None
    else if items[0].Child? && items[0].element.name == "SHORT-NAME" then Some(items[0].element)
    else NameElement(items[1..])
  }

  /** The decoded name: the character data reported inside, trimmed. */
  function ElementName(e: Element): string {
    match NameElement(e.content)
    case None => ""
    case Some(n) => TrimText(ContentText(n.content))
  }

  predicate Names(e: Element, x: Ref) {
    KindOf(TagOf(e.name)) == Some(x.kind) && ElementName(e) == x.name
  }

  predicate Declares(e: Element, x: Ref)
    decreases e, 1
  {
    Names(e, x) || ContentDeclares(e.content, x)
  }

  predicate ContentDeclares(items: seq<Item>, x: Ref)
    decreases items, 0
  {
    items != [] && (ItemDeclares(items[0], x) || ContentDeclares(items[1..], x))
  }

  predicate ItemDeclares(item: Item, x: Ref)
    decreases item, 2
  {
    match item
    case Child(e) => Declares(e, x)
    case _ => false
  }

  /** The node of a name: its text is the element's. */
  ghost predicate FoundAs(found: Option<Node>, n: Option<Element>) {
    match n
    case None => found == None
    case Some(e) => found.Some? && found.value.text == ContentText(e.content)
  }

  lemma {:induction false} NameFound(bytes: seq<byte>, enc: Encoding, items: seq<Item>, p: nat)
    ensures FoundAs(FindIn(NodesOf(NodesAt(bytes, enc, items, p)), SHORT_NAME), NameElement(items))
    decreases items
  {
    hide *;
    var nodes := NodesOf(NodesAt(bytes, enc, items, p));
    if items == [] {
      NoNodes(bytes, enc, p);
      NothingFound();
    } else {
      NameFound(bytes, enc, items[1..], p + |PrintItem(items[0])|);
      NodesSplit(bytes, enc, items, p);
      NameElementStep(items);
      if items[0].Child? {
        ChildFirst(bytes, enc, items, p);
        FindInStep(nodes);
        if items[0].element.name == "SHORT-NAME" {
          FoundHere(nodes[0], items[0].element);
        }
      }
    }
  }

  lemma NothingFound()
    ensures FoundAs(FindIn([], SHORT_NAME), NameElement([]))
  {}

  lemma FoundHere(node: Node, e: Element)
    requires node.text == ContentText(e.content)
    ensures FoundAs(Some(node), Some(e))
  {}

  lemma FindInStep(nodes: seq<Node>)
    requires nodes != []
    ensures FindIn(nodes, SHORT_NAME) == if nodes[0].tag == SHORT_NAME then Some(nodes[0])
      else FindIn(nodes[1..], SHORT_NAME)
  {}

  lemma NameElementStep(items: seq<Item>)
    requires items != []
    ensures NameElement(items) ==
      if items[0].Child? && items[0].element.name == "SHORT-NAME" then Some(items[0].element)
        else NameElement(items[1..])
  {}

  /** The nodes of content that starts with an element. */
  lemma ChildFirst(bytes: seq<byte>, enc: Encoding, items: seq<Item>, p: nat)
    requires items != [] && items[0].Child?
    ensures var nodes, e := NodesOf(NodesAt(bytes, enc, items, p)), items[0].element;
      && nodes != []
      && nodes[0] == NodeOf(NodeAt(bytes, enc, e, p))
      && nodes[0].text == ContentText(e.content)
      && (nodes[0].tag == SHORT_NAME <==> e.name == "SHORT-NAME")
      && nodes[1..] == NodesOf(NodesAt(bytes, enc, items[1..], p + |PrintItem(items[0])|))
  {
    ShortNameTag(items[0].element.name);
    NodesSplit(bytes, enc, items, p);
    hide TagOf, ContentText, NodesAt, PrintItem, PrintElement, PrintOpen, LineOf;
    var rest := NodesAt(bytes, enc, items[1..], p + |PrintItem(items[0])|);
    var raws := [NodeAt(bytes, enc, items[0].element, p)] + rest;
    assert raws[1..] == rest;
  }

  lemma NoNodes(bytes: seq<byte>, enc: Encoding, p: nat)
    ensures NodesAt(bytes, enc, [], p) == [] && NodesOf([]) == []
  {}

  lemma NodesSplit(bytes: seq<byte>, enc: Encoding, items: seq<Item>, p: nat)
    requires items != []
    ensures var rest := NodesAt(bytes, enc, items[1..], p + |PrintItem(items[0])|);
      NodesAt(bytes, enc, items, p) == if items[0].Child? then [NodeAt(bytes, enc, items[0].element, p)] + rest
        else rest
  {
    hide NodeAt, PrintItem;
  }

  lemma NodeParts(bytes: seq<byte>, enc: Encoding, e: Element, p: nat)
    ensures var node := NodeOf(NodeAt(bytes, enc, e, p));
      && node.tag == TagOf(e.name)
      && node.children == NodesOf(NodesAt(bytes, enc, e.content, p + |PrintOpen(e)|))
  {
    hide TagOf, PrintOpen, LineOf, PrintElement, ContentText, NodesAt, NodesOf;
  }

  lemma NamesAgree(node: Node, e: Element, x: Ref)
    requires node.tag == TagOf(e.name) && FoundAs(FindIn(node.children, SHORT_NAME), NameElement(e.content))
    ensures NodeNames(node, x) <==> Names(e, x)
  {
    hide TagOf, KindOf, TrimText, ContentText, NameElement, FindIn;
  }

  lemma Unfolded(node: Node, e: Element, x: Ref)
    ensures NodeDefines(node, x) <==> NodeNames(node, x) || NodesDefine(node.children, x)
    ensures Declares(e, x) <==> Names(e, x) || ContentDeclares(e.content, x)
  {
    hide NodeNames, Names, NodesDefine, ContentDeclares;
  }

  lemma {:induction false} ElementTree(bytes: seq<byte>, enc: Encoding, e: Element, p: nat, x: Ref)
    ensures NodeDefines(NodeOf(NodeAt(bytes, enc, e, p)), x) <==> Declares(e, x)
    decreases e, 1
  {
    hide *;
    var node, c := NodeOf(NodeAt(bytes, enc, e, p)), p + |PrintOpen(e)|;
    NodeParts(bytes, enc, e, p);
    NameFound(bytes, enc, e.content, c);
    NamesAgree(node, e, x);
    ContentTree(bytes, enc, e.content, c, x);
    Unfolded(node, e, x);
  }

  lemma {:induction false} ContentTree(bytes: seq<byte>, enc: Encoding, items: seq<Item>, p: nat, x: Ref)
    ensures NodesDefine(NodesOf(NodesAt(bytes, enc, items, p)), x) <==> ContentDeclares(items, x)
    decreases items, 0
  {
    hide *;
    var nodes := NodesOf(NodesAt(bytes, enc, items, p));
    if items == [] {
      NoNodes(bytes, enc, p);
    } else {
      ContentTree(bytes, enc, items[1..], p + |PrintItem(items[0])|, x);
      NodesSplit(bytes, enc, items, p);
      if items[0].Child? {
        ItemTree(bytes, enc, items[0], p, x);
        ChildFirst(bytes, enc, items, p);
      } else {
        NotDeclared(items[0], x);
      }
    }
    SomeUnfolded(nodes, items, x);
  }

  lemma SomeUnfolded(nodes: seq<Node>, items: seq<Item>, x: Ref)
    ensures nodes == [] ==> !NodesDefine(nodes, x)
    ensures nodes != [] ==> (NodesDefine(nodes, x) <==> NodeDefines(nodes[0], x) || NodesDefine(nodes[1..], x))
    ensures items == [] ==> !ContentDeclares(items, x)
    ensures items != [] ==> (ContentDeclares(items, x) <==> ItemDeclares(items[0], x) || ContentDeclares(items[1..], x))
  {
    hide NodeDefines, ItemDeclares;
  }

  lemma NotDeclared(item: Item, x: Ref)
    requires !item.Child?
    ensures !ItemDeclares(item, x)
  {}

  lemma {:induction false} ItemTree(bytes: seq<byte>, enc: Encoding, item: Item, p: nat, x: Ref)
    requires item.Child?
    ensures NodeDefines(NodeOf(NodeAt(bytes, enc, item.element, p)), x) <==> ItemDeclares(item, x)
    decreases item, 2
  {
    hide NodeDefines, NodeAt;
    ElementTree(bytes, enc, item.element, p, x);
  }

  /** A good document parses, and to a file that defines exactly the names its elements define. */
  lemma ParsedDefinitions(reader: FloatReader, enc: Encoding, d: Document, x: Ref)
    requires GoodDocument(d) && AllUnits(enc, PrintDocument(d))
    ensures Parse(reader, enc, d).Some?
    ensures x in FileDefs(Parse(reader, enc, d).value) <==> Declares(d.root, x)
  {
    hide FileDefs, NodeDefines, Declares, NodeOf, NodeAt, Parse, GoodDocument, PrintDocument, Encode, RecordDefines,
      ModelBuilder.Records, ModelBuilder.PushAll;
    ParsedWhole(reader, enc, d);
    var node := RootNode(enc, d);
    RecordsDefine(ModelBuilder.Records(reader, node), x);
    TreeDefines(reader, node, x);
    ElementTree(Encode(enc, PrintDocument(d)), enc, d.root, |PrintContent(d.prolog)|, x);
  }

  // ----- a root tag the parser accepts -----

  function AttributeText(name: string, value: string): Attribute {
    Attribute([' ' as int], Code(name), [], [], '"' as int, Code(value))
  }

  /** The attributes that name the schema release, without which no file parses. */
  const RELEASE := [
    AttributeText("xmlns:xsi", "http://www.w3.org/2001/XMLSchema-instance"),
    AttributeText("xsi:schemaLocation", "http://autosar.org/schema/r4.0 AUTOSAR_00046.xsd")]

  const RELEASE_DECODED := [
    ("xsi:schemaLocation", "http://autosar.org/schema/r4.0 AUTOSAR_00046.xsd"),
    ("xmlns:xsi", "http://www.w3.org/2001/XMLSchema-instance")]

  predicate PlainValue(value: string) {
    forall i :: 0 <= i < |value| ==> value[i] as int < 0x80 && value[i] != '"' && value[i] != '>'
  }

  lemma AttributeIsPlain(name: string, value: string)
    requires GoodName(name) && PlainValue(value)
    ensures GoodAttribute(AttributeText(name, value))
    ensures '>' as int !in PrintAttribute(AttributeText(name, value))
      && AllUnits(SingleByte, PrintAttribute(AttributeText(name, value)))
  {
    var a := AttributeText(name, value);
    assert IsSpace(' ' as int) && AllSpace(a.space);
    forall i | 0 <= i < |name| ensures IsNameUnit(Code(name)[i]) && Code(name)[i] < 0x80 {
      assert IsNameUnit(name[i] as int);
    }
    forall i | 0 <= i < |value| ensures Code(value)[i] != '"' as int && Code(value)[i] != '>' as int
      && 0 <= Code(value)[i] < 0x80 {
      assert value[i] != '"';
    }
    var u := PrintAttribute(a);
    assert u == [' ' as int] + Code(name) + ['=' as int] + ['"' as int] + Code(value) + ['"' as int];
    hide Code;
  }

  lemma ReleaseIsPlain()
    ensures forall a <- RELEASE :: GoodAttribute(a)
    ensures '>' as int !in PrintAttributes(RELEASE) && AllUnits(SingleByte, PrintAttributes(RELEASE))
  {
    ReleaseTexts();
    hide GoodName, PlainValue, AttributeText, GoodAttribute, PrintAttribute, AllUnits;
    AttributeIsPlain("xmlns:xsi", "http://www.w3.org/2001/XMLSchema-instance");
    AttributeIsPlain("xsi:schemaLocation", "http://autosar.org/schema/r4.0 AUTOSAR_00046.xsd");
    PairPrints(RELEASE[0], RELEASE[1]);
  }

  lemma ReleaseTexts()
    ensures GoodName("xmlns:xsi") && GoodName("xsi:schemaLocation")
    ensures PlainValue("http://www.w3.org/2001/XMLSchema-instance")
      && PlainValue("http://autosar.org/schema/r4.0 AUTOSAR_00046.xsd")
  {
    ReleaseNames();
    InstanceValue();
    LocationValue();
    hide GoodName, PlainValue;
  }

  lemma InstanceValue()
    ensures PlainValue("http://www.w3.org/2001/XMLSchema-instance")
  {
    ValuePieces();
    hide PlainValue;
    PlainJoin("http://www.w3.org/2001/", "XMLSchema-instance");
    assert "http://www.w3.org/2001/" + "XMLSchema-instance" == "http://www.w3.org/2001/XMLSchema-instance";
  }

  lemma LocationValue()
    ensures PlainValue("http://autosar.org/schema/r4.0 AUTOSAR_00046.xsd")
  {
    ValuePieces();
    hide PlainValue;
    PlainJoin("http://autosar.org/", "schema/r4.0");
    PlainJoin("http://autosar.org/" + "schema/r4.0", " AUTOSAR_00046.xsd");
    assert "http://autosar.org/" + "schema/r4.0" + " AUTOSAR_00046.xsd" ==
      "http://autosar.org/schema/r4.0 AUTOSAR_00046.xsd";
  }

  lemma ReleaseNames()
    ensures GoodName("xmlns:xsi") && GoodName("xsi:schemaLocation")
  {}

  lemma ValuePieces()
    ensures PlainValue("http://www.w3.org/2001/") && PlainValue("XMLSchema-instance")
    ensures PlainValue("http://autosar.org/") && PlainValue("schema/r4.0") && PlainValue(" AUTOSAR_00046.xsd")
  {}

  lemma PlainJoin(a: string, b: string)
    requires PlainValue(a) && PlainValue(b)
    ensures PlainValue(a + b)
  {}

  lemma PairPrints(a: Attribute, b: Attribute)
    requires '>' as int !in PrintAttribute(a) && AllUnits(SingleByte, PrintAttribute(a))
    requires '>' as int !in PrintAttribute(b) && AllUnits(SingleByte, PrintAttribute(b))
    ensures '>' as int !in PrintAttributes([a, b]) && AllUnits(SingleByte, PrintAttributes([a, b]))
  {
    hide PrintAttribute;
    assert [a, b][1..] == [b] && [b][1..] == [];
    assert PrintAttributes([]) == [];
    assert PrintAttributes([b]) == PrintAttribute(b) + [];
    assert PrintAttributes([a, b]) == PrintAttribute(a) + PrintAttributes([b]);
  }
}
