/**
  A chain of documents: each writes one signal and, but for the last, a group
  that wants the signal of the next.
 */
module ChainDocuments {
  import opened Wrappers
  import opened DocumentReading
  import opened ExactSpans
  import opened FilterCoverage
  import opened LazyDiscovery
  import opened Markup
  import opened Numbers
  import opened RawBytes
  import opened References
  import opened Scanner
  import opened XmlTree
  import Model
  import ModelBuilder
  import PreFilter

  /** Names told apart by their length. */
  function Tally(n: nat): (s: string)
    ensures |s| == n
  {
    if n == 0 then "" else Tally(n - 1) + "x"
  }

  function TextElement(tag: string, text: string): Element {
    Element(tag, [], [], [], false, [CharData(Code(text), [text])], [])
  }

  function SignalNamed(name: string): Element {
    Element("I-SIGNAL", [], [], [], false, [Child(TextElement("SHORT-NAME", name))], [])
  }

  function GroupOf(target: string): Element {
    Element("SIGNAL-GROUP", [], [], [], false,
            [Child(TextElement("SHORT-NAME", "g")), Child(TextElement("SYSTEM-SIGNAL-REF", "/s/" + target))], [])
  }

  /** Document k defines one signal and wants the one of document k + 1. */
  function ChainDocument(k: nat, last: nat): Document {
    Document([], Element("AUTOSAR", RELEASE_DECODED, RELEASE, [], false,
                         if k < last then [Child(SignalNamed(Tally(k + 1))), Child(GroupOf(Tally(k + 2)))]
                           else [Child(SignalNamed(Tally(k + 1)))], []), [])
  }

  /** Each path of at most the last length holds its document. */
  function ChainDisk(reader: FloatReader, last: nat): Disk {
    Disk(
      path => if AllUnits(SingleByte, PrintDocument(ChainDocument(|path|, last)))
              then AsText(Encode(SingleByte, PrintDocument(ChainDocument(|path|, last)))) else "",
      path => if |path| <= last && AllUnits(SingleByte, PrintDocument(ChainDocument(|path|, last)))
              then Parse(reader, SingleByte, ChainDocument(|path|, last)) else None)
  }

  lemma {:induction false} TallyLetters(n: nat)
    ensures forall i :: 0 <= i < n ==> Tally(n)[i] == 'x'
  {
    if n > 0 {
      TallyLetters(n - 1);
    }
  }

  predicate Wordy(s: string) {
    s != "" && forall i :: 0 <= i < |s| ==> 'a' <= s[i] <= 'z' || s[i] == '/'
  }

  lemma TallyIsWordy(n: nat)
    requires n > 0
    ensures Wordy(Tally(n)) && Wordy("/s/" + Tally(n)) && Wordy("g") && '/' !in Tally(n)
  {
    TallyLetters(n);
  }

  lemma WordyText(tag: string, s: string)
    requires Wordy(s) && GoodName(tag)
    ensures GoodElement(TextElement(tag, s)) && Trimmed(s)
  {
    var e := TextElement(tag, s);
    forall i | 0 <= i < |s| ensures Code(s)[i] != '<' as int {}
    assert GoodItem(e.content[0]);
    assert GoodContent(e.content[1..]);
  }

  lemma TagsAreGood()
    ensures GoodName("AUTOSAR") && GoodName("I-SIGNAL") && GoodName("SIGNAL-GROUP") && GoodName("SHORT-NAME")
      && GoodName("SYSTEM-SIGNAL-REF")
  {}

  lemma PairIsGood(a: Element, b: Element)
    requires GoodElement(a) && GoodElement(b)
    ensures GoodContent([Child(a)]) && GoodContent([Child(a), Child(b)])
  {
    hide GoodElement;
    assert [Child(a)][1..] == [] && [Child(a), Child(b)][1..] == [Child(b)] && [Child(b)][1..] == [];
    assert GoodItem(Child(a)) && GoodItem(Child(b));
    assert GoodContent([Child(b)]);
  }

  lemma ChainIsGood(k: nat, last: nat)
    ensures GoodDocument(ChainDocument(k, last))
  {
    TagsAreGood();
    TallyIsWordy(k + 1);
    TallyIsWordy(k + 2);
    hide GoodName, Tally, Wordy, GoodContent, TextElement, GoodAttribute, RELEASE, RELEASE_DECODED;
    WordyText("SHORT-NAME", Tally(k + 1));
    WordyText("SHORT-NAME", "g");
    WordyText("SYSTEM-SIGNAL-REF", "/s/" + Tally(k + 2));
    PairIsGood(TextElement("SHORT-NAME", Tally(k + 1)), TextElement("SHORT-NAME", Tally(k + 1)));
    PairIsGood(TextElement("SHORT-NAME", "g"), TextElement("SYSTEM-SIGNAL-REF", "/s/" + Tally(k + 2)));
    PairIsGood(SignalNamed(Tally(k + 1)), GroupOf(Tally(k + 2)));
    NothingIsGood();
    ReleaseIsPlain();
  }

  lemma NothingIsGood()
    ensures GoodContent([])
  {}

  // ----- its bytes -----

  lemma PlainUnits(name: string, decoded: seq<(string, string)>, attributes: seq<Attribute>, content: seq<Item>)
    requires IsAsciiText(name) && AllUnits(SingleByte, PrintAttributes(attributes))
      && AllUnits(SingleByte, PrintContent(content))
    ensures AllUnits(SingleByte, PrintElement(Element(name, decoded, attributes, [], false, content, [])))
  {
    var e := Element(name, decoded, attributes, [], false, content, []);
    AsciiUnits(name);
    AsciiUnits("<");
    AsciiUnits("</");
    AsciiUnits(">");
    hide Code, IsAsciiText, PrintContent, PrintAttributes;
    assert AllUnits(SingleByte, PrintOpen(e)) && AllUnits(SingleByte, PrintClose(e));
    hide PrintOpen, PrintClose;
  }

  lemma NoAttributeUnits()
    ensures AllUnits(SingleByte, PrintAttributes([]))
  {}

  lemma AsciiUnits(s: string)
    ensures IsAsciiText(s) ==> AllUnits(SingleByte, Code(s))
  {}

  lemma PairUnits(a: Element, b: Element)
    requires AllUnits(SingleByte, PrintElement(a)) && AllUnits(SingleByte, PrintElement(b))
    ensures AllUnits(SingleByte, PrintContent([Child(a)])) && AllUnits(SingleByte, PrintContent([Child(a), Child(b)]))
  {
    hide PrintElement;
    assert [Child(a)][1..] == [] && [Child(a), Child(b)][1..] == [Child(b)] && [Child(b)][1..] == [];
    assert PrintContent([]) == [];
    assert PrintContent([Child(b)]) == PrintElement(b) + [];
  }

  lemma TextUnits(tag: string, text: string)
    requires IsAsciiText(tag) && Wordy(text)
    ensures AllUnits(SingleByte, PrintElement(TextElement(tag, text)))
  {
    var item := CharData(Code(text), [text]);
    AsciiUnits(text);
    assert PrintContent([item]) == Code(text) + [] by {
      assert [item][1..] == [];
    }
    hide PrintElement;
    NoAttributeUnits();
    PlainUnits(tag, [], [], [item]);
  }

  lemma SignalUnits(name: string)
    requires Wordy(name)
    ensures AllUnits(SingleByte, PrintElement(SignalNamed(name)))
  {
    AsciiTags();
    NoAttributeUnits();
    hide IsAsciiText, Wordy, TextElement, AllUnits, PrintElement, PrintContent, PrintAttributes;
    TextUnits("SHORT-NAME", name);
    PairUnits(TextElement("SHORT-NAME", name), TextElement("SHORT-NAME", name));
    PlainUnits("I-SIGNAL", [], [], [Child(TextElement("SHORT-NAME", name))]);
  }

  lemma GroupUnits(target: string)
    requires Wordy("g") && Wordy("/s/" + target)
    ensures AllUnits(SingleByte, PrintElement(GroupOf(target)))
  {
    AsciiTags();
    NoAttributeUnits();
    hide IsAsciiText, Wordy, TextElement, AllUnits, PrintElement, PrintContent, PrintAttributes;
    TextUnits("SHORT-NAME", "g");
    TextUnits("SYSTEM-SIGNAL-REF", "/s/" + target);
    PairUnits(TextElement("SHORT-NAME", "g"), TextElement("SYSTEM-SIGNAL-REF", "/s/" + target));
    PlainUnits("SIGNAL-GROUP", [], [],
               [Child(TextElement("SHORT-NAME", "g")), Child(TextElement("SYSTEM-SIGNAL-REF", "/s/" + target))]);
  }

  lemma ChainUnits(k: nat, last: nat)
    ensures AllUnits(SingleByte, PrintDocument(ChainDocument(k, last)))
  {
    TallyIsWordy(k + 1);
    TallyIsWordy(k + 2);
    AsciiTags();
    ReleaseIsPlain();
    RootPrints(ChainDocument(k, last));
    hide PrintElement, PrintContent, PrintAttributes, PrintDocument, IsAsciiText, Wordy, Tally, SignalNamed, GroupOf,
      AllUnits, RELEASE, RELEASE_DECODED;
    SignalUnits(Tally(k + 1));
    GroupUnits(Tally(k + 2));
    PairUnits(SignalNamed(Tally(k + 1)), GroupOf(Tally(k + 2)));
    PlainUnits("AUTOSAR", RELEASE_DECODED, RELEASE, ChainDocument(k, last).root.content);
  }

  lemma RootPrints(d: Document)
    ensures d.prolog == [] && d.epilog == [] ==> PrintDocument(d) == PrintElement(d.root)
  {
    assert PrintContent([]) == [];
    hide PrintElement;
  }

  lemma AsciiTags()
    ensures IsAsciiText("AUTOSAR") && IsAsciiText("I-SIGNAL") && IsAsciiText("SIGNAL-GROUP")
      && IsAsciiText("SHORT-NAME") && IsAsciiText("SYSTEM-SIGNAL-REF")
  {}

  // ----- what it defines -----

  lemma TagKinds()
    ensures KindOf(TagOf("AUTOSAR")) == None && KindOf(TagOf("SIGNAL-GROUP")) == None
      && KindOf(TagOf("SHORT-NAME")) == None
    ensures KindOf(TagOf("SYSTEM-SIGNAL-REF")) == None && KindOf(TagOf("I-SIGNAL")) == Some(SignalKind)
  {}

  lemma TextDeclaresNothing(tag: string, text: string, x: Ref)
    requires KindOf(TagOf(tag)) == None
    ensures !Declares(TextElement(tag, text), x)
  {
    hide TagOf, KindOf;
    var item := CharData(Code(text), [text]);
    assert [item][1..] == [];
    assert !ContentDeclares([], x);
    assert !ContentDeclares([item], x);
  }

  lemma TextIsName(text: string)
    requires Trimmed(text)
    ensures TrimText(ContentText(TextElement("SHORT-NAME", text).content)) == text
  {
    var item := CharData(Code(text), [text]);
    assert JoinChunks([text]) == text by {
      assert [text][1..] == [] && text + "" == text;
    }
    assert ContentText([item]) == text by {
      assert [item][1..] == [] && text + "" == text;
    }
    TrimTrimmed(text);
  }

  lemma PairDeclares(a: Element, b: Element, x: Ref)
    ensures ContentDeclares([Child(a)], x) <==> Declares(a, x)
    ensures ContentDeclares([Child(a), Child(b)], x) <==> Declares(a, x) || Declares(b, x)
  {
    hide Declares;
    assert [Child(a)][1..] == [] && [Child(a), Child(b)][1..] == [Child(b)] && [Child(b)][1..] == [];
    assert !ContentDeclares([], x);
    assert ContentDeclares([Child(b)], x) <==> ItemDeclares(Child(b), x);
    assert ItemDeclares(Child(a), x) <==> Declares(a, x);
    assert ItemDeclares(Child(b), x) <==> Declares(b, x);
  }

  lemma SignalDeclares(name: string, x: Ref)
    requires Wordy(name) && Trimmed(name)
    ensures Declares(SignalNamed(name), x) <==> x == Ref(SignalKind, name)
  {
    TagKinds();
    TextIsName(name);
    hide TagOf, KindOf, Wordy, ContentText, TrimText;
    TextDeclaresNothing("SHORT-NAME", name, x);
    PairDeclares(TextElement("SHORT-NAME", name), TextElement("SHORT-NAME", name), x);
    assert NameElement(SignalNamed(name).content) == Some(TextElement("SHORT-NAME", name));
  }

  lemma GroupDeclares(target: string, x: Ref)
    ensures !Declares(GroupOf(target), x)
  {
    TagKinds();
    hide TagOf, KindOf;
    TextDeclaresNothing("SHORT-NAME", "g", x);
    TextDeclaresNothing("SYSTEM-SIGNAL-REF", "/s/" + target, x);
    PairDeclares(TextElement("SHORT-NAME", "g"), TextElement("SYSTEM-SIGNAL-REF", "/s/" + target), x);
  }

  lemma ChainDeclares(k: nat, last: nat, x: Ref)
    ensures Declares(ChainDocument(k, last).root, x) <==> x == Ref(SignalKind, Tally(k + 1))
  {
    TagKinds();
    TagsAreGood();
    TallyIsWordy(k + 1);
    hide TagOf, KindOf, Tally, Wordy, GoodName, TextElement;
    WordyText("SHORT-NAME", Tally(k + 1));
    SignalDeclares(Tally(k + 1), x);
    GroupDeclares(Tally(k + 2), x);
    hide SignalNamed, GroupOf;
    PairDeclares(SignalNamed(Tally(k + 1)), GroupOf(Tally(k + 2)), x);
  }

  /** The file a chain document parses to. */
  function ChainFile(reader: FloatReader, k: nat, last: nat): Model.ParsedFile {
    if AllUnits(SingleByte, PrintDocument(ChainDocument(k, last))) then
      ModelBuilder.ReadDocument(reader, RootNode(SingleByte, ChainDocument(k, last)))
    else Model.EMPTY_FILE
  }

  lemma ChainParses(reader: FloatReader, k: nat, last: nat)
    ensures k <= last ==> ChainDisk(reader, last).parse(Tally(k)) == Some(ChainFile(reader, k, last))
    ensures k > last ==> ChainDisk(reader, last).parse(Tally(k)) == None
  {
    ChainUnits(k, last);
    ChainIsGood(k, last);
    hide PrintDocument, AllUnits, GoodDocument, Parse, Tally, RootNode, ModelBuilder.ReadDocument;
    ParsedWhole(reader, SingleByte, ChainDocument(k, last));
  }

  lemma ChainDefines(reader: FloatReader, k: nat, last: nat, x: Ref)
    ensures x in FileDefs(ChainFile(reader, k, last)) <==> x == Ref(SignalKind, Tally(k + 1))
  {
    ChainUnits(k, last);
    ChainIsGood(k, last);
    hide PrintDocument, AllUnits, GoodDocument, Parse, Tally, RootNode, ModelBuilder.ReadDocument, FileDefs, Declares;
    ParsedWhole(reader, SingleByte, ChainDocument(k, last));
    ParsedDefinitions(reader, SingleByte, ChainDocument(k, last), x);
    ChainDeclares(k, last, x);
  }

  // ----- the filter on it -----

  lemma TextSpelledPlainly(name: string)
    requires Wordy(name) && Trimmed(name)
    ensures SpelledPlainly(TextElement("SHORT-NAME", name), name)
  {
    var item := CharData(Code(name), [name]);
    AsciiUnits(name);
    assert LeadingText([item]) == Code(name) by {
      assert [item][1..] == [] && LeadingText([]) == [] && Code(name) + [] == Code(name);
    }
    assert Chars(Code(name)) == name;
    TrimTrimmed(name);
  }

  lemma ChainDeclaresPlainly(k: nat, last: nat)
    ensures DeclaresPlainly(ChainDocument(k, last).root, Ref(SignalKind, Tally(k + 1)))
  {
    var name, items := Tally(k + 1), ChainDocument(k, last).root.content;
    var x := Ref(SignalKind, name);
    assert items[0] == Child(SignalNamed(name));
    SignalDeclaresPlainly(k + 1);
    hide Tally, SignalNamed, GroupOf, NamesPlainly, KindOf, TagOf;
    Plainly(SignalNamed(name), x);
    assert ItemDeclaresPlainly(items[0], x);
    assert ContentDeclaresPlainly(items, x);
  }

  lemma SignalDeclaresPlainly(n: nat)
    requires n > 0
    ensures NamesPlainly(SignalNamed(Tally(n)), Ref(SignalKind, Tally(n)))
  {
    hide *;
    var name := Tally(n);
    TagKinds();
    TagsAreGood();
    TallyIsWordy(n);
    WordyText("SHORT-NAME", name);
    TextIsName(name);
    TextSpelledPlainly(name);
    SignalNamesPlainly(name, Ref(SignalKind, name));
  }

  lemma SignalNamesPlainly(name: string, x: Ref)
    requires KindOf(TagOf("I-SIGNAL")) == Some(SignalKind) && x == Ref(SignalKind, name)
    requires TrimText(ContentText(TextElement("SHORT-NAME", name).content)) == name
      && SpelledPlainly(TextElement("SHORT-NAME", name), name)
    ensures NamesPlainly(SignalNamed(name), x)
  {
    hide TagOf, KindOf, ContentText, TrimText, SpelledPlainly;
    assert NameElement(SignalNamed(name).content) == Some(TextElement("SHORT-NAME", name));
  }

  lemma Plainly(e: Element, x: Ref)
    requires NamesPlainly(e, x)
    ensures DeclaresPlainly(e, x)
  {}

  lemma ChainPasses(reader: FloatReader, k: nat, last: nat)
    ensures PreFilter.RawDefines(ChainDisk(reader, last).bytes(Tally(k)), Tally(k + 1))
  {
    ChainUnits(k, last);
    ChainIsGood(k, last);
    TallyIsWordy(k + 1);
    hide PrintDocument, AllUnits, GoodDocument, Parse, Tally, DeclaresPlainly, PreFilter.RawDefines,
      PreFilter.HidesNoOpener, AsText, Encode;
    ChainDeclaresPlainly(k, last);
    TallyHidesNothing(k + 1);
    PlainDefinitionIsSeen(ChainDocument(k, last), Ref(SignalKind, Tally(k + 1)));
  }

  lemma TallyHidesNothing(n: nat)
    ensures PreFilter.HidesNoOpener(Tally(n))
  {
    TallyLetters(n);
    hide Tally;
    PreFilter.PlainNamesHideNothing(Tally(n));
  }

  // ----- what it wants -----

  predicate IsLeaf(node: Node, tag: Tag, text: string) {
    node.tag == tag && node.text == text && node.children == []
  }

  predicate IsSignal(node: Node, name: string) {
    node.tag == I_SIGNAL && |node.children| == 1 && IsLeaf(node.children[0], SHORT_NAME, name)
  }

  predicate IsGroup(node: Node, target: string) {
    && node.tag == SIGNAL_GROUP && |node.children| == 2
    && IsLeaf(node.children[0], SHORT_NAME, "g") && IsLeaf(node.children[1], SYSTEM_SIGNAL_REF, "/s/" + target)
  }

  lemma LeafNode(bytes: seq<byte>, tag: string, text: string, p: nat)
    ensures IsLeaf(NodeOf(NodeAt(bytes, SingleByte, TextElement(tag, text), p)), TagOf(tag), text)
  {
    hide TagOf, LineOf, PrintElement, PrintOpen;
    var item := CharData(Code(text), [text]);
    assert ContentText([item]) == text by {
      assert [item][1..] == [] && [text][1..] == [] && text + "" == text;
      assert JoinChunks([text]) == text + "";
    }
    NoNodes(bytes, SingleByte, p + |PrintOpen(TextElement(tag, text))| + |PrintItem(item)|);
    NodesSplit(bytes, SingleByte, [item], p + |PrintOpen(TextElement(tag, text))|);
    assert [item][1..] == [];
  }

  lemma OneNode(bytes: seq<byte>, a: Element, p: nat)
    ensures NodesOf(NodesAt(bytes, SingleByte, [Child(a)], p)) == [NodeOf(NodeAt(bytes, SingleByte, a, p))]
  {
    var items := [Child(a)];
    NoNodes(bytes, SingleByte, p + |PrintItem(items[0])|);
    NodesSplit(bytes, SingleByte, items, p);
    hide NodeAt, NodesAt, PrintItem, TagOf;
    assert items[1..] == [];
    var raw := NodeAt(bytes, SingleByte, a, p);
    assert [raw] + [] == [raw] && [raw][1..] == [];
    assert NodesOf([]) == [];
  }

  lemma TwoNodes(bytes: seq<byte>, a: Element, b: Element, p: nat)
    ensures NodesOf(NodesAt(bytes, SingleByte, [Child(a), Child(b)], p)) ==
      [NodeOf(NodeAt(bytes, SingleByte, a, p)), NodeOf(NodeAt(bytes, SingleByte, b, p + |PrintElement(a)|))]
  {
    var items := [Child(a), Child(b)];
    hide *;
    ItemPrints(a);
    OneNode(bytes, b, p + |PrintElement(a)|);
    ChildFirst(bytes, SingleByte, items, p);
    assert items[0] == Child(a) && items[1..] == [Child(b)];
    var nodes := NodesOf(NodesAt(bytes, SingleByte, items, p));
    assert nodes == [nodes[0]] + nodes[1..];
  }

  lemma ItemPrints(e: Element)
    ensures PrintItem(Child(e)) == PrintElement(e)
  {}

  lemma SignalNode(bytes: seq<byte>, name: string, p: nat)
    ensures IsSignal(NodeOf(NodeAt(bytes, SingleByte, SignalNamed(name), p)), name)
  {
    UsedTags();
    var e := SignalNamed(name);
    NodeParts(bytes, SingleByte, e, p);
    hide TagOf, PrintOpen, NodeOf, NodeAt, NodesOf, NodesAt, PrintElement, TextElement;
    OneNode(bytes, TextElement("SHORT-NAME", name), p + |PrintOpen(e)|);
    LeafNode(bytes, "SHORT-NAME", name, p + |PrintOpen(e)|);
  }

  lemma GroupNode(bytes: seq<byte>, target: string, p: nat)
    ensures IsGroup(NodeOf(NodeAt(bytes, SingleByte, GroupOf(target), p)), target)
  {
    UsedTags();
    var e := GroupOf(target);
    NodeParts(bytes, SingleByte, e, p);
    hide TagOf, PrintOpen, NodeOf, NodeAt, NodesOf, NodesAt, PrintElement, TextElement;
    var c := p + |PrintOpen(e)|;
    TwoNodes(bytes, TextElement("SHORT-NAME", "g"), TextElement("SYSTEM-SIGNAL-REF", "/s/" + target), c);
    LeafNode(bytes, "SHORT-NAME", "g", c);
    LeafNode(bytes, "SYSTEM-SIGNAL-REF", "/s/" + target, c + |PrintElement(TextElement("SHORT-NAME", "g"))|);
  }

  lemma UsedTags()
    ensures TagOf("AUTOSAR") == AUTOSAR && TagOf("I-SIGNAL") == I_SIGNAL && TagOf("SIGNAL-GROUP") == SIGNAL_GROUP
    ensures TagOf("SHORT-NAME") == SHORT_NAME && TagOf("SYSTEM-SIGNAL-REF") == SYSTEM_SIGNAL_REF
  {}

  lemma LeafHoldsNothing(reader: FloatReader, node: Node, tag: Tag, text: string)
    requires IsLeaf(node, tag, text) && ModelBuilder.Family(tag) == None
    ensures ModelBuilder.Records(reader, node) == []
    ensures forall t :: Matches(node, t) == if t == tag then [node] else []
  {
    assert ModelBuilder.RecordsIn(reader, []) == [];
    assert forall t :: MatchesIn([], t) == [];
  }

  lemma SignalRead(reader: FloatReader, node: Node, name: string)
    requires IsSignal(node, name)
    ensures ModelBuilder.Records(reader, node) == [Model.SignalElement(ModelBuilder.ReadSignal(reader, node))]
    ensures ModelBuilder.ReadSignal(reader, node).receivers == []
  {
    var leaf := node.children[0];
    LeafHoldsNothing(reader, leaf, SHORT_NAME, name);
    assert node.children == [leaf] && [leaf][1..] == [];
    hide Matches, ModelBuilder.ReadSignal, ModelBuilder.Records;
    RecordsOfOne(reader, leaf);
    assert Descendants(node, RECEIVER_REF) == [] by { MatchesOfOne(leaf, RECEIVER_REF); }
    SignalParts(reader, node);
  }

  lemma RecordsOfOne(reader: FloatReader, a: Node)
    ensures ModelBuilder.RecordsIn(reader, [a]) == ModelBuilder.Records(reader, a)
  {
    assert [a][1..] == [] && ModelBuilder.RecordsIn(reader, []) == [];
  }

  lemma RecordsOfTwo(reader: FloatReader, a: Node, b: Node)
    ensures ModelBuilder.RecordsIn(reader, [a, b]) == ModelBuilder.Records(reader, a) + ModelBuilder.Records(reader, b)
  {
    hide ModelBuilder.Records;
    RecordsOfOne(reader, b);
    assert [a, b][1..] == [b];
  }

  lemma MatchesOfOne(a: Node, t: Tag)
    ensures MatchesIn([a], t) == Matches(a, t)
  {
    assert [a][1..] == [] && MatchesIn([], t) == [];
  }

  lemma MatchesOfTwo(a: Node, b: Node, t: Tag)
    ensures MatchesIn([a, b], t) == Matches(a, t) + Matches(b, t)
  {
    hide Matches;
    MatchesOfOne(b, t);
    assert [a, b][1..] == [b];
  }

  lemma SignalParts(reader: FloatReader, node: Node)
    requires node.tag == I_SIGNAL
    ensures ModelBuilder.Records(reader, node) ==
      [Model.SignalElement(ModelBuilder.ReadSignal(reader, node))] + ModelBuilder.RecordsIn(reader, node.children)
    ensures ModelBuilder.ReadSignal(reader, node).receivers == ModelBuilder.RefNames(Descendants(node, RECEIVER_REF))
    ensures ModelBuilder.RefNames([]) == []
  {
    ReadReceivers(reader, node);
    UsedFamilies();
    RecordsOfNode(reader, node, Model.SignalType);
    ReadAsType(reader, node);
    NoRefNames();
    hide *;
  }

  lemma UsedFamilies()
    ensures ModelBuilder.Family(I_SIGNAL) == Some(Model.SignalType)
      && ModelBuilder.Family(SIGNAL_GROUP) == Some(Model.SignalGroupType)
  {}

  lemma NoRefNames()
    ensures ModelBuilder.RefNames([]) == []
  {}

  lemma ReadAsType(reader: FloatReader, node: Node)
    ensures ModelBuilder.ReadElement(reader, Model.SignalType, node) ==
      Model.SignalElement(ModelBuilder.ReadSignal(reader, node))
    ensures ModelBuilder.ReadElement(reader, Model.SignalGroupType, node) ==
      Model.GroupElement(ModelBuilder.ReadSignalGroup(node))
  {
    hide ModelBuilder.ReadSignal, ModelBuilder.ReadSignalGroup, ModelBuilder.ReadCluster, ModelBuilder.ReadEcuInstance,
      ModelBuilder.ReadFrame, ModelBuilder.ReadPdu;
  }

  lemma ReadReceivers(reader: FloatReader, node: Node)
    ensures ModelBuilder.ReadSignal(reader, node).receivers == ModelBuilder.RefNames(Descendants(node, RECEIVER_REF))
  {
    hide Descendants, ModelBuilder.CommonOf, ModelBuilder.ChildUint32, ModelBuilder.ReadInitValue,
      ModelBuilder.ReadSignedness, ModelBuilder.RefNames,
      ModelBuilder.ChildText, ModelBuilder.ByteOrderIn, ModelBuilder.ReadTable, FindChild;
  }

  lemma RecordsOfNode(reader: FloatReader, node: Node, t: Model.ElementType)
    requires ModelBuilder.Family(node.tag) == Some(t)
    ensures ModelBuilder.Records(reader, node) ==
      [ModelBuilder.ReadElement(reader, t, node)] + ModelBuilder.RecordsIn(reader, node.children)
  {
    hide ModelBuilder.Family, ModelBuilder.ReadElement, ModelBuilder.RecordsIn;
  }

  lemma GroupRead(reader: FloatReader, node: Node, target: string)
    requires IsGroup(node, target) && '/' !in target && target != "" && Trimmed("/s/" + target)
    ensures ModelBuilder.Records(reader, node) == [Model.GroupElement(ModelBuilder.ReadSignalGroup(node))]
    ensures ModelBuilder.ReadSignalGroup(node).members == [target]
  {
    var a, b := node.children[0], node.children[1];
    assert node.children == [a, b];
    LeafHoldsNothing(reader, a, SHORT_NAME, "g");
    LeafHoldsNothing(reader, b, SYSTEM_SIGNAL_REF, "/s/" + target);
    assert node.tag == SIGNAL_GROUP && b.text == "/s/" + target;
    GroupOfLeaves(reader, node, a, b, target);
  }

  lemma GroupOfLeaves(reader: FloatReader, node: Node, a: Node, b: Node, target: string)
    requires node.tag == SIGNAL_GROUP && node.children == [a, b]
    requires ModelBuilder.Records(reader, a) == [] && ModelBuilder.Records(reader, b) == []
    requires Matches(a, I_SIGNAL_REF) == [] && Matches(b, I_SIGNAL_REF) == []
    requires Matches(a, SYSTEM_SIGNAL_REF) == [] && Matches(b, SYSTEM_SIGNAL_REF) == [b]
    requires b.text == "/s/" + target && '/' !in target && target != "" && Trimmed("/s/" + target)
    ensures ModelBuilder.Records(reader, node) == [Model.GroupElement(ModelBuilder.ReadSignalGroup(node))]
    ensures ModelBuilder.ReadSignalGroup(node).members == [target]
  {
    assert Descendants(node, I_SIGNAL_REF) == MatchesIn([a, b], I_SIGNAL_REF);
    assert Descendants(node, SYSTEM_SIGNAL_REF) == MatchesIn([a, b], SYSTEM_SIGNAL_REF);
    hide *;
    GroupParts(reader, node);
    RefTo(b, target);
    RecordsOfTwo(reader, a, b);
    MatchesOfTwo(a, b, I_SIGNAL_REF);
    MatchesOfTwo(a, b, SYSTEM_SIGNAL_REF);
  }

  lemma GroupParts(reader: FloatReader, node: Node)
    requires node.tag == SIGNAL_GROUP
    ensures ModelBuilder.Records(reader, node) ==
      [Model.GroupElement(ModelBuilder.ReadSignalGroup(node))] + ModelBuilder.RecordsIn(reader, node.children)
    ensures ModelBuilder.ReadSignalGroup(node).members ==
      ModelBuilder.RefNames(Descendants(node, I_SIGNAL_REF))
        + ModelBuilder.RefNames(Descendants(node, SYSTEM_SIGNAL_REF))
    ensures ModelBuilder.RefNames([]) == []
  {
    ReadMembers(node);
    UsedFamilies();
    RecordsOfNode(reader, node, Model.SignalGroupType);
    ReadAsType(reader, node);
    NoRefNames();
    hide *;
  }

  lemma ReadMembers(node: Node)
    ensures ModelBuilder.ReadSignalGroup(node).members ==
      ModelBuilder.RefNames(Descendants(node, I_SIGNAL_REF))
        + ModelBuilder.RefNames(Descendants(node, SYSTEM_SIGNAL_REF))
  {
    hide Descendants, ModelBuilder.CommonOf, ModelBuilder.RefNames;
  }

  lemma RefTo(ref: Node, target: string)
    requires ref.text == "/s/" + target && '/' !in target && target != "" && Trimmed("/s/" + target)
    ensures ModelBuilder.RefNames([ref]) == [target]
  {
    assert [ref][..0] == [] && ModelBuilder.RefNames([]) == [];
    TrimTrimmed(ref.text);
    AfterSlash("/s", target);
    assert "/s" + "/" + target == "/s/" + target;
  }

  lemma ChainFileRecords(reader: FloatReader, k: nat, last: nat)
    requires AllUnits(SingleByte, PrintDocument(ChainDocument(k, last)))
    ensures ChainFile(reader, k, last) ==
      ModelBuilder.PushAll(Model.EMPTY_FILE, ModelBuilder.Records(reader, RootNode(SingleByte, ChainDocument(k, last))))
  {
    hide AllUnits, PrintDocument, ChainDocument, RootNode, ModelBuilder.PushAll, ModelBuilder.Records;
  }

  /** The records of a chain document: its signal, and its group while there is one. */
  lemma ChainRecords(reader: FloatReader, k: nat, last: nat) returns (s: Model.Signal, g: Model.SignalGroup)
    ensures s.receivers == [] && g.members == [Tally(k + 2)]
    ensures ChainFile(reader, k, last) ==
      ModelBuilder.PushAll(Model.EMPTY_FILE, if k < last then [Model.SignalElement(s)] + [Model.GroupElement(g)]
        else [Model.SignalElement(s)])
  {
    hide *;
    ChainUnits(k, last);
    ChainTree(reader, k, last);
    var root := RootNode(SingleByte, ChainDocument(k, last));
    ChainFileRecords(reader, k, last);
    TargetIsTidy(k + 2);
    var sig := root.children[0];
    SignalRead(reader, sig, Tally(k + 1));
    s := ModelBuilder.ReadSignal(reader, sig);
    if k < last {
      var group := root.children[1];
      GroupRead(reader, group, Tally(k + 2));
      g := ModelBuilder.ReadSignalGroup(group);
      assert root.children == [sig, group];
      RecordsOfTwo(reader, sig, group);
    } else {
      g := Model.SignalGroup(Model.CommonFields("", None, XmlTree.NOWHERE), [Tally(k + 2)]);
      assert root.children == [sig];
      RecordsOfOne(reader, sig);
    }
  }

  /** The references of a chain document: its group's, while there is one. */
  lemma ChainRefers(reader: FloatReader, k: nat, last: nat, x: Ref)
    ensures x in FileRefs(ChainFile(reader, k, last)) <==> k < last && x == Ref(SignalKind, Tally(k + 2))
  {
    hide *;
    var s, g := ChainRecords(reader, k, last);
    if k < last {
      RefersOfTwo(s, g, x);
    } else {
      RefersOfOne(s, x);
    }
  }

  lemma TargetIsTidy(n: nat)
    requires n > 0
    ensures '/' !in Tally(n) && Tally(n) != "" && Trimmed("/s/" + Tally(n))
  {
    TallyIsWordy(n);
    TagsAreGood();
    hide GoodName, Tally;
    WordyText("SHORT-NAME", "/s/" + Tally(n));
  }

  lemma ChainTree(reader: FloatReader, k: nat, last: nat)
    requires AllUnits(SingleByte, PrintDocument(ChainDocument(k, last)))
    ensures var root := RootNode(SingleByte, ChainDocument(k, last));
      && ModelBuilder.Records(reader, root) == ModelBuilder.RecordsIn(reader, root.children)
      && |root.children| == (if k < last then 2 else 1) && IsSignal(root.children[0], Tally(k + 1))
      && (k < last ==> IsGroup(root.children[1], Tally(k + 2)))
  {
    hide *;
    var d := ChainDocument(k, last);
    var bytes, c := Encode(SingleByte, PrintDocument(d)), ContentStart(k, last);
    var root := RootNode(SingleByte, d);
    RootParts(k, last);
    RecordsOfRoot(reader, root);
    SignalNode(bytes, Tally(k + 1), c);
    if k < last {
      TwoNodes(bytes, SignalNamed(Tally(k + 1)), GroupOf(Tally(k + 2)), c);
      GroupNode(bytes, Tally(k + 2), c + |PrintElement(SignalNamed(Tally(k + 1)))|);
    } else {
      OneNode(bytes, SignalNamed(Tally(k + 1)), c);
    }
  }

  function ContentStart(k: nat, last: nat): nat {
    |PrintOpen(ChainDocument(k, last).root)|
  }

  lemma RootParts(k: nat, last: nat)
    requires AllUnits(SingleByte, PrintDocument(ChainDocument(k, last)))
    ensures var d := ChainDocument(k, last);
      var root, bytes := RootNode(SingleByte, d), Encode(SingleByte, PrintDocument(d));
      var signal, group := Child(SignalNamed(Tally(k + 1))), Child(GroupOf(Tally(k + 2)));
      && root.tag == AUTOSAR
      && root.children == NodesOf(NodesAt(bytes, SingleByte, if k < last then [signal, group]
        else [signal], ContentStart(k, last)))
  {
    UsedTags();
    var d := ChainDocument(k, last);
    NoContent();
    NodeParts(Encode(SingleByte, PrintDocument(d)), SingleByte, d.root, |PrintContent(d.prolog)|);
    hide TagOf, PrintOpen, PrintElement, PrintContent, Encode, PrintDocument, AllUnits, Tally, SignalNamed, GroupOf,
      NodeOf, NodeAt, NodesOf, NodesAt;
  }

  lemma NoContent()
    ensures PrintContent([]) == []
  {}

  lemma RecordsOfRoot(reader: FloatReader, root: Node)
    ensures root.tag == AUTOSAR ==> ModelBuilder.Records(reader, root) == ModelBuilder.RecordsIn(reader, root.children)
  {
    hide ModelBuilder.RecordsIn, ModelBuilder.ReadElement;
  }

  lemma RefersOfOne(s: Model.Signal, x: Ref)
    requires s.receivers == []
    ensures x !in FileRefs(ModelBuilder.PushAll(Model.EMPTY_FILE, [Model.SignalElement(s)]))
  {
    ModelBuilder.PushOne(Model.EMPTY_FILE, Model.SignalElement(s));
    FileRefsMembers(ModelBuilder.PushAll(Model.EMPTY_FILE, [Model.SignalElement(s)]), x);
  }

  lemma RefersOfTwo(s: Model.Signal, g: Model.SignalGroup, x: Ref)
    requires s.receivers == [] && |g.members| == 1
    ensures x in FileRefs(ModelBuilder.PushAll(Model.EMPTY_FILE, [Model.SignalElement(s)] + [Model.GroupElement(g)]))
      <==> x == Ref(SignalKind, g.members[0])
  {
    var records := [Model.SignalElement(s)] + [Model.GroupElement(g)];
    ModelBuilder.PushOne(Model.EMPTY_FILE, Model.SignalElement(s));
    assert records[..1] == [Model.SignalElement(s)];
    FileRefsMembers(ModelBuilder.PushAll(Model.EMPTY_FILE, records), x);
  }
}
