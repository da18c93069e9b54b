/**
  Which candidate files a round of discovery parses in: for documents in which
  the filter's pattern stands nowhere but at definitions, exactly those that
  spell a wanted definition plainly.
 */
module PulledFiles {
  import opened RawBytes
  import opened Markup
  import opened MarkupScan
  import opened ExactSpans
  import opened Numbers
  import opened References
  import opened DocumentReading
  import opened LazyDiscovery
  import opened XmlTree
  import opened FilterCoverage
  import PreFilter

  // ----- where definitions stand -----

  /** How much of the content is printed before its first SHORT-NAME element. */
  function NameOffset(items: seq<Item>): nat {
    if items == [] || (items[0].Child? && items[0].element.name == "SHORT-NAME") then 0
    else |PrintItem(items[0])| + NameOffset(items[1..])
  }

  /** In the element printed at p, the SHORT-NAME element of some definition of the name starts at q. */
  predicate DefinedAt(e: Element, p: nat, x: Ref, q: nat)
    decreases e, 1
  {
    var c := p + |PrintOpen(e)|;
    (Names(e, x) && NameElement(e.content).Some? && q == c + NameOffset(e.content))
      || ContentDefinedAt(e.content, c, x, q)
  }

  predicate ContentDefinedAt(items: seq<Item>, c: nat, x: Ref, q: nat)
    decreases items, 0
  {
    items != [] && (ItemDefinedAt(items[0], c, x, q) || ContentDefinedAt(items[1..], c + |PrintItem(items[0])|, x, q))
  }

  predicate ItemDefinedAt(item: Item, c: nat, x: Ref, q: nat)
    decreases item, 2
  {
    match item
    case Child(e) => DefinedAt(e, c, x, q)
    case _ => false
  }

  lemma {:induction false} NameStandsThere(u: seq<int>, c: nat, items: seq<Item>)
    requires Occurs(u, c, PrintContent(items)) && GoodContent(items) && NameElement(items).Some?
    ensures Occurs(u, c + NameOffset(items), PrintElement(NameElement(items).value))
      && GoodElement(NameElement(items).value)
    decreases |items|
  {
    hide Occurs, PrintElement, GoodElement;
    OccursParts(u, c, PrintItem(items[0]), PrintContent(items[1..]));
    if !(items[0].Child? && items[0].element.name == "SHORT-NAME") {
      NameStandsThere(u, c + |PrintItem(items[0])|, items[1..]);
    }
  }

  /** A definition's name element is printed there; spelled plainly, it is a plain declaration of the document. */
  lemma {:induction false} DefinitionThere(u: seq<int>, e: Element, p: nat, x: Ref, q: nat) returns (n: Element)
    requires GoodElement(e) && Occurs(u, p, PrintElement(e)) && DefinedAt(e, p, x, q)
    ensures GoodElement(n) && n.name == "SHORT-NAME" && Occurs(u, q, PrintElement(n))
    ensures SpelledPlainly(n, x.name) ==> DeclaresPlainly(e, x)
    decreases e, 1
  {
    hide *;
    OpenOccurs(u, p, e);
    var c := p + |PrintOpen(e)|;
    DefinedCases(e, p, x, q);
    if ContentDefinedAt(e.content, c, x, q) {
      NotEmptyContent(e, c, x, q);
      n := DefinitionWithin(u, e.content, c, x, q);
    } else {
      n := NameElement(e.content).value;
      NotEmpty(e, n);
      NameStandsThere(u, c, e.content);
    }
  }

  lemma DefinedCases(e: Element, p: nat, x: Ref, q: nat)
    requires DefinedAt(e, p, x, q)
    ensures ContentDefinedAt(e.content, p + |PrintOpen(e)|, x, q) || q == p + |PrintOpen(e)| + NameOffset(e.content)
    ensures !ContentDefinedAt(e.content, p + |PrintOpen(e)|, x, q) ==>
      && NameElement(e.content).Some?
      && (SpelledPlainly(NameElement(e.content).value, x.name) ==> DeclaresPlainly(e, x))
    ensures ContentDeclaresPlainly(e.content, x) ==> DeclaresPlainly(e, x)
  {
    hide Names, SpelledPlainly, PrintOpen, ContentDeclaresPlainly, NameOffset, ContentDefinedAt;
  }

  lemma NotEmptyContent(e: Element, c: nat, x: Ref, q: nat)
    requires GoodElement(e) && ContentDefinedAt(e.content, c, x, q)
    ensures !e.selfClosed && GoodContent(e.content)
  {
    hide GoodContent, ItemDefinedAt;
  }

  lemma {:induction false} DefinitionWithin(u: seq<int>, items: seq<Item>, c: nat, x: Ref, q: nat) returns (n: Element)
    requires GoodContent(items) && (items != [] ==> Occurs(u, c, PrintContent(items)))
      && ContentDefinedAt(items, c, x, q)
    ensures GoodElement(n) && n.name == "SHORT-NAME" && Occurs(u, q, PrintElement(n))
    ensures SpelledPlainly(n, x.name) ==> ContentDeclaresPlainly(items, x)
    decreases items, 0
  {
    hide Occurs, SpelledPlainly, DeclaresPlainly, DefinedAt, GoodElement;
    OccursParts(u, c, PrintItem(items[0]), PrintContent(items[1..]));
    if ItemDefinedAt(items[0], c, x, q) {
      n := DefinitionInItem(u, items[0], c, x, q);
    } else {
      n := DefinitionWithin(u, items[1..], c + |PrintItem(items[0])|, x, q);
    }
  }

  lemma {:induction false} DefinitionInItem(u: seq<int>, item: Item, c: nat, x: Ref, q: nat) returns (n: Element)
    requires GoodItem(item) && Occurs(u, c, PrintItem(item)) && ItemDefinedAt(item, c, x, q)
    ensures GoodElement(n) && n.name == "SHORT-NAME" && Occurs(u, q, PrintElement(n))
    ensures SpelledPlainly(n, x.name) ==> ItemDeclaresPlainly(item, x)
    decreases item, 2
  {
    n := DefinitionThere(u, item.element, c, x, q);
  }

  lemma {:induction false} PlainIsDeclared(e: Element, x: Ref)
    ensures DeclaresPlainly(e, x) ==> Declares(e, x)
    decreases e, 1
  {
    hide Names, SpelledPlainly;
    PlainWithinIsDeclared(e.content, x);
  }

  lemma {:induction false} PlainWithinIsDeclared(items: seq<Item>, x: Ref)
    ensures ContentDeclaresPlainly(items, x) ==> ContentDeclares(items, x)
    decreases items, 0
  {
    hide DeclaresPlainly, Declares;
    if items != [] {
      PlainItemIsDeclared(items[0], x);
      PlainWithinIsDeclared(items[1..], x);
    }
  }

  lemma {:induction false} PlainItemIsDeclared(item: Item, x: Ref)
    ensures ItemDeclaresPlainly(item, x) ==> ItemDeclares(item, x)
    decreases item, 2
  {
    hide DeclaresPlainly, Declares;
    if item.Child? {
      PlainIsDeclared(item.element, x);
    }
  }

  // ----- what the filter answers for a document -----

  /** A name as identifiers are. */
  predicate Ordinary(name: string) {
    name != "" && Trimmed(name) && '<' !in name && PreFilter.HidesNoOpener(name)
  }

  /** The pattern for the name stands nowhere but at the name's definitions. */
  ghost predicate StandsAlone(d: Document, x: Ref)
    requires AllUnits(SingleByte, PrintDocument(d))
  {
    forall p: nat :: SeenAt(Chars(PrintDocument(d)), x.name, p)
      ==> p > 0 && DefinedAt(d.root, |PrintContent(d.prolog)|, x, p - 1)
  }

  lemma SeenIsPlain(d: Document, x: Ref, p: nat)
    requires GoodDocument(d) && AllUnits(SingleByte, PrintDocument(d)) && Ordinary(x.name) && StandsAlone(d, x)
    requires SeenAt(Chars(PrintDocument(d)), x.name, p)
    ensures DeclaresPlainly(d.root, x)
  {
    var u := PrintDocument(d);
    hide DeclaresPlainly, DefinedAt, PrintElement, PrintContent, GoodElement, Occurs, SeenAt, Chars, SpelledPlainly,
      Trimmed;
    OccursWhole(u);
    OccursThree(u, 0, PrintContent(d.prolog), PrintElement(d.root), PrintContent(d.epilog));
    var n := DefinitionThere(u, d.root, |PrintContent(d.prolog)|, x, p - 1);
    SeenIffPlain(u, p - 1, n, x.name);
  }

  lemma DefinesIsSeen(bytes: string, name: string)
    ensures PreFilter.Defines(bytes, name) <==> exists p: nat :: SeenAt(bytes, name, p)
  {
    hide PreFilter.DefinesAt;
    if PreFilter.Defines(bytes, name) {
      var p, i, m :| PreFilter.DefinesAt(bytes, name, p, i, m);
      assert SeenAt(bytes, name, p);
    }
  }

  /** For such a document the filter says yes exactly when a definition of the name is spelled plainly. */
  lemma PassesIffPlain(d: Document, x: Ref)
    requires GoodDocument(d) && AllUnits(SingleByte, PrintDocument(d))
      && !PreFilter.HasUtf16Mark(Chars(PrintDocument(d)))
    requires Ordinary(x.name) && StandsAlone(d, x)
    ensures PreFilter.RawDefines(AsText(Encode(SingleByte, PrintDocument(d))), x.name) <==> DeclaresPlainly(d.root, x)
  {
    var text := Chars(PrintDocument(d));
    assert x.name != "" && Trimmed(x.name) && PreFilter.HidesNoOpener(x.name);
    hide *;
    EncodedText(PrintDocument(d));
    PreFilter.FilterIsExact(text, x.name);
    DefinesIsSeen(text, x.name);
    if DeclaresPlainly(d.root, x) {
      PlainDefinitionIsSeen(d, x);
    }
    if p: nat :| SeenAt(text, x.name, p) {
      SeenIsPlain(d, x, p);
    }
  }

  // ----- what a round does with it -----

  /**
    A round parses in a one-byte candidate exactly when the document spells a
    definition of some wanted name plainly.
   */
  lemma PulledIffPlain(disk: Disk, reader: FloatReader, path: string, d: Document, wanted: set<Ref>)
    requires GoodDocument(d) && Holds(disk, reader, SingleByte, path, d) && !PreFilter.HasUtf16Mark(disk.bytes(path))
    requires forall x <- wanted :: Ordinary(x.name) && StandsAlone(d, x)
    ensures Pulls(disk, wanted, path) <==> exists x <- wanted :: DeclaresPlainly(d.root, x)
  {
    hide PreFilter.RawDefines, PreFilter.HasUtf16Mark, GoodDocument, PrintDocument, Encode, AsText, Parse, FileDefs,
      Ordinary, StandsAlone, DeclaresPlainly, Declares;
    var text := AsText(Encode(SingleByte, PrintDocument(d)));
    EncodedText(PrintDocument(d));
    assert text != "" by { DocumentNotEmpty(d); }
    forall x | x in wanted ensures PreFilter.RawDefines(text, x.name) <==> DeclaresPlainly(d.root, x) {
      PassesIffPlain(d, x);
    }
    forall x ensures disk.parse(path).Some? && (x in FileDefs(disk.parse(path).value) <==> Declares(d.root, x)) {
      ParsedDefinitions(reader, SingleByte, d, x);
    }
    forall x | DeclaresPlainly(d.root, x) ensures Declares(d.root, x) {
      PlainIsDeclared(d.root, x);
    }
    if x :| x in wanted && DeclaresPlainly(d.root, x) {
      assert x in FileDefs(disk.parse(path).value);
    }
  }

  /**
    A file in two bytes a unit that starts with the byte order mark is parsed in
    exactly when it defines a wanted name.
   */
  lemma MarkedPulledIffDeclared(disk: Disk, reader: FloatReader, enc: Encoding, path: string, d: Document,
                                wanted: set<Ref>)
    requires GoodDocument(d) && Holds(disk, reader, enc, path, d) && !enc.SingleByte?
      && At(PrintDocument(d), 0) == 0xFEFF
    ensures Pulls(disk, wanted, path) <==> exists x <- wanted :: Declares(d.root, x)
  {
    hide PreFilter.RawDefines, GoodDocument, PrintDocument, Encode, Parse, FileDefs, Declares;
    forall x ensures PreFilter.RawDefines(disk.bytes(path), x) {
      MarkedFilePasses(enc, PrintDocument(d), x);
    }
    ParsedDefinitions(reader, enc, d, Ref(PduKind, ""));
    forall x ensures x in FileDefs(disk.parse(path).value) <==> Declares(d.root, x) {
      ParsedDefinitions(reader, enc, d, x);
    }
    if x :| x in wanted && Declares(d.root, x) {
      assert x in FileDefs(disk.parse(path).value);
    }
  }

  lemma DocumentNotEmpty(d: Document)
    requires AllUnits(SingleByte, PrintDocument(d))
    ensures AsText(Encode(SingleByte, PrintDocument(d))) != ""
  {
    EncodedText(PrintDocument(d));
    assert PrintOpen(d.root)[0] == Code("<")[0];
    hide Encode;
  }
}
