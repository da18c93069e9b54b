/**
  The round trip on bytes: any document that spells a written tree, whatever
  its indentation, comments, attributes and encoding, parses to records of a
  tree loaded from it.
 */
module WrittenDocuments {
  import opened Wrappers
  import opened RawBytes
  import opened Markup
  import opened ExactSpans
  import opened Numbers
  import opened XmlTree
  import opened DocumentReading
  import opened DiffEngine
  import opened DiffReport
  import opened WriteEngine
  import opened RoundTrip
  import Canonical
  import Model
  import ModelBuilder
  import Reparse

  // ----- spelling a tree -----

  /** The element has the node's tag, its leaf text as the parser reports it, and its children in order. */
  predicate Spells(written: Node, e: Element)
    decreases written
  {
    && TagOf(e.name) == written.tag
    && (written.children == [] ==> ContentText(e.content) == written.text)
    && SpellsAll(written.children, e.content)
  }

  /** What stands between the children does not matter. */
  predicate SpellsAll(nodes: seq<Node>, items: seq<Item>)
    decreases nodes, |items|
  {
    if items == [] then nodes == []
    else if items[0].Child? then nodes != [] && Spells(nodes[0], items[0].element) && SpellsAll(nodes[1..], items[1..])
    else SpellsAll(nodes, items[1..])
  }

  lemma {:induction false} SpelledIsLoaded(bytes: seq<byte>, enc: Encoding, written: Node, e: Element, p: nat)
    requires Spells(written, e)
    ensures Loaded(written, NodeOf(NodeAt(bytes, enc, e, p)))
    decreases written
  {
    hide PrintElement, PrintOpen, LineOf, TagOf;
    SpelledAllLoaded(bytes, enc, written.children, e.content, p + |PrintOpen(e)|);
  }

  lemma {:induction false} SpelledAllLoaded(bytes: seq<byte>, enc: Encoding, nodes: seq<Node>, items: seq<Item>, p: nat)
    requires SpellsAll(nodes, items)
    ensures AllLoaded(nodes, NodesOf(NodesAt(bytes, enc, items, p)))
    decreases nodes, |items|
  {
    hide PrintItem, NodeAt, NodeOf, Loaded, Spells;
    if items != [] {
      var q := p + |PrintItem(items[0])|;
      var rest := NodesAt(bytes, enc, items[1..], q);
      if items[0].Child? {
        var node := NodeAt(bytes, enc, items[0].element, p);
        SpelledIsLoaded(bytes, enc, nodes[0], items[0].element, p);
        SpelledAllLoaded(bytes, enc, nodes[1..], items[1..], q);
        assert NodesAt(bytes, enc, items, p) == [node] + rest;
        assert ([node] + rest)[1..] == rest;
        assert NodesOf([node] + rest) == [NodeOf(node)] + NodesOf(rest);
        assert ([NodeOf(node)] + NodesOf(rest))[1..] == NodesOf(rest);
      } else {
        SpelledAllLoaded(bytes, enc, nodes, items[1..], q);
        assert NodesAt(bytes, enc, items, p) == rest;
      }
    }
  }

  /** A document that spells a written tree parses to the records of a tree loaded from it. */
  lemma SpelledDocumentLoads(reader: FloatReader, enc: Encoding, d: Document, written: Node)
    requires GoodDocument(d) && AllUnits(enc, PrintDocument(d)) && Spells(written, d.root)
    ensures Loaded(written, RootNode(enc, d))
    ensures Parse(reader, enc, d) == Some(ModelBuilder.ReadDocument(reader, RootNode(enc, d)))
  {
    hide GoodDocument, PrintDocument, Encode, NodeAt, NodeOf, Parse, Spells, Loaded;
    ParsedWhole(reader, enc, d);
    SpelledIsLoaded(Encode(enc, PrintDocument(d)), enc, written, d.root, |PrintContent(d.prolog)|);
  }

  // ----- a spelling of any tree -----

  /** Character data with brackets and ampersands escaped. */
  function Escaped(text: string): (u: seq<int>)
    ensures '<' as int !in u
  {
    if text == "" then []
    else
      (match text[0]
       case '<' => Code("&lt;")
       case '&' => Code("&amp;")
       case c => [c as int])
      + Escaped(text[1..])
  }

  function Spelling(names: Tag -> string, written: Node): Element
    decreases written
  {
    var content := if written.children == [] then [CharData(Escaped(written.text), [written.text])]
                   else SpellingAll(names, written.children);
    Element(names(written.tag), [], [], [], false, content, [])
  }

  function SpellingAll(names: Tag -> string, nodes: seq<Node>): seq<Item>
    decreases nodes
  {
    if nodes == [] then [] else [Child(Spelling(names, nodes[0]))] + SpellingAll(names, nodes[1..])
  }

  /** The names of the tree's tags are names of XML and read back as the tags. */
  predicate TagsNamed(names: Tag -> string, written: Node)
    decreases written
  {
    TagOf(names(written.tag)) == written.tag && GoodName(names(written.tag)) && AllTagsNamed(names, written.children)
  }

  predicate AllTagsNamed(names: Tag -> string, nodes: seq<Node>)
    decreases nodes
  {
    nodes != [] ==> TagsNamed(names, nodes[0]) && AllTagsNamed(names, nodes[1..])
  }

  /** Every tree whose tags have names has a good document that spells it. */
  lemma {:induction false} SpellingSpells(names: Tag -> string, written: Node)
    requires TagsNamed(names, written)
    ensures GoodElement(Spelling(names, written)) && Spells(written, Spelling(names, written))
    decreases written
  {
    hide TagOf, GoodName;
    if written.children == [] {
      LeafSpelled(written.text);
    } else {
      SpellingAllSpells(names, written.children);
    }
  }

  lemma LeafSpelled(text: string)
    ensures var items := [CharData(Escaped(text), [text])];
      GoodContent(items) && ContentText(items) == text && SpellsAll([], items)
  {
    var item := CharData(Escaped(text), [text]);
    assert [item][1..] == [] && [text][1..] == [];
    assert JoinChunks([text]) == text + "" == text;
    assert ContentText([item]) == text + "" == text;
    assert GoodItem(item) && GoodContent([]) && SpellsAll([], []);
  }

  lemma {:induction false} SpellingAllSpells(names: Tag -> string, nodes: seq<Node>)
    requires AllTagsNamed(names, nodes)
    ensures GoodContent(SpellingAll(names, nodes)) && SpellsAll(nodes, SpellingAll(names, nodes))
    decreases nodes
  {
    hide TagsNamed, Spells, Spelling, GoodElement;
    if nodes != [] {
      SpellingSpells(names, nodes[0]);
      SpellingAllSpells(names, nodes[1..]);
      var items := SpellingAll(names, nodes);
      assert items[0] == Child(Spelling(names, nodes[0])) && items[1..] == SpellingAll(names, nodes[1..]);
    }
  }

  // ----- the round trip -----

  /**
    Write, spell, parse and diff: never a diagnostic, and no entry exactly
    when every record that is the first of its name survives.
   */
  lemma RoundTripOfBytes(reader: FloatReader, project: Model.ParsedProject, written: Node, enc: Encoding, d: Document,
                         entries: seq<DiffEntry>, diagnostics: seq<DiffDiagnostic>)
    requires Reparse.TidyProject(reader, project) && Written(project) == Ok(written)
    requires GoodDocument(d) && AllUnits(enc, PrintDocument(d)) && Spells(written, d.root)
    ensures Parse(reader, enc, d).Some?
    ensures IsDiff(project, Model.ParsedProject([Parse(reader, enc, d).value]), entries, diagnostics) ==>
      diagnostics == [] && (entries == [] <==> AllSurvive(project))
  {
    hide *;
    SpelledDocumentLoads(reader, enc, d, written);
    if IsDiff(project, Model.ParsedProject([Parse(reader, enc, d).value]), entries, diagnostics) {
      RoundTripReport(reader, project, written, RootNode(enc, d), entries, diagnostics);
    }
  }

  /** The same from one document to the next: parse, write, spell, parse, diff. */
  lemma RoundTripFromBytes(reader: FloatReader, enc: Encoding, d: Document, written: Node, enc': Encoding, d': Document,
                           entries: seq<DiffEntry>, diagnostics: seq<DiffDiagnostic>)
    requires Lossless(reader) && GoodDocument(d) && AllUnits(enc, PrintDocument(d))
    requires Parse(reader, enc, d).Some? && Written(Model.ParsedProject([Parse(reader, enc, d).value])) == Ok(written)
    requires GoodDocument(d') && AllUnits(enc', PrintDocument(d')) && Spells(written, d'.root)
    ensures Parse(reader, enc', d').Some?
    ensures var o, n := Model.ParsedProject([Parse(reader, enc, d).value]),
      Model.ParsedProject([Parse(reader, enc', d').value]);
      IsDiff(o, n, entries, diagnostics) ==> diagnostics == [] && (entries == [] <==> AllSurvive(o))
  {
    hide *;
    ParsedWhole(reader, enc, d);
    ParsedIsTidy(reader, RootNode(enc, d));
    RoundTripOfBytes(reader, Model.ParsedProject([Parse(reader, enc, d).value]), written, enc', d', entries,
                     diagnostics);
  }

  /** What a spelled document parses to is written as the same tree again. */
  lemma SpelledIsRewritten(reader: FloatReader, project: Model.ParsedProject, written: Node, enc: Encoding, d: Document)
    requires Reparse.TidyProject(reader, project) && Written(project) == Ok(written)
    requires GoodDocument(d) && AllUnits(enc, PrintDocument(d)) && Spells(written, d.root)
    ensures Parse(reader, enc, d).Some? && Written(Model.ParsedProject([Parse(reader, enc, d).value])) == Ok(written)
  {
    hide *;
    SpelledDocumentLoads(reader, enc, d, written);
    Canonical.WritingIsCanonical(reader, project, written, RootNode(enc, d));
  }
}
