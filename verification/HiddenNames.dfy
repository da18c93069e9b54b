/**
  Files with one signal, in which the text filter sees the name exactly when
  it is spelled plainly; and what a hidden name does to a discovery.
 */
module HiddenNames {
  import opened Wrappers
  import opened RawBytes
  import opened Scanner
  import opened Loader
  import opened Markup
  import opened MarkupScan
  import opened ExactSpans
  import opened Numbers
  import opened References
  import opened DocumentReading
  import opened LazyDiscovery
  import opened FilterCoverage
  import PreFilter

  // ----- a file with one definition -----

  /** Every opener behind a bracket or colon stands at k; nowhere when k is negative. */
  ghost predicate OpensOnlyAt(bytes: string, k: int) {
    forall p: nat :: PreFilter.TextAt(bytes, PreFilter.OPENER, p) && PreFilter.Opens(bytes, p) ==> p == k
  }

  predicate EndsAsOpener(text: string) {
    |text| >= 11 && text[|text| - 10..] == "SHORT-NAME" && (text[|text| - 11] == '<' || text[|text| - 11] == ':')
  }

  /** Text up to a '>' adds an opener only if it ends as one. */
  lemma OpensPast(text: string, rest: string, k: int)
    requires '>' !in text && OpensOnlyAt(rest, k) && (EndsAsOpener(text) ==> k < 0)
    ensures OpensOnlyAt(text + ">" + rest, if EndsAsOpener(text) then |text| - 10 else if k < 0 then -1
      else k + |text| + 1)
  {
    var bytes, n := text + ">" + rest, |text|;
    hide EndsAsOpener;
    assert bytes[n] == '>' && forall i :: 0 <= i < n ==> bytes[i] == text[i] && bytes[i] != '>';
    forall p: nat | PreFilter.TextAt(bytes, PreFilter.OPENER, p) && PreFilter.Opens(bytes, p)
      ensures if p <= n then EndsAsOpener(text) && p == n - 10 else p - n - 1 == k
    {
      OpenerShape(bytes, p);
      if p + 10 == n {
        OpenerEnds(text, bytes, p);
      } else if n < p {
        OpenerAfter(text, rest, p);
      }
    }
  }

  lemma OpenerShape(bytes: string, p: nat)
    requires PreFilter.TextAt(bytes, PreFilter.OPENER, p)
    ensures p + 11 <= |bytes| && bytes[p..p + 10] == "SHORT-NAME" && bytes[p + 10] == '>'
    ensures forall i :: p <= i < p + 10 ==> bytes[i] != '>'
  {
    var opener := bytes[p..p + 11];
    assert opener == PreFilter.OPENER;
    assert bytes[p..p + 10] == opener[..10];
    assert bytes[p + 10] == opener[10];
    forall i | p <= i < p + 10 ensures bytes[i] != '>' {
      assert bytes[i] == opener[i - p];
    }
  }

  lemma OpenerEnds(text: string, bytes: string, p: nat)
    requires |text| <= |bytes| && bytes[..|text|] == text && p + 10 == |text|
    requires bytes[p..p + 10] == "SHORT-NAME" && PreFilter.Opens(bytes, p)
    ensures EndsAsOpener(text)
  {
    assert text[p..] == bytes[p..p + 10];
    assert text[p - 1] == bytes[..|text|][p - 1];
  }

  lemma OpenerAfter(text: string, rest: string, p: nat)
    requires |text| < p && PreFilter.TextAt(text + ">" + rest, PreFilter.OPENER, p)
      && PreFilter.Opens(text + ">" + rest, p)
    ensures PreFilter.TextAt(rest, PreFilter.OPENER, p - |text| - 1) && PreFilter.Opens(rest, p - |text| - 1)
  {
    var bytes, q := text + ">" + rest, p - |text| - 1;
    assert rest[q..q + 11] == bytes[p..p + 11];
    if q > 0 {
      assert bytes[p - 1] == rest[q - 1];
    }
  }

  /** A file with a single signal whose name is this element. */
  function SignalFile(root: seq<Attribute>, decoded: seq<(string, string)>, n: Element): Document {
    Document([], Element("AUTOSAR", decoded, root, [], false,
                         [Child(Element("I-SIGNAL", [], [], [], false, [Child(n)], []))], []), [])
  }

  /** A SHORT-NAME element with nothing but character data in it. */
  predicate TextOnly(n: Element) {
    GoodElement(n) && n.name == "SHORT-NAME" && !n.selfClosed && |n.content| == 1 && n.content[0].CharData?
  }

  lemma SignalFileIsGood(root: seq<Attribute>, decoded: seq<(string, string)>, n: Element)
    requires TextOnly(n) && forall a <- root :: GoodAttribute(a)
    ensures GoodDocument(SignalFile(root, decoded, n))
    ensures Declares(SignalFile(root, decoded, n).root, Ref(SignalKind, TrimText(ContentText(n.content))))
  {
    hide GoodAttribute, TrimText, ContentText, GoodItem;
    var sig := Element("I-SIGNAL", [], [], [], false, [Child(n)], []);
    var x := Ref(SignalKind, TrimText(ContentText(n.content)));
    SignalTags();
    GoodChild(n);
    GoodNames();
    assert GoodElement(sig);
    GoodChild(sig);
    assert [Child(n)][0] == Child(n);
    assert NameElement(sig.content) == Some(n);
    assert Names(sig, x);
    assert Declares(sig, x);
    assert ItemDeclares(Child(sig), x);
    assert ContentDeclares([Child(sig)], x);
  }

  lemma GoodNames()
    ensures GoodName("AUTOSAR") && GoodName("I-SIGNAL")
  {}

  lemma SignalTags()
    ensures KindOf(TagOf("I-SIGNAL")) == Some(SignalKind)
  {}

  lemma GoodChild(e: Element)
    requires GoodElement(e)
    ensures GoodContent([Child(e)])
  {
    hide GoodElement;
    assert [Child(e)][1..] == [];
    assert GoodItem(Child(e));
  }

  // ----- its text, '>' by '>' -----

  function Tagged(t: seq<int>, rest: seq<int>): seq<int> {
    t + ['>' as int] + rest
  }

  function StartTag(name: string, attributes: seq<Attribute>, space: seq<int>): seq<int> {
    Code("<") + Code(name) + (PrintAttributes(attributes) + space)
  }

  function EndTag(before: seq<int>, name: string, space: seq<int>): seq<int> {
    before + (Code("</") + Code(name) + space)
  }

  lemma WrapPrints(name: string, decoded: seq<(string, string)>, attributes: seq<Attribute>, inner: Element)
    ensures PrintElement(Element(name, decoded, attributes, [], false, [Child(inner)], [])) ==
      Tagged(StartTag(name, attributes, []), PrintElement(inner) + Tagged(EndTag([], name, []), []))
  {
    ChildPrints(inner);
    BracketCode();
    hide PrintContent, PrintAttributes, Code;
    var e := Element(name, decoded, attributes, [], false, [Child(inner)], []);
    assert PrintOpen(e) == StartTag(name, attributes, []) + ['>' as int];
    assert PrintClose(e) == EndTag([], name, []) + ['>' as int] + [];
    hide PrintOpen, PrintClose, StartTag, EndTag;
  }

  lemma ChildPrints(inner: Element)
    ensures PrintContent([Child(inner)]) == PrintElement(inner)
  {
    assert [Child(inner)][1..] == [];
    assert PrintContent([]) == [];
  }

  lemma BracketCode()
    ensures Code(">") == ['>' as int]
  {}

  lemma TextOnlyPrints(n: Element)
    requires TextOnly(n)
    ensures PrintElement(n) ==
      Tagged(StartTag("SHORT-NAME", n.attributes, n.tagSpace),
             Tagged(EndTag(n.content[0].units, "SHORT-NAME", n.endSpace), []))
  {
    assert n.content == [n.content[0]] && [n.content[0]][1..] == [];
    assert PrintContent([]) == [];
    assert PrintContent(n.content) == n.content[0].units;
    BracketCode();
    hide PrintContent, PrintAttributes, Code, GoodElement;
    assert PrintOpen(n) == StartTag("SHORT-NAME", n.attributes, n.tagSpace) + ['>' as int];
    assert PrintClose(n) == EndTag([], "SHORT-NAME", n.endSpace) + ['>' as int];
    assert n.content[0].units + EndTag([], "SHORT-NAME", n.endSpace) ==
      EndTag(n.content[0].units, "SHORT-NAME", n.endSpace);
    hide PrintOpen, PrintClose, StartTag, EndTag;
  }

  lemma TaggedJoin(t: seq<int>, a: seq<int>, b: seq<int>)
    ensures Tagged(t, a) + b == Tagged(t, a + b)
  {}

  /** The six stretches of a one-signal file that end in a '>'. */
  function SixTags(a: seq<int>, b: seq<int>, c: seq<int>, d: seq<int>, e: seq<int>, f: seq<int>): seq<int> {
    Tagged(a, Tagged(b, Tagged(c, Tagged(d, Tagged(e, Tagged(f, []))))))
  }

  lemma SignalFilePrints(root: seq<Attribute>, decoded: seq<(string, string)>, n: Element)
    requires TextOnly(n)
    ensures PrintDocument(SignalFile(root, decoded, n)) == SixTags(
      StartTag("AUTOSAR", root, []), StartTag("I-SIGNAL", [], []), StartTag("SHORT-NAME", n.attributes, n.tagSpace),
      EndTag(n.content[0].units, "SHORT-NAME", n.endSpace), EndTag([], "I-SIGNAL", []), EndTag([], "AUTOSAR", []))
  {
    var sig := Element("I-SIGNAL", [], [], [], false, [Child(n)], []);
    WrapPrints("AUTOSAR", decoded, root, sig);
    WrapPrints("I-SIGNAL", [], [], n);
    TextOnlyPrints(n);
    WholePrints(root, decoded, n);
    hide PrintElement, PrintDocument, TextOnly, StartTag, EndTag, Tagged;
    var c, d := StartTag("SHORT-NAME", n.attributes, n.tagSpace), EndTag(n.content[0].units, "SHORT-NAME", n.endSpace);
    var e, f := Tagged(EndTag([], "I-SIGNAL", []), []), Tagged(EndTag([], "AUTOSAR", []), []);
    TaggedJoin(c, Tagged(d, []), e);
    TaggedJoin(d, [], e);
    TaggedJoin(StartTag("I-SIGNAL", [], []), Tagged(c, Tagged(d, e)), f);
    TaggedJoin(c, Tagged(d, e), f);
    TaggedJoin(d, e, f);
    TaggedJoin(EndTag([], "I-SIGNAL", []), [], f);
    assert [] + e == e && [] + f == f;
  }

  lemma WholePrints(root: seq<Attribute>, decoded: seq<(string, string)>, n: Element)
    ensures PrintDocument(SignalFile(root, decoded, n)) == PrintElement(SignalFile(root, decoded, n).root)
  {
    assert PrintContent([]) == [];
    hide PrintElement;
  }

  predicate CodeEndsAsOpener(t: seq<int>) {
    |t| >= 11 && t[|t| - 10..] == Code("SHORT-NAME") && (t[|t| - 11] == '<' as int || t[|t| - 11] == ':' as int)
  }

  /** The same for the characters of units. */
  lemma CodeOpensPast(t: seq<int>, rest: seq<int>, k: int)
    requires AllUnits(SingleByte, t) && AllUnits(SingleByte, rest) && '>' as int !in t
    requires OpensOnlyAt(Chars(rest), k) && (CodeEndsAsOpener(t) ==> k < 0)
    ensures AllUnits(SingleByte, t + ['>' as int] + rest)
    ensures OpensOnlyAt(Chars(t + ['>' as int] + rest), if CodeEndsAsOpener(t) then |t| - 10 else if k < 0 then -1
      else k + |t| + 1)
  {
    var u := t + ['>' as int] + rest;
    forall j | 0 <= j < |u| ensures IsUnit(SingleByte, u[j]) {}
    assert Chars(u) == Chars(t) + ">" + Chars(rest);
    forall j | 0 <= j < |t| ensures Chars(t)[j] != '>' {
      assert t[j] in t;
    }
    EndsInCode(t);
    hide Chars, AllUnits, OpensOnlyAt, EndsAsOpener, CodeEndsAsOpener;
    OpensPast(Chars(t), Chars(rest), k);
  }

  lemma EndsInCode(t: seq<int>)
    requires AllUnits(SingleByte, t)
    ensures EndsAsOpener(Chars(t)) <==> CodeEndsAsOpener(t)
  {
    if |t| >= 11 {
      var tail, code := t[|t| - 10..], Code("SHORT-NAME");
      var text := Chars(t)[|t| - 10..];
      if tail == code {
        forall j | 0 <= j < 10 ensures text[j] == "SHORT-NAME"[j] {
          assert tail[j] == code[j];
        }
        assert text == "SHORT-NAME";
      }
      if text == "SHORT-NAME" {
        forall j | 0 <= j < 10 ensures tail[j] == code[j] {
          assert text[j] == "SHORT-NAME"[j];
        }
        assert tail == code;
      }
    }
  }

  /** Attributes end in a quote. */
  lemma {:induction false} AttributesEnd(attributes: seq<Attribute>)
    requires attributes != [] && forall a <- attributes :: GoodAttribute(a)
    ensures PrintAttributes(attributes) != [] && IsQuote(PrintAttributes(attributes)[|PrintAttributes(attributes)| - 1])
  {
    assert GoodAttribute(attributes[0]);
    if attributes[1..] != [] {
      AttributesEnd(attributes[1..]);
    } else {
      assert PrintAttributes(attributes[1..]) == [];
    }
  }

  /** A start tag without its '>' ends as the opener exactly when it is the bare SHORT-NAME tag. */
  lemma TagEndsAsOpener(name: string, attributes: seq<Attribute>, space: seq<int>)
    requires (forall a <- attributes :: GoodAttribute(a)) && AllSpace(space)
      && (name == "SHORT-NAME" || name == "AUTOSAR" || name == "I-SIGNAL")
    ensures CodeEndsAsOpener(Code("<") + Code(name) + (PrintAttributes(attributes) + space))
      <==> name == "SHORT-NAME" && attributes == [] && space == []
  {
    var t := Code("<") + Code(name) + (PrintAttributes(attributes) + space);
    if space != [] {
      assert IsSpace(space[|space| - 1]);
      assert t[|t| - 1] == space[|space| - 1];
      NotLetterE(t);
    } else if attributes != [] {
      AttributesEnd(attributes);
      assert t[|t| - 1] == PrintAttributes(attributes)[|PrintAttributes(attributes)| - 1];
      NotLetterE(t);
    } else {
      assert t == Code("<") + Code(name);
      if name == "SHORT-NAME" {
        assert t[1..] == Code("SHORT-NAME");
        assert t[0] == '<' as int;
      }
    }
  }

  lemma NotLetterE(t: seq<int>)
    requires t != [] && t[|t| - 1] != 'E' as int
    ensures !CodeEndsAsOpener(t)
  {
    assert Code("SHORT-NAME")[9] == 'E' as int;
    assert |t| >= 10 ==> t[|t| - 10..][9] == t[|t| - 1];
  }

  /** An end tag never does. */
  lemma EndTagNoOpener(before: seq<int>, name: string, space: seq<int>)
    requires AllSpace(space) && (name == "SHORT-NAME" || name == "AUTOSAR" || name == "I-SIGNAL")
    ensures !CodeEndsAsOpener(before + (Code("</") + Code(name) + space))
  {
    var t := before + (Code("</") + Code(name) + space);
    if space != [] {
      assert IsSpace(space[|space| - 1]);
      assert t[|t| - 1] == space[|space| - 1];
      NotLetterE(t);
    } else {
      assert t == before + Code("</") + Code(name);
      assert t[|t| - 1] == Code(name)[|name| - 1];
      if name == "SHORT-NAME" {
        assert t[|t| - 11] == '/' as int;
      } else {
        NotLetterE(t);
      }
    }
  }

  /** A tag's text: no '>' in it, one byte a unit. */
  predicate TagText(t: seq<int>) {
    AllUnits(SingleByte, t) && '>' as int !in t
  }

  lemma TaggedOpens(t: seq<int>, rest: seq<int>, k: int)
    requires TagText(t) && AllUnits(SingleByte, rest) && OpensOnlyAt(Chars(rest), k) && (CodeEndsAsOpener(t) ==> k < 0)
    ensures AllUnits(SingleByte, Tagged(t, rest))
    ensures OpensOnlyAt(Chars(Tagged(t, rest)), if CodeEndsAsOpener(t) then |t| - 10 else if k < 0 then -1
      else k + |t| + 1)
  {
    CodeOpensPast(t, rest, k);
  }

  lemma SixTagsOpen(a: seq<int>, b: seq<int>, c: seq<int>, d: seq<int>, e: seq<int>, f: seq<int>)
    requires TagText(a) && TagText(b) && TagText(c) && TagText(d) && TagText(e) && TagText(f)
    requires !CodeEndsAsOpener(a) && !CodeEndsAsOpener(b) && !CodeEndsAsOpener(d) && !CodeEndsAsOpener(e)
      && !CodeEndsAsOpener(f)
    ensures AllUnits(SingleByte, SixTags(a, b, c, d, e, f))
    ensures OpensOnlyAt(Chars(SixTags(a, b, c, d, e, f)), if CodeEndsAsOpener(c) then |a| + |b| + |c| - 8 else -1)
  {
    LongEnough(c);
    NothingOpens();
    hide CodeEndsAsOpener, OpensOnlyAt, Chars, AllUnits, TagText, Tagged;
    TaggedOpens(f, [], -1);
    TaggedOpens(e, Tagged(f, []), -1);
    TaggedOpens(d, Tagged(e, Tagged(f, [])), -1);
    var rest := Tagged(d, Tagged(e, Tagged(f, [])));
    TaggedOpens(c, rest, -1);
    var k := if CodeEndsAsOpener(c) then |c| - 10 else -1;
    TaggedOpens(b, Tagged(c, rest), k);
    TaggedOpens(a, Tagged(b, Tagged(c, rest)), if k < 0 then -1 else k + |b| + 1);
  }

  lemma LongEnough(t: seq<int>)
    ensures CodeEndsAsOpener(t) ==> |t| >= 11
  {}

  lemma NothingOpens()
    ensures AllUnits(SingleByte, []) && OpensOnlyAt(Chars([]), -1)
  {}

  lemma TaggedUnits(t: seq<int>, rest: seq<int>)
    requires AllUnits(SingleByte, Tagged(t, rest))
    ensures AllUnits(SingleByte, t) && AllUnits(SingleByte, rest)
  {
    var u := Tagged(t, rest);
    forall k | 0 <= k < |t| ensures IsUnit(SingleByte, t[k]) {
      assert t[k] == u[k];
    }
    forall k | 0 <= k < |rest| ensures IsUnit(SingleByte, rest[k]) {
      assert rest[k] == u[|t| + 1 + k];
    }
  }

  /** Tags of the file hold no '>' when the attributes and the name do not. */
  lemma StartTagText(name: string, attributes: seq<Attribute>, space: seq<int>)
    requires GoodName(name) && AllSpace(space) && '>' as int !in PrintAttributes(attributes)
    ensures '>' as int !in StartTag(name, attributes, space)
  {
    hide PrintAttributes;
    NameText(name);
    SpaceText(space);
    LiteralBracket();
  }

  lemma EndTagText(before: seq<int>, name: string, space: seq<int>)
    requires GoodName(name) && AllSpace(space) && '>' as int !in before
    ensures '>' as int !in EndTag(before, name, space)
  {
    NameText(name);
    SpaceText(space);
    assert Code("</") == ['<' as int, '/' as int];
    hide Code;
  }

  lemma NameText(name: string)
    requires GoodName(name)
    ensures '>' as int !in Code(name)
  {
    forall k | 0 <= k < |name| ensures Code(name)[k] != '>' as int {
      assert IsNameUnit(name[k] as int);
    }
  }

  lemma SpaceText(space: seq<int>)
    requires AllSpace(space)
    ensures '>' as int !in space
  {
    forall k | 0 <= k < |space| ensures space[k] != '>' as int {
      assert IsSpace(space[k]);
    }
  }

  /** Where the name's element starts: behind the root's tag and the signal's. */
  function NameStart(root: seq<Attribute>): nat {
    |StartTag("AUTOSAR", root, [])| + |StartTag("I-SIGNAL", [], [])| + 2
  }

  /** In a one-signal file the name's start tag is the only place the opener can stand. */
  lemma OneOpener(root: seq<Attribute>, decoded: seq<(string, string)>, n: Element)
    requires TextOnly(n) && (forall a <- root :: GoodAttribute(a))
      && AllUnits(SingleByte, PrintDocument(SignalFile(root, decoded, n)))
    requires '>' as int !in PrintAttributes(root) && '>' as int !in PrintAttributes(n.attributes)
      && '>' as int !in n.content[0].units
    ensures OpensOnlyAt(Chars(PrintDocument(SignalFile(root, decoded, n))), if BareTag(n) then NameStart(root) + 1
      else -1)
  {
    var a, b, c := StartTag("AUTOSAR", root, []), StartTag("I-SIGNAL", [], []),
      StartTag("SHORT-NAME", n.attributes, n.tagSpace);
    var d, e, f := EndTag(n.content[0].units, "SHORT-NAME", n.endSpace), EndTag([], "I-SIGNAL", []),
      EndTag([], "AUTOSAR", []);
    SignalFilePrints(root, decoded, n);
    TextOnlyShape(n);
    NoneEndsAsOpener(root, n);
    TagsHoldNoBracket(root, n);
    hide PrintDocument, SixTags, CodeEndsAsOpener, OpensOnlyAt, Chars, AllUnits, TextOnly, StartTag, EndTag,
      GoodAttribute, PrintAttributes;
    SixTagsUnits(a, b, c, d, e, f);
    SixTagsOpen(a, b, c, d, e, f);
    if BareTag(n) {
      BareTagLength(n);
    }
  }

  lemma SixTagsUnits(a: seq<int>, b: seq<int>, c: seq<int>, d: seq<int>, e: seq<int>, f: seq<int>)
    requires AllUnits(SingleByte, SixTags(a, b, c, d, e, f))
    ensures AllUnits(SingleByte, a) && AllUnits(SingleByte, b) && AllUnits(SingleByte, c)
    ensures AllUnits(SingleByte, d) && AllUnits(SingleByte, e) && AllUnits(SingleByte, f)
  {
    hide AllUnits, Tagged;
    TaggedUnits(a, Tagged(b, Tagged(c, Tagged(d, Tagged(e, Tagged(f, []))))));
    TaggedUnits(b, Tagged(c, Tagged(d, Tagged(e, Tagged(f, [])))));
    TaggedUnits(c, Tagged(d, Tagged(e, Tagged(f, []))));
    TaggedUnits(d, Tagged(e, Tagged(f, [])));
    TaggedUnits(e, Tagged(f, []));
    TaggedUnits(f, []);
  }

  lemma NoneEndsAsOpener(root: seq<Attribute>, n: Element)
    requires TextOnly(n) && forall a <- root :: GoodAttribute(a)
    ensures !CodeEndsAsOpener(StartTag("AUTOSAR", root, [])) && !CodeEndsAsOpener(StartTag("I-SIGNAL", [], []))
    ensures CodeEndsAsOpener(StartTag("SHORT-NAME", n.attributes, n.tagSpace)) <==> BareTag(n)
    ensures !CodeEndsAsOpener(EndTag(n.content[0].units, "SHORT-NAME", n.endSpace))
    ensures !CodeEndsAsOpener(EndTag([], "I-SIGNAL", [])) && !CodeEndsAsOpener(EndTag([], "AUTOSAR", []))
  {
    TextOnlyShape(n);
    hide PrintAttributes, CodeEndsAsOpener, GoodAttribute, TextOnly, Code;
    TagEndsAsOpener("AUTOSAR", root, []);
    TagEndsAsOpener("I-SIGNAL", [], []);
    TagEndsAsOpener("SHORT-NAME", n.attributes, n.tagSpace);
    EndTagNoOpener(n.content[0].units, "SHORT-NAME", n.endSpace);
    EndTagNoOpener([], "I-SIGNAL", []);
    EndTagNoOpener([], "AUTOSAR", []);
  }

  lemma TagsHoldNoBracket(root: seq<Attribute>, n: Element)
    requires TextOnly(n)
    requires '>' as int !in PrintAttributes(root) && '>' as int !in PrintAttributes(n.attributes)
      && '>' as int !in n.content[0].units
    ensures '>' as int !in StartTag("AUTOSAR", root, []) && '>' as int !in StartTag("I-SIGNAL", [], [])
    ensures '>' as int !in StartTag("SHORT-NAME", n.attributes, n.tagSpace)
    ensures '>' as int !in EndTag(n.content[0].units, "SHORT-NAME", n.endSpace)
    ensures '>' as int !in EndTag([], "I-SIGNAL", []) && '>' as int !in EndTag([], "AUTOSAR", [])
  {
    TextOnlyShape(n);
    GoodNames();
    NoAttributes();
    hide PrintAttributes, GoodAttribute, TextOnly, GoodName, StartTag, EndTag;
    StartTagText("AUTOSAR", root, []);
    StartTagText("I-SIGNAL", [], []);
    StartTagText("SHORT-NAME", n.attributes, n.tagSpace);
    EndTagText(n.content[0].units, "SHORT-NAME", n.endSpace);
    EndTagText([], "I-SIGNAL", []);
    EndTagText([], "AUTOSAR", []);
  }

  lemma NoAttributes()
    ensures PrintAttributes([]) == []
  {}

  lemma TextOnlyShape(n: Element)
    requires TextOnly(n)
    ensures (forall a <- n.attributes :: GoodAttribute(a)) && AllSpace(n.tagSpace) && AllSpace(n.endSpace)
      && !n.selfClosed && GoodName("SHORT-NAME")
  {}

  lemma BareTagLength(n: Element)
    requires BareTag(n)
    ensures |StartTag("SHORT-NAME", n.attributes, n.tagSpace)| == 11
  {
    NoAttributes();
  }

  lemma NameOccurs(root: seq<Attribute>, decoded: seq<(string, string)>, n: Element)
    requires TextOnly(n)
    ensures Occurs(PrintDocument(SignalFile(root, decoded, n)), NameStart(root), PrintElement(n))
    ensures PrintDocument(SignalFile(root, decoded, n)) != []
      && PrintDocument(SignalFile(root, decoded, n))[0] == '<' as int
  {
    var b, c := StartTag("I-SIGNAL", [], []), StartTag("SHORT-NAME", n.attributes, n.tagSpace);
    var d, e, f := EndTag(n.content[0].units, "SHORT-NAME", n.endSpace), EndTag([], "I-SIGNAL", []),
      EndTag([], "AUTOSAR", []);
    SignalFilePrints(root, decoded, n);
    TextOnlyPrints(n);
    hide *;
    var a := StartTag("AUTOSAR", root, []);
    var u := PrintDocument(SignalFile(root, decoded, n));
    SixTagsSplit(a, b, c, d, e, f);
    RootTagOpens(root);
    OccursWhole(u);
    OccursThree(u, 0, Tagged(a, b) + ['>' as int], PrintElement(n), Tagged(e, Tagged(f, [])));
    NameStartIs(root);
  }

  lemma NameStartIs(root: seq<Attribute>)
    ensures NameStart(root) == |Tagged(StartTag("AUTOSAR", root, []), StartTag("I-SIGNAL", [], [])) + ['>' as int]|
  {
    hide StartTag;
  }

  lemma RootTagOpens(root: seq<Attribute>)
    ensures StartTag("AUTOSAR", root, []) != [] && StartTag("AUTOSAR", root, [])[0] == '<' as int
  {
    LiteralBracket();
  }

  lemma SixTagsSplit(a: seq<int>, b: seq<int>, c: seq<int>, d: seq<int>, e: seq<int>, f: seq<int>)
    ensures SixTags(a, b, c, d, e, f) ==
      (Tagged(a, b) + ['>' as int]) + Tagged(c, Tagged(d, [])) + Tagged(e, Tagged(f, []))
    ensures a != [] ==> SixTags(a, b, c, d, e, f) != [] && SixTags(a, b, c, d, e, f)[0] == a[0]
  {
    var rest := Tagged(e, Tagged(f, []));
    TaggedJoin(c, Tagged(d, []), rest);
    TaggedJoin(d, [], rest);
    assert [] + rest == rest;
  }

  /**
    A whole file with one definition: the parser reads the name, and the filter
    sees it exactly when the element spells it plainly.
   */
  lemma SignalFileSeenIffPlain(reader: FloatReader, root: seq<Attribute>, decoded: seq<(string, string)>, n: Element,
                               name: string)
    requires TextOnly(n) && (forall a <- root :: GoodAttribute(a))
      && AllUnits(SingleByte, PrintDocument(SignalFile(root, decoded, n)))
    requires '>' as int !in PrintAttributes(root) && '>' as int !in PrintAttributes(n.attributes)
      && '>' as int !in n.content[0].units
    requires name == TrimText(ContentText(n.content)) && name != "" && '<' !in name && PreFilter.HidesNoOpener(name)
    ensures var d := SignalFile(root, decoded, n);
      && GoodDocument(d) && Parse(reader, SingleByte, d).Some?
      && Ref(SignalKind, name) in FileDefs(Parse(reader, SingleByte, d).value)
      && (PreFilter.RawDefines(AsText(Encode(SingleByte, PrintDocument(d))), name) <==> SpelledPlainly(n, name))
  {
    var d := SignalFile(root, decoded, n);
    SignalFileIsGood(root, decoded, n);
    ParsedDefinitions(reader, SingleByte, d, Ref(SignalKind, name));
    EncodedText(PrintDocument(d));
    hide *;
    AnswerForSignalFile(root, decoded, n, name);
  }

  lemma AnswerForSignalFile(root: seq<Attribute>, decoded: seq<(string, string)>, n: Element, name: string)
    requires TextOnly(n) && (forall a <- root :: GoodAttribute(a))
      && AllUnits(SingleByte, PrintDocument(SignalFile(root, decoded, n)))
    requires '>' as int !in PrintAttributes(root) && '>' as int !in PrintAttributes(n.attributes)
      && '>' as int !in n.content[0].units
    requires Trimmed(name) && name != "" && '<' !in name && PreFilter.HidesNoOpener(name)
    ensures PreFilter.RawDefines(Chars(PrintDocument(SignalFile(root, decoded, n))), name) <==> SpelledPlainly(n, name)
  {
    var u, q := PrintDocument(SignalFile(root, decoded, n)), NameStart(root);
    NameOccurs(root, decoded, n);
    OneOpener(root, decoded, n);
    CharAt(u, 0);
    assert !PreFilter.HasUtf16Mark(Chars(u));
    hide SignalFile, NameStart, GoodElement, Occurs, PrintElement, PreFilter.RawDefines, PreFilter.DefinesAt,
      PreFilter.HidesNoOpener,
      SpelledPlainly, PrintDocument, GoodAttribute, PrintAttributes, Chars, PreFilter.HasUtf16Mark;
    AnswerForElement(u, q, n, name);
    forall p: nat | p != q + 1 ensures !SeenAt(Chars(u), name, p) {
      NotSeenElsewhere(Chars(u), name, p, if BareTag(n) then q + 1 else -1);
    }
  }

  lemma NotSeenElsewhere(bytes: string, name: string, p: nat, k: int)
    requires OpensOnlyAt(bytes, k) && p != k
    ensures !SeenAt(bytes, name, p)
  {}

  /** The signal file whose one name element has a blank in its start tag. */
  function SpacedFile(name: string): Document {
    SignalFile(RELEASE, RELEASE_DECODED, SpacedName(name))
  }

  function SpacedName(name: string): Element {
    Element("SHORT-NAME", [], [], [' ' as int], false, [CharData(Code(name), [name])], [])
  }

  /** A blank in the start tag, which XML allows, hides a definition the parser reads. */
  lemma SpacedTagIsMissed(reader: FloatReader, name: string)
    requires name != "" && Trimmed(name) && IsAsciiText(name) && '<' !in name && '>' !in name
      && PreFilter.HidesNoOpener(name)
    ensures var d := SpacedFile(name);
      && AllUnits(SingleByte, PrintDocument(d))
      && GoodDocument(d) && Parse(reader, SingleByte, d).Some?
      && Ref(SignalKind, name) in FileDefs(Parse(reader, SingleByte, d).value)
      && !PreFilter.RawDefines(AsText(Encode(SingleByte, PrintDocument(d))), name)
  {
    var n := SpacedName(name);
    SpacedTextOnly(name);
    SpacedUnits(name);
    NoAttributes();
    ReleaseIsPlain();
    hide TextOnly, SignalFile, PrintDocument, PreFilter.HidesNoOpener, PreFilter.RawDefines, GoodDocument, Parse,
      FileDefs, PrintAttributes, ContentText, TrimText, RELEASE, RELEASE_DECODED;
    SignalFileSeenIffPlain(reader, RELEASE, RELEASE_DECODED, n, name);
  }

  lemma SpacedTextOnly(name: string)
    requires Trimmed(name) && '<' !in name && '>' !in name
    ensures var n := SpacedName(name);
      TextOnly(n) && '>' as int !in n.content[0].units && TrimText(ContentText(n.content)) == name
  {
    var n := SpacedName(name);
    forall k | 0 <= k < |name| ensures Code(name)[k] != '<' as int && Code(name)[k] != '>' as int {
      assert name[k] in name;
    }
    var item := n.content[0];
    assert GoodItem(item);
    assert n.content == [item] && [item][1..] == [];
    assert JoinChunks([name]) == name by {
      assert [name][1..] == [];
      assert name + "" == name;
    }
    assert ContentText([item]) == name + "";
    TrimTrimmed(name);
    assert IsSpace(' ' as int) && AllSpace(n.tagSpace) && AllSpace(n.endSpace);
    assert GoodContent(n.content);
    GoodShortName();
  }

  lemma GoodShortName()
    ensures GoodName("SHORT-NAME")
  {}

  lemma SpacedUnits(name: string)
    requires TextOnly(SpacedName(name)) && IsAsciiText(name)
    ensures AllUnits(SingleByte, PrintDocument(SpacedFile(name)))
  {
    SignalFilePrints(RELEASE, RELEASE_DECODED, SpacedName(name));
    SpacedTagUnits(name);
    hide *;
  }

  lemma SpacedTagUnits(name: string)
    requires IsAsciiText(name)
    ensures AllUnits(SingleByte, SixTags(
      StartTag("AUTOSAR", RELEASE, []), StartTag("I-SIGNAL", [], []), StartTag("SHORT-NAME", [], [' ' as int]),
      EndTag(Code(name), "SHORT-NAME", []), EndTag([], "I-SIGNAL", []), EndTag([], "AUTOSAR", [])))
  {
    var a, b, c := StartTag("AUTOSAR", RELEASE, []), StartTag("I-SIGNAL", [], []),
      StartTag("SHORT-NAME", [], [' ' as int]);
    var d, e, f := EndTag(Code(name), "SHORT-NAME", []), EndTag([], "I-SIGNAL", []), EndTag([], "AUTOSAR", []);
    SpacedPieces(name);
    hide StartTag, EndTag, AllUnits, Tagged, Code, IsAsciiText;
    UnitsTagged(f, []);
    UnitsTagged(e, Tagged(f, []));
    UnitsTagged(d, Tagged(e, Tagged(f, [])));
    UnitsTagged(c, Tagged(d, Tagged(e, Tagged(f, []))));
    UnitsTagged(b, Tagged(c, Tagged(d, Tagged(e, Tagged(f, [])))));
    UnitsTagged(a, Tagged(b, Tagged(c, Tagged(d, Tagged(e, Tagged(f, []))))));
  }

  lemma SpacedPieces(name: string)
    requires IsAsciiText(name)
    ensures AllUnits(SingleByte, []) && AllUnits(SingleByte, EndTag(Code(name), "SHORT-NAME", []))
    ensures AllUnits(SingleByte, StartTag("AUTOSAR", RELEASE, [])) && AllUnits(SingleByte, StartTag("I-SIGNAL", [], []))
    ensures AllUnits(SingleByte, StartTag("SHORT-NAME", [], [' ' as int]))
    ensures AllUnits(SingleByte, EndTag([], "I-SIGNAL", [])) && AllUnits(SingleByte, EndTag([], "AUTOSAR", []))
  {
    NoAttributes();
    ReleaseIsPlain();
    AsciiCode("AUTOSAR");
    AsciiCode("I-SIGNAL");
    AsciiCode("SHORT-NAME");
    AsciiCode(name);
    AsciiCode("<");
    AsciiCode("</");
    hide Code, RELEASE, PrintAttributes;
    StartTagUnits("AUTOSAR", RELEASE, []);
    StartTagUnits("I-SIGNAL", [], []);
    StartTagUnits("SHORT-NAME", [], [' ' as int]);
    hide IsAsciiText;
    EndTagUnits(Code(name), "SHORT-NAME");
    EndTagUnits([], "I-SIGNAL");
    EndTagUnits([], "AUTOSAR");
  }

  lemma UnitsTagged(t: seq<int>, rest: seq<int>)
    requires AllUnits(SingleByte, t) && AllUnits(SingleByte, rest)
    ensures AllUnits(SingleByte, Tagged(t, rest))
  {}

  lemma StartTagUnits(name: string, attributes: seq<Attribute>, space: seq<int>)
    requires AllUnits(SingleByte, Code("<")) && AllUnits(SingleByte, Code(name))
      && AllUnits(SingleByte, PrintAttributes(attributes)) && AllUnits(SingleByte, space)
    ensures AllUnits(SingleByte, StartTag(name, attributes, space))
  {
    hide Code, PrintAttributes;
  }

  lemma EndTagUnits(before: seq<int>, name: string)
    requires AllUnits(SingleByte, before) && AllUnits(SingleByte, Code("</")) && AllUnits(SingleByte, Code(name))
    ensures AllUnits(SingleByte, EndTag(before, name, []))
  {
    hide Code;
  }

  lemma AsciiCode(s: string)
    ensures IsAsciiText(s) ==> AllUnits(SingleByte, Code(s))
  {}

  // ----- a discovery that needs such a file -----

  /** With such a file as the only candidate, a discovery that needs its signal reports the signal as missing. */
  lemma HiddenDefinitionDangles(disk: Disk, reader: FloatReader, entries: seq<string>, path: string, name: string,
                                limit: nat)
    requires name != "" && Trimmed(name) && IsAsciiText(name) && '<' !in name && '>' !in name
      && PreFilter.HidesNoOpener(name)
    requires Holds(disk, reader, SingleByte, path, SpacedFile(name)) && FirstFailure(disk, entries) == None
    requires Wanted(EntriesState(disk, entries).files) == {Ref(SignalKind, name)}
    ensures Discover(disk, entries, [path], limit) == Err(DanglingReferences({Ref(SignalKind, name)}))
    ensures disk.parse(path).Some? && DefinesWanted(disk.parse(path).value, {Ref(SignalKind, name)})
  {
    var s, wanted := EntriesState(disk, entries), {Ref(SignalKind, name)};
    hide EntriesState, FirstFailure, FileDefs, Wanted, PreFilter.RawDefines, PreFilter.HidesNoOpener, PrintDocument,
      Encode, Parse, GoodDocument;
    SpacedTagIsMissed(reader, name);
    assert disk.bytes(path) != "" by { SpacedFileNotEmpty(name); }
    assert !CandidateDefinesAny(disk, path, wanted);
    NotPulled(disk, wanted, s, path);
    if limit > 0 {
      assert Expand(disk, s, [path]) == (Stuck, s);
    }
  }

  lemma SpacedFileNotEmpty(name: string)
    requires AllUnits(SingleByte, PrintDocument(SpacedFile(name))) && Trimmed(name) && '<' !in name && '>' !in name
    ensures AsText(Encode(SingleByte, PrintDocument(SpacedFile(name)))) != ""
  {
    SpacedTextOnly(name);
    hide TextOnly, PrintDocument, SpacedName;
    NameOccurs(RELEASE, RELEASE_DECODED, SpacedName(name));
  }

  lemma NotPulled(disk: Disk, wanted: set<Ref>, s: LazyDiscovery.State, path: string)
    requires !Pulls(disk, wanted, path)
    ensures Pulled(disk, wanted, s.parsed, [path]) == [] && Grown(disk, s, []) == s
  {
    hide Pulls;
    NothingPulled(disk, wanted, s);
    assert [path][..0] == [];
  }
}
