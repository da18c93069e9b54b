/**
  The text filter against the parser: which of the definitions the parser
  reads from a document the filter sees in its bytes, and what that makes of a
  failed discovery.
 */
module FilterCoverage {
  import opened Wrappers
  import opened RawBytes
  import opened Scanner
  import opened Loader
  import opened Markup
  import opened MarkupScan
  import opened ExactSpans
  import opened Numbers
  import opened References
  import opened DocumentReading
  import opened LazyDiscovery
  import opened XmlTree
  import PreFilter
  import Model

  /** One-byte units as the filter's characters. */
  function Chars(u: seq<int>): (s: string)
    requires AllUnits(SingleByte, u)
    ensures |s| == |u|
  {
    seq(|u|, i requires 0 <= i < |u| => assert IsUnit(SingleByte, u[i]); u[i] as char)
  }

  function AsText(bytes: seq<byte>): string {
    seq(|bytes|, i requires 0 <= i < |bytes| => bytes[i] as char)
  }

  lemma EncodedText(u: seq<int>)
    requires AllUnits(SingleByte, u)
    ensures AsText(Encode(SingleByte, u)) == Chars(u)
  {
    var bytes := Encode(SingleByte, u);
    forall i | 0 <= i < |u| ensures AsText(bytes)[i] == Chars(u)[i] {
      assert bytes[i] == EncodedByte(SingleByte, u, i);
    }
  }

  // ----- plain spelling -----

  /** The raw character data before the first piece that is not character data. */
  function LeadingText(items: seq<Item>): seq<int> {
    if items == [] || !items[0].CharData? then [] else items[0].units + LeadingText(items[1..])
  }

  /**
    No attribute and no blank in the start tag, not self-closed, and the name
    stands untouched (no entity, CDATA section or comment in or before it) at
    the start of the content.
   */
  predicate SpelledPlainly(n: Element, name: string) {
    && n.attributes == [] && n.tagSpace == [] && !n.selfClosed
    && AllUnits(SingleByte, LeadingText(n.content))
    && TrimText(Chars(LeadingText(n.content))) == name
  }

  /** The filter's pattern stands with its opener at p, just behind a tag's bracket. */
  ghost predicate SeenAt(bytes: string, name: string, p: nat) {
    exists i: nat, m: nat :: PreFilter.DefinesAt(bytes, name, p, i, m)
  }

  lemma {:induction false} LeadingTextEnds(u: seq<int>, c: nat, items: seq<Item>, close: seq<int>)
    requires Occurs(u, c, PrintContent(items) + close) && GoodContent(items) && close != [] && close[0] == '<' as int
    ensures Occurs(u, c, LeadingText(items)) && '<' as int !in LeadingText(items)
    ensures c + |LeadingText(items)| < |u| && u[c + |LeadingText(items)|] == '<' as int
    decreases |items|
  {
    hide Occurs, PrintItem, GoodItem;
    if items == [] {
      assert PrintContent(items) + close == close;
      OccursAt(u, c, close, 0);
      OccursNothing(u, c, close);
    } else {
      var rest := PrintContent(items[1..]) + close;
      assert PrintContent(items) + close == PrintItem(items[0]) + rest;
      OccursParts(u, c, PrintItem(items[0]), rest);
      if items[0].CharData? {
        CharDataPrints(items[0]);
        LeadingTextEnds(u, c + |items[0].units|, items[1..], close);
        OccursJoin(u, c, items[0].units, LeadingText(items[1..]));
      } else {
        MarkupOpens(items[0]);
        OccursAt(u, c, PrintItem(items[0]), 0);
        OccursNothing(u, c, PrintItem(items[0]) + rest);
      }
    }
  }

  lemma OccursNothing(u: seq<int>, c: nat, piece: seq<int>)
    requires Occurs(u, c, piece)
    ensures Occurs(u, c, [])
  {}

  lemma OccursJoin(u: seq<int>, c: nat, a: seq<int>, b: seq<int>)
    requires Occurs(u, c, a) && Occurs(u, c + |a|, b)
    ensures Occurs(u, c, a + b)
  {
    assert u[c..c + |a + b|] == u[c..c + |a|] + u[c + |a|..c + |a| + |b|];
  }

  lemma MarkupOpens(item: Item)
    requires !item.CharData?
    ensures PrintItem(item) != [] && PrintItem(item)[0] == '<' as int
  {
    match item
    case Comment(body) => assert PrintItem(item)[0] == Code("<!--")[0];
    case Instruction(body) => assert PrintItem(item)[0] == Code("<?")[0];
    case CData(body, _) => assert PrintItem(item)[0] == Code("<![CDATA[")[0];
    case Doctype(parts) => assert PrintItem(item)[0] == Code("<!")[0];
    case Child(e) => assert PrintOpen(e)[0] == Code("<")[0]; assert PrintElement(e)[0] == PrintOpen(e)[0];
  }

  // ----- trimming -----

  lemma {:induction false} TrimStartSplits(s: string)
    ensures var k := |s| - |TrimStart(s)|; s[k..] == TrimStart(s) && forall i :: 0 <= i < k ==> IsBlank(s[i])
  {
    if s != "" && IsBlank(s[0]) {
      TrimStartSplits(s[1..]);
      var k := |s| - |TrimStart(s)|;
      assert s[1..][k - 1..] == s[k..];
      forall i | 0 <= i < k ensures IsBlank(s[i]) {
        if i > 0 {
          assert s[1..][i - 1] == s[i];
        }
      }
    }
  }

  lemma {:induction false} TrimEndSplits(s: string)
    ensures TrimEnd(s) == s[..|TrimEnd(s)|] && forall i :: |TrimEnd(s)| <= i < |s| ==> IsBlank(s[i])
  {
    if s != "" && IsBlank(s[|s| - 1]) {
      TrimEndSplits(s[..|s| - 1]);
      forall i | |TrimEnd(s)| <= i < |s| ensures IsBlank(s[i]) {
        if i < |s| - 1 {
          assert s[..|s| - 1][i] == s[i];
        }
      }
    }
  }

  lemma {:induction false} TrimStartSkips(s: string, k: nat)
    requires k <= |s| && (forall i :: 0 <= i < k ==> IsBlank(s[i])) && (k < |s| ==> !IsBlank(s[k]))
    ensures TrimStart(s) == s[k..]
  {
    if k > 0 {
      TrimStartSkips(s[1..], k - 1);
    }
  }

  lemma {:induction false} TrimEndSkips(s: string, k: nat)
    requires k <= |s| && (forall i :: k <= i < |s| ==> IsBlank(s[i])) && (k > 0 ==> !IsBlank(s[k - 1]))
    ensures TrimEnd(s) == s[..k]
  {
    if k < |s| {
      TrimEndSkips(s[..|s| - 1], k);
      assert s[..|s| - 1][..k] == s[..k];
    }
  }

  /** A text trims to a name exactly when it is the name between blanks. */
  lemma TrimsTo(s: string, name: string)
    requires name != "" && Trimmed(name)
    ensures TrimText(s) == name <==> exists k: nat :: PaddedAt(s, name, k)
  {
    if TrimText(s) == name {
      TrimmedIsPadded(s, name);
    }
    if k: nat :| PaddedAt(s, name, k) {
      PaddedIsTrimmed(s, name, k);
    }
  }

  lemma TrimmedIsPadded(s: string, name: string)
    requires name != "" && TrimText(s) == name
    ensures exists k: nat :: PaddedAt(s, name, k)
  {
    var inner := TrimStart(s);
    TrimStartSplits(s);
    TrimEndSplits(inner);
    hide TrimStart, TrimEnd, IsBlank;
    var k := |s| - |inner|;
    forall i | k + |name| <= i < |s| ensures IsBlank(s[i]) {
      assert s[i] == s[k..][i - k];
    }
    assert s[k..k + |name|] == s[k..][..|name|];
    assert PaddedAt(s, name, k);
  }

  lemma PaddedIsTrimmed(s: string, name: string, k: nat)
    requires name != "" && Trimmed(name) && PaddedAt(s, name, k)
    ensures TrimText(s) == name
  {
    assert s[k] == s[k..k + |name|][0];
    assert s[k..][..|name|] == name;
    hide TrimStart, TrimEnd, IsBlank;
    TrimStartSkips(s, k);
    TrimEndSkips(s[k..], |name|);
  }

  /** The name at k, and nothing but blanks around it. */
  predicate PaddedAt(s: string, name: string, k: nat) {
    && k + |name| <= |s| && s[k..k + |name|] == name
    && (forall i :: 0 <= i < k ==> IsBlank(s[i]))
    && (forall i :: k + |name| <= i < |s| ==> IsBlank(s[i]))
  }

  // ----- one element -----

  /** What follows the name in a printed SHORT-NAME element. */
  function AfterTagName(n: Element): seq<int> {
    PrintAttributes(n.attributes) + n.tagSpace + TagClose(n.selfClosed)
  }

  predicate BareTag(n: Element) {
    n.attributes == [] && n.tagSpace == [] && !n.selfClosed
  }

  /** Only a bare tag has its '>' right behind the name. */
  lemma BareTagCloses(n: Element)
    requires GoodElement(n)
    ensures AfterTagName(n) != [] && (AfterTagName(n)[0] == '>' as int <==> BareTag(n))
    ensures BareTag(n) ==> AfterTagName(n) == ['>' as int]
  {
    LiteralUnits();
    if n.attributes != [] {
      assert GoodAttribute(n.attributes[0]);
      assert PrintAttributes(n.attributes)[0] == n.attributes[0].space[0];
      assert IsSpace(n.attributes[0].space[0]);
    } else if n.tagSpace != [] {
      assert IsSpace(n.tagSpace[0]);
    }
  }

  lemma OpenerCode()
    ensures Code("SHORT-NAME") + ['>' as int] == Code(PreFilter.OPENER)
  {}

  /** The characters at p are the text's exactly when its code occurs there. */
  lemma TextOccurs(u: seq<int>, text: string, p: nat)
    requires AllUnits(SingleByte, u)
    ensures PreFilter.TextAt(Chars(u), text, p) <==> Occurs(u, p, Code(text))
  {
    if PreFilter.TextAt(Chars(u), text, p) {
      forall k | 0 <= k < |text| ensures u[p..p + |text|][k] == Code(text)[k] {
        assert Chars(u)[p..p + |text|][k] == text[k];
      }
    }
    if Occurs(u, p, Code(text)) {
      forall k | 0 <= k < |text| ensures Chars(u)[p..p + |text|][k] == text[k] {
        OccursAt(u, p, Code(text), k);
      }
    }
  }

  /** A bare SHORT-NAME tag, its leading text, and the bracket after it. */
  lemma BareLayout(u: seq<int>, q: nat, n: Element)
    requires GoodElement(n) && n.name == "SHORT-NAME" && Occurs(u, q, PrintElement(n)) && BareTag(n)
    ensures q < |u| && u[q] == '<' as int && Occurs(u, q + 1, Code(PreFilter.OPENER))
    ensures var text, c := LeadingText(n.content), q + 12;
      Occurs(u, c, text) && '<' as int !in text && c + |text| < |u| && u[c + |text|] == '<' as int
  {
    hide Occurs, GoodElement, PrintContent, PrintOpen, PrintClose, LeadingText, Code;
    OpenOccurs(u, q, n);
    BareOpens(n);
    OccursParts(u, q, Code("<"), Code(PreFilter.OPENER));
    LiteralBracket();
    OccursAt(u, q, Code("<"), 0);
    ContentIsGood(n);
    CloseOpens(n);
    OccursJoin(u, q + 12, PrintContent(n.content), PrintClose(n));
    LeadingTextEnds(u, q + 12, n.content, PrintClose(n));
  }

  lemma LiteralBracket()
    ensures Code("<") == ['<' as int]
  {}

  lemma BareOpens(n: Element)
    requires GoodElement(n) && n.name == "SHORT-NAME" && BareTag(n)
    ensures PrintOpen(n) == Code("<") + Code(PreFilter.OPENER) && |PrintOpen(n)| == 12
  {
    BareTagCloses(n);
    OpenerCode();
    assert PrintOpen(n) == Code("<") + (Code("SHORT-NAME") + AfterTagName(n));
  }

  lemma CloseOpens(n: Element)
    ensures PrintClose(n) != [] && PrintClose(n)[0] == '<' as int
  {
    LiteralUnits();
    assert PrintClose(n)[0] == Code("</")[0];
  }

  /** A tag that is not bare does not read like the opener. */
  lemma OpenerNeedsBareTag(u: seq<int>, q: nat, n: Element)
    requires GoodElement(n) && n.name == "SHORT-NAME" && Occurs(u, q, PrintElement(n))
      && Occurs(u, q + 1, Code(PreFilter.OPENER))
    ensures BareTag(n)
  {
    hide Occurs, GoodElement, PrintContent, PrintAttributes;
    OpenOccurs(u, q, n);
    BareTagCloses(n);
    assert PrintOpen(n) == Code("<") + Code("SHORT-NAME") + AfterTagName(n);
    OccursThree(u, q, Code("<"), Code("SHORT-NAME"), AfterTagName(n));
    OccursAt(u, q + 11, AfterTagName(n), 0);
    OccursAt(u, q + 1, Code(PreFilter.OPENER), 10);
    assert Code(PreFilter.OPENER)[10] == '>' as int;
  }

  lemma SliceOfSlice(bytes: string, c: nat, text: string, k: nat, n: nat)
    requires PreFilter.TextAt(bytes, text, c) && k + n <= |text|
    ensures text[k..k + n] == bytes[c + k..c + k + n]
    ensures forall j :: 0 <= j < |text| ==> text[j] == bytes[c + j]
  {
    var a, b := text[k..k + n], bytes[c + k..c + k + n];
    forall j | 0 <= j < n ensures a[j] == b[j] {
      assert a[j] == text[k + j] == bytes[c..c + |text|][k + j];
    }
  }

  /** A name between blanks in the leading text is the pattern. */
  lemma PaddingIsPattern(bytes: string, name: string, p: nat, text: string, k: nat)
    requires PreFilter.Opens(bytes, p) && PreFilter.TextAt(bytes, PreFilter.OPENER, p)
    requires PreFilter.TextAt(bytes, text, p + 11) && p + 11 + |text| < |bytes| && bytes[p + 11 + |text|] == '<'
    requires PaddedAt(text, name, k)
    ensures SeenAt(bytes, name, p)
  {
    var c := p + 11;
    SliceOfSlice(bytes, c, text, k, |name|);
    var i, m := c + k, c + |text|;
    forall j | c <= j < i ensures IsBlank(bytes[j]) {
      assert text[j - c] == bytes[c + (j - c)];
    }
    forall j | i + |name| <= j < m ensures IsBlank(bytes[j]) {
      assert text[j - c] == bytes[c + (j - c)];
    }
    assert PreFilter.DefinesAt(bytes, name, p, i, m);
  }

  /** And the pattern is a name between blanks, up to the first bracket. */
  lemma PatternIsPadding(bytes: string, name: string, p: nat, text: string)
    requires SeenAt(bytes, name, p) && '<' !in name
    requires PreFilter.TextAt(bytes, text, p + 11) && p + 11 + |text| < |bytes| && bytes[p + 11 + |text|] == '<'
      && '<' !in text
    ensures exists k: nat :: PaddedAt(text, name, k)
  {
    var i: nat, m: nat :| PreFilter.DefinesAt(bytes, name, p, i, m);
    PatternEnds(bytes, name, p, i, m, text);
    var c := p + 11;
    var k := i - c;
    SliceOfSlice(bytes, c, text, k, |name|);
    assert PaddedAt(text, name, k);
  }

  lemma PatternEnds(bytes: string, name: string, p: nat, i: nat, m: nat, text: string)
    requires PreFilter.DefinesAt(bytes, name, p, i, m) && '<' !in name
    requires PreFilter.TextAt(bytes, text, p + 11) && p + 11 + |text| < |bytes| && bytes[p + 11 + |text|] == '<'
      && '<' !in text
    ensures p + 11 <= i && m == p + 11 + |text|
  {}

  /**
    For a printed SHORT-NAME element: the filter's pattern for a name stands at
    the element exactly when the element spells the name plainly.
   */
  lemma SeenIffPlain(u: seq<int>, q: nat, n: Element, name: string)
    requires AllUnits(SingleByte, u) && GoodElement(n) && n.name == "SHORT-NAME" && Occurs(u, q, PrintElement(n))
    requires name != "" && Trimmed(name) && '<' !in name
    ensures SeenAt(Chars(u), name, q + 1) <==> SpelledPlainly(n, name)
  {
    hide GoodElement, PrintElement, Trimmed, TrimText, Occurs, PreFilter.TextAt, LeadingText;
    TextOccurs(u, PreFilter.OPENER, q + 1);
    if BareTag(n) {
      BareLayout(u, q, n);
      UnitsWithin(u, q + 12, LeadingText(n.content));
      SeenIffPadded(u, q, LeadingText(n.content), name);
    } else if SeenAt(Chars(u), name, q + 1) {
      OpenerNeedsBareTag(u, q, n);
    }
  }

  lemma SeenIffPadded(u: seq<int>, q: nat, text: seq<int>, name: string)
    requires AllUnits(SingleByte, u) && AllUnits(SingleByte, text) && q < |u| && u[q] == '<' as int
    requires Occurs(u, q + 1, Code(PreFilter.OPENER)) && Occurs(u, q + 12, text) && '<' as int !in text
    requires q + 12 + |text| < |u| && u[q + 12 + |text|] == '<' as int
    requires name != "" && Trimmed(name) && '<' !in name
    ensures SeenAt(Chars(u), name, q + 1) <==> TrimText(Chars(text)) == name
  {
    var bytes, leading := Chars(u), Chars(text);
    NoBracket(text);
    TextOccurs(u, PreFilter.OPENER, q + 1);
    CharsOccur(u, q + 12, text);
    CharAt(u, q);
    CharAt(u, q + 12 + |text|);
    hide *;
    SeenIffPaddedText(bytes, name, q + 1, leading);
    TrimsTo(leading, name);
  }

  lemma CharAt(u: seq<int>, i: nat)
    requires AllUnits(SingleByte, u) && i < |u|
    ensures Chars(u)[i] as int == u[i]
  {}

  lemma SeenIffPaddedText(bytes: string, name: string, p: nat, text: string)
    requires 0 < p <= |bytes| && bytes[p - 1] == '<' && PreFilter.TextAt(bytes, PreFilter.OPENER, p)
    requires PreFilter.TextAt(bytes, text, p + 11) && p + 11 + |text| < |bytes| && bytes[p + 11 + |text|] == '<'
    requires '<' !in text && '<' !in name
    ensures SeenAt(bytes, name, p) <==> exists k: nat :: PaddedAt(text, name, k)
  {
    assert PreFilter.Opens(bytes, p);
    hide SeenAt, PaddedAt, PreFilter.TextAt;
    if SeenAt(bytes, name, p) {
      PatternIsPadding(bytes, name, p, text);
    }
    if k: nat :| PaddedAt(text, name, k) {
      PaddingIsPattern(bytes, name, p, text, k);
    }
  }

  lemma NoBracket(text: seq<int>)
    requires AllUnits(SingleByte, text) && '<' as int !in text
    ensures '<' !in Chars(text)
  {
    forall k | 0 <= k < |text| ensures Chars(text)[k] != '<' {
      assert text[k] in text;
    }
  }

  lemma UnitsWithin(u: seq<int>, c: nat, piece: seq<int>)
    requires AllUnits(SingleByte, u) && Occurs(u, c, piece)
    ensures AllUnits(SingleByte, piece)
  {
    forall k | 0 <= k < |piece| ensures IsUnit(SingleByte, piece[k]) {
      OccursAt(u, c, piece, k);
    }
  }

  lemma CharsOccur(u: seq<int>, c: nat, piece: seq<int>)
    requires AllUnits(SingleByte, u) && AllUnits(SingleByte, piece) && Occurs(u, c, piece)
    ensures PreFilter.TextAt(Chars(u), Chars(piece), c)
  {
    forall k | 0 <= k < |piece| ensures Chars(u)[c..c + |piece|][k] == Chars(piece)[k] {
      OccursAt(u, c, piece, k);
    }
  }

  /**
    What the filter answers for a text with this element in it: yes exactly
    when the element spells the name plainly or the pattern stands elsewhere.
   */
  lemma AnswerForElement(u: seq<int>, q: nat, n: Element, name: string)
    requires AllUnits(SingleByte, u) && GoodElement(n) && n.name == "SHORT-NAME" && Occurs(u, q, PrintElement(n))
    requires name != "" && Trimmed(name) && '<' !in name && PreFilter.HidesNoOpener(name)
      && !PreFilter.HasUtf16Mark(Chars(u))
    ensures PreFilter.RawDefines(Chars(u), name) <==>
      SpelledPlainly(n, name) || exists p: nat :: p != q + 1 && SeenAt(Chars(u), name, p)
  {
    var bytes := Chars(u);
    hide GoodElement, PrintElement, SpelledPlainly, Occurs, PreFilter.RawDefines, PreFilter.HidesNoOpener, Trimmed,
      PreFilter.DefinesAt;
    SeenIffPlain(u, q, n, name);
    PreFilter.FilterIsExact(bytes, name);
    if PreFilter.Defines(bytes, name) {
      var p, i, m :| PreFilter.DefinesAt(bytes, name, p, i, m);
      assert SeenAt(bytes, name, p);
    }
  }

  // ----- one document -----

  /** Some element defines the name and spells it plainly. */
  predicate DeclaresPlainly(e: Element, x: Ref)
    decreases e, 1
  {
    NamesPlainly(e, x) || ContentDeclaresPlainly(e.content, x)
  }

  predicate NamesPlainly(e: Element, x: Ref) {
    Names(e, x) && NameElement(e.content).Some? && SpelledPlainly(NameElement(e.content).value, x.name)
  }

  predicate ContentDeclaresPlainly(items: seq<Item>, x: Ref)
    decreases items, 0
  {
    items != [] && (ItemDeclaresPlainly(items[0], x) || ContentDeclaresPlainly(items[1..], x))
  }

  predicate ItemDeclaresPlainly(item: Item, x: Ref)
    decreases item, 2
  {
    match item
    case Child(e) => DeclaresPlainly(e, x)
    case _ => false
  }

  lemma {:induction false} NameElementOccurs(u: seq<int>, c: nat, items: seq<Item>) returns (q: nat)
    requires Occurs(u, c, PrintContent(items)) && GoodContent(items) && NameElement(items).Some?
    ensures Occurs(u, q, PrintElement(NameElement(items).value)) && GoodElement(NameElement(items).value)
    decreases |items|
  {
    hide Occurs, PrintElement, GoodElement;
    OccursParts(u, c, PrintItem(items[0]), PrintContent(items[1..]));
    if items[0].Child? && items[0].element.name == "SHORT-NAME" {
      q := c;
    } else {
      q := NameElementOccurs(u, c + |PrintItem(items[0])|, items[1..]);
    }
  }

  /** The element that spells the name, and where. */
  lemma {:induction false} PlainNameOccurs(u: seq<int>, e: Element, p: nat, x: Ref) returns (n: Element, q: nat)
    requires GoodElement(e) && Occurs(u, p, PrintElement(e)) && DeclaresPlainly(e, x)
    ensures GoodElement(n) && n.name == "SHORT-NAME" && Occurs(u, q, PrintElement(n)) && SpelledPlainly(n, x.name)
    decreases e, 1
  {
    hide Occurs, PrintOpen, PrintClose, PrintContent, SpelledPlainly;
    OpenOccurs(u, p, e);
    var c := p + |PrintOpen(e)|;
    if NamesPlainly(e, x) {
      n := NameElement(e.content).value;
      NotEmpty(e, n);
      q := NameElementOccurs(u, c, e.content);
    } else {
      n, q := PlainNameWithin(u, e.content, c, x);
    }
  }

  lemma NotEmpty(e: Element, n: Element)
    requires GoodElement(e) && Child(n) in e.content
    ensures !e.selfClosed && GoodContent(e.content)
  {}

  lemma {:induction false} PlainNameWithin(u: seq<int>, items: seq<Item>, c: nat, x: Ref) returns (n: Element, q: nat)
    requires GoodContent(items) && (items != [] ==> Occurs(u, c, PrintContent(items)))
      && ContentDeclaresPlainly(items, x)
    ensures GoodElement(n) && n.name == "SHORT-NAME" && Occurs(u, q, PrintElement(n)) && SpelledPlainly(n, x.name)
    decreases items, 0
  {
    hide Occurs, SpelledPlainly, DeclaresPlainly, GoodElement;
    OccursParts(u, c, PrintItem(items[0]), PrintContent(items[1..]));
    if ItemDeclaresPlainly(items[0], x) {
      n, q := PlainNameInItem(u, items[0], c, x);
    } else {
      n, q := PlainNameWithin(u, items[1..], c + |PrintItem(items[0])|, x);
    }
  }

  lemma {:induction false} PlainNameInItem(u: seq<int>, item: Item, c: nat, x: Ref) returns (n: Element, q: nat)
    requires GoodItem(item) && Occurs(u, c, PrintItem(item)) && ItemDeclaresPlainly(item, x)
    ensures GoodElement(n) && n.name == "SHORT-NAME" && Occurs(u, q, PrintElement(n)) && SpelledPlainly(n, x.name)
    decreases item, 2
  {
    n, q := PlainNameOccurs(u, item.element, c, x);
  }

  /** Plainly spelled names are trimmed and hold no bracket. */
  lemma PlainNameIsTidy(u: seq<int>, q: nat, n: Element, name: string)
    requires GoodElement(n) && n.name == "SHORT-NAME" && Occurs(u, q, PrintElement(n)) && SpelledPlainly(n, name)
    ensures Trimmed(name) && '<' !in name
  {
    hide GoodElement, PrintElement, Occurs, LeadingText;
    BareLayout(u, q, n);
    var text := Chars(LeadingText(n.content));
    NoBracket(LeadingText(n.content));
    TrimStartSplits(text);
    TrimEndSplits(TrimStart(text));
  }

  /** A one-byte document that spells a definition plainly passes the filter for it. */
  lemma PlainDefinitionIsSeen(d: Document, x: Ref)
    requires GoodDocument(d) && AllUnits(SingleByte, PrintDocument(d))
    requires x.name != "" && PreFilter.HidesNoOpener(x.name) && DeclaresPlainly(d.root, x)
    ensures PreFilter.RawDefines(AsText(Encode(SingleByte, PrintDocument(d))), x.name)
  {
    var u := PrintDocument(d);
    EncodedText(u);
    hide Occurs, PrintContent, PrintElement, GoodElement, DeclaresPlainly, SpelledPlainly, PreFilter.HidesNoOpener;
    OccursWhole(u);
    OccursThree(u, 0, PrintContent(d.prolog), PrintElement(d.root), PrintContent(d.epilog));
    var n, q := PlainNameOccurs(u, d.root, |PrintContent(d.prolog)|, x);
    hide PrintDocument, GoodDocument, Encode, AsText;
    PlainNameIsTidy(u, q, n, x.name);
    SeenIffPlain(u, q, n, x.name);
    SeenIsFound(Chars(u), x.name, q + 1);
  }

  lemma SeenIsFound(bytes: string, name: string, p: nat)
    requires SeenAt(bytes, name, p) && name != "" && Trimmed(name) && PreFilter.HidesNoOpener(name)
    ensures PreFilter.RawDefines(bytes, name)
  {
    hide PreFilter.DefinesAt, PreFilter.Search;
    var i: nat, m: nat :| PreFilter.DefinesAt(bytes, name, p, i, m);
    PreFilter.SearchFinds(bytes, name, 0, p, i, m);
  }

  // ----- what a failed discovery means -----

  /** The path holds the printed document and parses as it reads. */
  predicate Holds(disk: Disk, reader: FloatReader, enc: Encoding, path: string, d: Document) {
    && AllUnits(enc, PrintDocument(d))
    && disk.bytes(path) == AsText(Encode(enc, PrintDocument(d)))
    && disk.parse(path) == Parse(reader, enc, d)
  }

  /** In one byte a unit the definition is spelled plainly; in two the file starts with the byte order mark. */
  predicate Visible(enc: Encoding, d: Document, x: Ref) {
    if enc.SingleByte? then DeclaresPlainly(d.root, x) && PreFilter.HidesNoOpener(x.name)
    else At(PrintDocument(d), 0) == 0xFEFF
  }

  lemma MarkedFilePasses(enc: Encoding, u: seq<int>, name: string)
    requires !enc.SingleByte? && AllUnits(enc, u) && At(u, 0) == 0xFEFF
    ensures PreFilter.RawDefines(AsText(Encode(enc, u)), name)
  {
    var bytes := Encode(enc, u);
    assert bytes[0] == EncodedByte(enc, u, 0) && bytes[1] == EncodedByte(enc, u, 1);
    hide PreFilter.Search;
  }

  lemma VisibleIsSeen(enc: Encoding, d: Document, x: Ref)
    requires GoodDocument(d) && AllUnits(enc, PrintDocument(d)) && x.name != "" && Visible(enc, d, x)
    ensures PreFilter.RawDefines(AsText(Encode(enc, PrintDocument(d))), x.name)
  {
    hide PreFilter.RawDefines, GoodDocument, DeclaresPlainly, PrintDocument, Encode, PreFilter.HidesNoOpener;
    if enc.SingleByte? {
      PlainDefinitionIsSeen(d, x);
    } else {
      MarkedFilePasses(enc, PrintDocument(d), x.name);
    }
  }

  /**
    A failure within the limit is final: a candidate left out defines a missing
    name exactly when it hides the definition from the text filter.
   */
  lemma FailureIsFinal(disk: Disk, reader: FloatReader, entries: seq<string>, candidates: seq<string>, path: string,
                       enc: Encoding, d: Document)
    requires |Unparsed(EntriesState(disk, entries), candidates)| <= MAX_LAZY_ITERATIONS
    requires Discover(disk, entries, candidates, MAX_LAZY_ITERATIONS).Err? && FirstFailure(disk, entries) == None
    requires GoodDocument(d) && Holds(disk, reader, enc, path, d)
    requires path in candidates
    requires path !in Rounds(disk, EntriesState(disk, entries), candidates, MAX_LAZY_ITERATIONS).parsed
    ensures var wanted := Wanted(Rounds(disk, EntriesState(disk, entries), candidates, MAX_LAZY_ITERATIONS).files);
      && disk.parse(path).Some?
      && (forall x <- wanted :: Declares(d.root, x) ==> !Visible(enc, d, x))
      && (DefinesWanted(disk.parse(path).value, wanted) <==> exists x <- wanted :: Declares(d.root, x))
  {
    hide *;
    var files := Rounds(disk, EntriesState(disk, entries), candidates, MAX_LAZY_ITERATIONS).files;
    NothingLeftToPull(disk, entries, candidates, path);
    HeldParses(disk, reader, enc, path, d, Wanted(files));
    forall x | x in Wanted(files) && Declares(d.root, x) ensures !Visible(enc, d, x) {
      WantedIsNamed(files, x);
      if Visible(enc, d, x) {
        VisibleIsPulled(disk, reader, enc, path, d, Wanted(files), x);
      }
    }
  }

  /** What the held document defines. */
  lemma HeldParses(disk: Disk, reader: FloatReader, enc: Encoding, path: string, d: Document, wanted: set<Ref>)
    requires GoodDocument(d) && Holds(disk, reader, enc, path, d)
    ensures disk.parse(path).Some?
    ensures DefinesWanted(disk.parse(path).value, wanted) <==> exists x <- wanted :: Declares(d.root, x)
  {
    hide Declares, GoodDocument, FileDefs, PrintDocument, Encode, Parse;
    ParsedDefinitions(reader, enc, d, Ref(PduKind, ""));
    forall x ensures x in FileDefs(disk.parse(path).value) <==> Declares(d.root, x) {
      ParsedDefinitions(reader, enc, d, x);
    }
    if x :| x in wanted && Declares(d.root, x) {
      assert x in FileDefs(disk.parse(path).value);
    }
  }

  lemma VisibleIsPulled(disk: Disk, reader: FloatReader, enc: Encoding, path: string, d: Document, wanted: set<Ref>,
                        x: Ref)
    requires GoodDocument(d) && Holds(disk, reader, enc, path, d)
    requires x in wanted && x.name != "" && Declares(d.root, x) && Visible(enc, d, x)
    ensures Pulls(disk, wanted, path)
  {
    hide Declares, Visible, GoodDocument, DefinesWanted, PreFilter.RawDefines, PrintDocument, Encode, Parse;
    HeldParses(disk, reader, enc, path, d, wanted);
    VisibleIsSeen(enc, d, x);
  }

  lemma WantedIsNamed(files: seq<Model.ParsedFile>, x: Ref)
    requires x in Wanted(files)
    ensures x.name != ""
  {
    hide AllRefs, Known;
    UnresolvedMembers(AllRefs(files), Known(files), x);
  }
}
