/**
  XML text as the loader meets it: a printer for elements with quoted
  attributes, character data, comments, processing instructions, CDATA
  sections, declarations and self-closed tags (XML 1.0 sections 2.4 to 2.8
  and 3.1), in code units.
 */
module Markup {
  import opened Wrappers
  import opened RawBytes
  import opened Scanner
  import opened Loader

  /** S Name S? '=' S? quote value quote. */
  datatype Attribute = Attribute(space: seq<int>, name: seq<int>, preEq: seq<int>, postEq: seq<int>, quote: int,
                                 value: seq<int>)

  /** Pieces of a DOCTYPE: a plain unit, a quoted literal, a bracketed subset, and in the subset comments and PIs. */
  datatype DeclPart =
    | Plain(unit: int)
    | Quoted(quote: int, literal: seq<int>)
    | Subset(parts: seq<DeclPart>)
    | Note(body: seq<int>)
    | Process(body: seq<int>)

  /** One piece of content; chunks are the text runs the parser reports for it. */
  datatype Item =
    | CharData(units: seq<int>, chunks: seq<string>)
    | Comment(body: seq<int>)
    | Instruction(body: seq<int>)
    | CData(body: seq<int>, chunks: seq<string>)
    | Doctype(parts: seq<DeclPart>)
    | Child(element: Element)

  datatype Element = Element(
    name: string,
    decoded: seq<(string, string)>,  // attributes as the parser reports them
    attributes: seq<Attribute>,
    tagSpace: seq<int>,
    selfClosed: bool,
    content: seq<Item>,
    endSpace: seq<int>)

  datatype Document = Document(prolog: seq<Item>, root: Element, epilog: seq<Item>)

  // ----- printing -----

  function Code(s: string): (u: seq<int>)
    ensures |u| == |s| && forall k :: 0 <= k < |s| ==> u[k] == s[k] as int
  {
    seq(|s|, k requires 0 <= k < |s| => s[k] as int)
  }

  function PrintAttribute(a: Attribute): seq<int> {
    AttributeLead(a) + [a.quote] + a.value + [a.quote]
  }

  /** Everything before the opening quote. */
  function AttributeLead(a: Attribute): seq<int> {
    a.space + a.name + a.preEq + ['=' as int] + a.postEq
  }

  function PrintAttributes(attributes: seq<Attribute>): seq<int> {
    if attributes == [] then [] else PrintAttribute(attributes[0]) + PrintAttributes(attributes[1..])
  }

  function PrintComment(body: seq<int>): seq<int> {
    Code("<!--") + body + Code("-->")
  }

  function PrintInstruction(body: seq<int>): seq<int> {
    Code("<?") + body + Code("?>")
  }

  /** What stands between the opening bracket and the closing '>' of a DOCTYPE. */
  function DoctypeText(parts: seq<DeclPart>): seq<int> {
    Code("DOCTYPE") + PrintParts(parts)
  }

  function PrintPart(part: DeclPart): seq<int>
    decreases part, 1
  {
    match part
    case Plain(c) => [c]
    case Quoted(q, literal) => [q] + literal + [q]
    case Subset(parts) => ['[' as int] + PrintParts(parts) + [']' as int]
    case Note(body) => PrintComment(body)
    case Process(body) => PrintInstruction(body)
  }

  function PrintParts(parts: seq<DeclPart>): seq<int>
    decreases parts, 0
  {
    if parts == [] then [] else PrintPart(parts[0]) + PrintParts(parts[1..])
  }

  function TagClose(selfClosed: bool): seq<int> {
    if selfClosed then Code("/>") else Code(">")
  }

  function PrintOpen(e: Element): seq<int> {
    Code("<") + Code(e.name) + PrintAttributes(e.attributes) + e.tagSpace + TagClose(e.selfClosed)
  }

  function PrintClose(e: Element): seq<int> {
    Code("</") + Code(e.name) + e.endSpace + Code(">")
  }

  function PrintElement(e: Element): seq<int>
    decreases e, 1
  {
    if e.selfClosed then PrintOpen(e) else PrintOpen(e) + PrintContent(e.content) + PrintClose(e)
  }

  function PrintItem(item: Item): seq<int>
    decreases item, 1
  {
    match item
    case CharData(units, _) => units
    case Comment(body) => PrintComment(body)
    case Instruction(body) => PrintInstruction(body)
    case CData(body, _) => Code("<![CDATA[") + body + Code("]]>")
    case Doctype(parts) => Code("<!") + DoctypeText(parts) + Code(">")
    case Child(e) => PrintElement(e)
  }

  function PrintContent(items: seq<Item>): seq<int>
    decreases items, 0
  {
    if items == [] then [] else PrintItem(items[0]) + PrintContent(items[1..])
  }

  function PrintDocument(d: Document): seq<int> {
    PrintContent(d.prolog) + PrintElement(d.root) + PrintContent(d.epilog)
  }

  // ----- what may be printed -----

  predicate AllSpace(u: seq<int>) {
    forall k :: 0 <= k < |u| ==> IsSpace(u[k])
  }

  /** Units that mean nothing to the end-of-tag scan. */
  predicate IsPlainInTag(c: int) {
    !IsQuote(c) && c != '>' as int && c != '/' as int
  }

  predicate IsNameUnit(c: int) {
    IsPlainInTag(c) && !IsSpace(c) && c != '<' as int && c != '!' as int && c != '?' as int && c != '=' as int
  }

  predicate GoodName(name: string) {
    && name != ""
    && IsAsciiText(name)
    && forall k :: 0 <= k < |name| ==> IsNameUnit(name[k] as int)
  }

  predicate GoodAttribute(a: Attribute) {
    && a.space != [] && AllSpace(a.space)
    && (forall k :: 0 <= k < |a.name| ==> IsNameUnit(a.name[k]))
    && AllSpace(a.preEq) && AllSpace(a.postEq)
    && IsQuote(a.quote)
    && a.quote !in a.value
  }

  /**
    Well-formed pieces: literals end at their own quote, comments and PIs stand
    in the subset and end at their terminator, and '>' is plain only in there.
   */
  predicate LegalPart(part: DeclPart, nested: bool)
    decreases part, 1
  {
    match part
    case Plain(c) => !IsQuote(c) && c != '[' as int && c != ']' as int && (c == '>' as int ==> nested)
    case Quoted(q, literal) => IsQuote(q) && q !in literal
    case Subset(parts) => LegalParts(parts, true)
    case Note(body) => nested && Avoids(body, "-->")
    case Process(body) => nested && Avoids(body, "?>")
  }

  predicate LegalParts(parts: seq<DeclPart>, nested: bool)
    decreases parts, 0
  {
    parts != [] ==> LegalPart(parts[0], nested) && LegalParts(parts[1..], nested)
  }

  /** A reader of declaration text that knows no comments: inside which quote, how deep in brackets. */
  datatype Lexing = Lexing(quote: Option<int>, depth: int)

  const OUTSIDE := Lexing(None, 0)

  function Reads(at: Lexing, c: int): Lexing {
    match at.quote
    case Some(q) => if c == q then at.(quote := None) else at
    case None =>
      if IsQuote(c) then at.(quote := Some(c))
      else if c == '[' as int then at.(depth := at.depth + 1)
      else if c == ']' as int then at.(depth := at.depth - 1)
      else at
  }

  function Lex(text: seq<int>, at: Lexing): Lexing {
    if text == [] then at else Lex(text[1..], Reads(at, text[0]))
  }

  /** Some '>' of the text stands outside all quotes and brackets. */
  predicate EndsWithin(text: seq<int>, at: Lexing) {
    text != [] && ((at == OUTSIDE && text[0] == '>' as int) || EndsWithin(text[1..], Reads(at, text[0])))
  }

  /** Every quote closes, the brackets balance, and no '>' ends the declaration. */
  predicate Closes(text: seq<int>, at: Lexing) {
    !EndsWithin(text, at) && Lex(text, at) == at
  }

  /** No occurrence of the literal starts inside body, even one running over its end. */
  predicate Avoids(body: seq<int>, literal: string) {
    forall k :: 0 <= k < |body| ==> !MatchLit(body + Code(literal), k, literal)
  }

  /** A comment body that starts with '>' or '->' closes the comment its opener is still part of. */
  predicate ClosesOpener(body: seq<int>) {
    At(body, 0) == '>' as int || (At(body, 0) == '-' as int && At(body, 1) == '>' as int)
  }

  /** The tags of an element, whatever stands between them. */
  predicate GoodTag(e: Element) {
    && GoodName(e.name)
    && (forall a <- e.attributes :: GoodAttribute(a))
    && AllSpace(e.tagSpace) && AllSpace(e.endSpace)
    && (e.selfClosed ==> e.content == [])
  }

  predicate GoodElement(e: Element)
    decreases e, 1
  {
    GoodTag(e) && GoodContent(e.content)
  }

  predicate GoodItem(item: Item)
    decreases item, 1
  {
    match item
    case CharData(units, _) => '<' as int !in units
    case Comment(body) => Avoids(body, "-->") && (ClosesOpener(body) ==> '<' as int !in body)
    case Instruction(body) => Avoids(body, "?>") && At(body, 0) != '>' as int
    case CData(body, _) => Avoids(body, "]]>")
    case Doctype(parts) => LegalParts(parts, false) && Closes(DoctypeText(parts), OUTSIDE)
    case Child(e) => GoodElement(e)
  }

  predicate GoodContent(items: seq<Item>)
    decreases items, 0
  {
    items != [] ==> GoodItem(items[0]) && GoodContent(items[1..])
  }

  /** Outside the root there are no elements. */
  predicate IsMisc(items: seq<Item>) {
    forall item <- items :: !item.Child?
  }

  predicate GoodDocument(d: Document) {
    && GoodContent(d.prolog) && IsMisc(d.prolog)
    && GoodElement(d.root)
    && IsMisc(d.epilog)
  }

  // ----- content without tags, as the scanner reads it -----

  /** The literal ends the text and stands nowhere before. */
  predicate EndsAtFirst(text: seq<int>, literal: string) {
    var k := |text| - |literal|;
    k >= 0 && MatchLit(text, k, literal) && forall j :: 0 <= j < k ==> !MatchLit(text, j, literal)
  }

  /**
    One comment, PI, CDATA section or declaration. A terminator counts from the
    opening bracket on; a declaration ends outside quotes and brackets.
   */
  predicate IsSpecial(text: seq<int>) {
    && |text| >= 2 && text[0] == '<' as int
    && if text[1] == '?' as int then EndsAtFirst(text, "?>")
       else if text[1] != '!' as int then false
       else if MatchLit(text, 0, "<!--") then EndsAtFirst(text, "-->")
       else if MatchLit(text, 0, "<![CDATA[") then EndsAtFirst(text, "]]>")
       else |text| >= 3 && text[|text| - 1] == '>' as int && Closes(text[2..|text| - 1], OUTSIDE)
  }

  /** The text is made of such pieces and of units that open no markup, with nothing left over. */
  predicate Quiet(text: seq<int>)
    decreases |text|
  {
    || text == []
    || (text[0] != '<' as int && Quiet(text[1..]))
    || exists k | 1 <= k <= |text| :: IsSpecial(text[..k]) && Quiet(text[k..])
  }

  // ----- the parser's events for a printed document -----

  function TextEvents(chunks: seq<string>): seq<SaxEvent> {
    if chunks == [] then [] else [Characters(chunks[0])] + TextEvents(chunks[1..])
  }

  function Events(e: Element): seq<SaxEvent>
    decreases e, 1
  {
    [StartElement(e.name, e.decoded)] + ContentEvents(e.content) + [EndElement]
  }

  function ItemEvents(item: Item): seq<SaxEvent>
    decreases item, 1
  {
    match item
    case CharData(_, chunks) => TextEvents(chunks)
    case CData(_, chunks) => TextEvents(chunks)
    case Child(e) => Events(e)
    case _ => []
  }

  function ContentEvents(items: seq<Item>): seq<SaxEvent>
    decreases items, 0
  {
    if items == [] then [] else ItemEvents(items[0]) + ContentEvents(items[1..])
  }

  function DocumentEvents(d: Document): seq<SaxEvent> {
    ContentEvents(d.prolog) + Events(d.root) + ContentEvents(d.epilog)
  }
}
