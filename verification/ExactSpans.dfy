/**
  For every printed document and all three encoding classes, the loader never
  throws and records for each element the bytes that element was printed as.
 */
module ExactSpans {
  import opened Wrappers
  import opened RawBytes
  import opened Scanner
  import opened RawTree
  import opened Loader
  import opened Markup
  import opened MarkupScan
  import opened QuietText

  // ----- the tree the loader should build -----

  function JoinChunks(chunks: seq<string>): string {
    if chunks == [] then "" else chunks[0] + JoinChunks(chunks[1..])
  }

  function ItemText(item: Item): string {
    match item
    case CharData(_, chunks) => JoinChunks(chunks)
    case CData(_, chunks) => JoinChunks(chunks)
    case _ => ""
  }

  /** Character data reported directly inside an element. */
  function ContentText(items: seq<Item>): string {
    if items == [] then "" else ItemText(items[0]) + ContentText(items[1..])
  }

  /** The node of an element printed at unit p, its span scaled to bytes. */
  function NodeAt(bytes: seq<byte>, enc: Encoding, e: Element, p: nat): RawNode
    decreases e, 1
  {
    RawNode(e.name, e.decoded, ContentText(e.content),
            RawSpan(Offset(enc, p), Offset(enc, p + |PrintElement(e)|), LineOf(bytes, enc, Offset(enc, p))),
            NodesAt(bytes, enc, e.content, p + |PrintOpen(e)|))
  }

  function NodesAt(bytes: seq<byte>, enc: Encoding, items: seq<Item>, p: nat): seq<RawNode>
    decreases items, 0
  {
    if items == [] then []
    else
      ItemNodes(bytes, enc, items[0], p) + NodesAt(bytes, enc, items[1..], p + |PrintItem(items[0])|)
  }

  function ItemNodes(bytes: seq<byte>, enc: Encoding, item: Item, p: nat): seq<RawNode>
    decreases item, 0
  {
    match item
    case Child(e) => [NodeAt(bytes, enc, e, p)]
    case _ => []
  }

  // ----- running the events -----

  /** The innermost open node takes in text and finished children. */
  function Absorb(s: State, text: string, children: seq<RawNode>): State {
    if s.stack == [] then s
    else
      var top := s.stack[|s.stack| - 1];
      s.(stack := s.stack[..|s.stack| - 1] + [top.(text := top.text + text, children := top.children + children)])
  }

  lemma AbsorbNothing(s: State)
    ensures Absorb(s, "", []) == s
  {
    if s.stack != [] {
      var top := s.stack[|s.stack| - 1];
      assert top.text + "" == top.text && top.children + [] == top.children;
      assert s.stack == s.stack[..|s.stack| - 1] + [top];
    }
  }

  lemma AbsorbTwice(s: State, t1: string, c1: seq<RawNode>, t2: string, c2: seq<RawNode>)
    ensures Absorb(Absorb(s, t1, c1), t2, c2) == Absorb(s, t1 + t2, c1 + c2)
  {
    if s.stack != [] {
      var top := s.stack[|s.stack| - 1];
      assert top.text + t1 + t2 == top.text + (t1 + t2);
      assert top.children + c1 + c2 == top.children + (c1 + c2);
    }
  }

  lemma {:induction false} RunText(bytes: seq<byte>, enc: Encoding, s: State, chunks: seq<string>)
    ensures Run(bytes, enc, s, TextEvents(chunks)) == Ok(Absorb(s, JoinChunks(chunks), []))
    decreases |chunks|
  {
    AbsorbNothing(s);
    if chunks != [] {
      hide Run, Absorb, Start, End;
      var first := Characters(chunks[0]);
      var next := Text(s, chunks[0]);
      RunConcat(bytes, enc, s, [first], TextEvents(chunks[1..]));
      RunOne(bytes, enc, s, first);
      TextAbsorbs(s, chunks[0]);
      RunText(bytes, enc, next, chunks[1..]);
      var none: seq<RawNode> := [];
      AbsorbTwice(s, chunks[0], none, JoinChunks(chunks[1..]), none);
      assert none + none == none;
    } else {
      assert TextEvents(chunks) == [];
    }
  }

  lemma TextAbsorbs(s: State, chars: string)
    ensures Text(s, chars) == Absorb(s, chars, [])
  {
    if s.stack != [] && chars != "" {
      var top := s.stack[|s.stack| - 1];
      assert top.children + [] == top.children;
    } else {
      AbsorbNothing(s);
    }
  }

  // ----- the scans behind an element's events -----

  /** The node of an element whose tags were found from start to end, around these children. */
  function Closed(bytes: seq<byte>, enc: Encoding, e: Element, start: nat, end: nat, children: seq<RawNode>): RawNode {
    RawNode(e.name, e.decoded, ContentText(e.content), RawSpan(start, end, LineOf(bytes, enc, start)), children)
  }

  /** From a cursor on, wherever it stands: the node an element's events build and the cursor behind it. */
  function ScanElement(bytes: seq<byte>, enc: Encoding, cursor: nat, e: Element): Result<(RawNode, nat), ScanError>
    decreases e, 1
  {
    match ScaledBounds(enc, StartTagAt(Units(bytes, enc), Index(enc, cursor), e.name))
    case Err(x) => Err(x)
    case Ok(b) =>
      match ScanContent(bytes, enc, b.tagEndPos, e.content)
      case Err(x) => Err(x)
      case Ok((nodes, after)) =>
        if b.selfClosed then Ok((Closed(bytes, enc, e, b.openPos, b.tagEndPos, nodes), after))
        else
          match Scaled(enc, EndTagAt(Units(bytes, enc), Index(enc, after), e.name))
          case Err(x) => Err(x)
          case Ok(end) => Ok((Closed(bytes, enc, e, b.openPos, end, nodes), end))
  }

  function ScanContent(bytes: seq<byte>, enc: Encoding, cursor: nat, items: seq<Item>): Result<(seq<RawNode>, nat),
      ScanError>
    decreases items, 0
  {
    if items == [] then Ok(([], cursor))
    else
      match ScanItem(bytes, enc, cursor, items[0])
      case Err(x) => Err(x)
      case Ok((nodes, mid)) =>
        match ScanContent(bytes, enc, mid, items[1..])
        case Err(x) => Err(x)
        case Ok((more, after)) => Ok((nodes + more, after))
  }

  /** Only elements move the cursor. */
  function ScanItem(bytes: seq<byte>, enc: Encoding, cursor: nat, item: Item): Result<(seq<RawNode>, nat), ScanError>
    decreases item, 0
  {
    match item
    case Child(e) =>
      (match ScanElement(bytes, enc, cursor, e)
       case Err(x) => Err(x)
       case Ok((node, after)) => Ok(([node], after)))
    case _ => Ok(([], cursor))
  }

  function Handed(s: State, scanned: Result<(RawNode, nat), ScanError>): Result<State, ScanError> {
    match scanned
    case Err(x) => Err(x)
    case Ok((node, after)) => Ok(Attach(s.(cursor := after, rootSeen := true), node))
  }

  function TakenIn(s: State, text: string, scanned: Result<(seq<RawNode>, nat), ScanError>): Result<State, ScanError> {
    match scanned
    case Err(x) => Err(x)
    case Ok((nodes, after)) => Ok(Absorb(s, text, nodes).(cursor := after))
  }

  /** The callbacks of an element do these scans and hand the node over. */
  lemma {:induction false} RunIsScan(bytes: seq<byte>, enc: Encoding, s: State, e: Element)
    requires s.stack == [] ==> !s.rootSeen
    ensures Run(bytes, enc, s, Events(e)) == Handed(s, ScanElement(bytes, enc, s.cursor, e))
    decreases e, 1
  {
    hide Run, Step, Units, LineOf, Absorb, StartTagAt, EndTagAt, ScanContent, ContentText;
    var start, content := StartElement(e.name, e.decoded), ContentEvents(e.content);
    assert Events(e) == [start] + (content + [EndElement]);
    RunConcat(bytes, enc, s, [start], content + [EndElement]);
    RunOne(bytes, enc, s, start);
    StartStep(bytes, enc, s, e);
    if StartTagAt(Units(bytes, enc), Index(enc, s.cursor), e.name).Ok? {
      var bounds := ScaledBounds(enc, StartTagAt(Units(bytes, enc), Index(enc, s.cursor), e.name)).value;
      var entered := Entered(bytes, enc, s, e, bounds);
      RunConcat(bytes, enc, entered, content, [EndElement]);
      RunContentIsScan(bytes, enc, entered, e.content);
      if ScanContent(bytes, enc, bounds.tagEndPos, e.content).Ok? {
        var (nodes, after) := ScanContent(bytes, enc, bounds.tagEndPos, e.content).value;
        var inside := Absorb(entered, ContentText(e.content), nodes).(cursor := after);
        RunOne(bytes, enc, inside, EndElement);
        EndStep(bytes, enc, s, e, bounds, nodes, after);
      }
    }
  }

  /** The state with the element open and nothing inside it seen yet. */
  function Entered(bytes: seq<byte>, enc: Encoding, s: State, e: Element, bounds: TagBounds): State {
    State(bounds.tagEndPos, s.stack + [NewNode(bytes, enc, StartElement(e.name, e.decoded), bounds)], s.root, true)
  }

  lemma StartStep(bytes: seq<byte>, enc: Encoding, s: State, e: Element)
    requires s.stack == [] ==> !s.rootSeen
    ensures Step(bytes, enc, s, StartElement(e.name, e.decoded)) ==
      match ScaledBounds(enc, StartTagAt(Units(bytes, enc), Index(enc, s.cursor), e.name))
      case Err(x) => Err(x)
      case Ok(b) => Ok(Entered(bytes, enc, s, e, b))
  {
    hide StartTagAt, Units, LineOf;
  }

  lemma EndStep(bytes: seq<byte>, enc: Encoding, s: State, e: Element, bounds: TagBounds, nodes: seq<RawNode>,
                after: nat)
    requires bounds.openPos < bounds.tagEndPos
    ensures var inside := Absorb(Entered(bytes, enc, s, e, bounds), ContentText(e.content), nodes).(cursor := after);
      Step(bytes, enc, inside, EndElement) == Handed(s,
        if bounds.selfClosed then Ok((Closed(bytes, enc, e, bounds.openPos, bounds.tagEndPos, nodes), after))
        else
          match Scaled(enc, EndTagAt(Units(bytes, enc), Index(enc, after), e.name))
          case Err(x) => Err(x)
          case Ok(end) => Ok((Closed(bytes, enc, e, bounds.openPos, end, nodes), end)))
  {
    hide EndTagAt, Units, LineOf, ContentText;
    var entered := Entered(bytes, enc, s, e, bounds);
    var inside := Absorb(entered, ContentText(e.content), nodes).(cursor := after);
    assert entered.stack[..|entered.stack| - 1] == s.stack;
    assert inside.stack[..|inside.stack| - 1] == s.stack;
    assert "" + ContentText(e.content) == ContentText(e.content);
    assert [] + nodes == nodes;
  }

  lemma RunNothing(bytes: seq<byte>, enc: Encoding, s: State)
    ensures Run(bytes, enc, s, []) == Ok(s)
  {}

  lemma {:induction false} RunContentIsScan(bytes: seq<byte>, enc: Encoding, s: State, items: seq<Item>)
    requires s.stack != [] && s.rootSeen
    ensures Run(bytes, enc, s, ContentEvents(items)) ==
      TakenIn(s, ContentText(items), ScanContent(bytes, enc, s.cursor, items))
    decreases items, 0
  {
    hide Run, Absorb, ItemText, ItemEvents, ScanItem;
    if items == [] {
      RunNothing(bytes, enc, s);
      AbsorbNothing(s);
    } else {
      var item, rest := items[0], items[1..];
      RunConcat(bytes, enc, s, ItemEvents(item), ContentEvents(rest));
      RunItemIsScan(bytes, enc, s, item);
      if ScanItem(bytes, enc, s.cursor, item).Ok? {
        var (nodes, mid) := ScanItem(bytes, enc, s.cursor, item).value;
        var next := Absorb(s, ItemText(item), nodes).(cursor := mid);
        AbsorbKeepsDepth(s, ItemText(item), nodes);
        RunContentIsScan(bytes, enc, next, rest);
        if ScanContent(bytes, enc, mid, rest).Ok? {
          var (more, after) := ScanContent(bytes, enc, mid, rest).value;
          AbsorbStep(s, mid, ItemText(item), nodes, ContentText(rest), more, after);
        }
      }
    }
  }

  lemma AbsorbKeepsDepth(s: State, text: string, children: seq<RawNode>)
    ensures |Absorb(s, text, children).stack| == |s.stack|
    ensures Absorb(s, text, children).rootSeen == s.rootSeen
  {}

  lemma AbsorbStep(s: State, mid: nat, t1: string, c1: seq<RawNode>, t2: string, c2: seq<RawNode>, after: nat)
    ensures Absorb(Absorb(s, t1, c1).(cursor := mid), t2, c2).(cursor := after) ==
      Absorb(s, t1 + t2, c1 + c2).(cursor := after)
  {
    AbsorbTwice(s, t1, c1, t2, c2);
  }

  lemma {:induction false} RunItemIsScan(bytes: seq<byte>, enc: Encoding, s: State, item: Item)
    requires s.stack != [] && s.rootSeen
    ensures Run(bytes, enc, s, ItemEvents(item)) == TakenIn(s, ItemText(item), ScanItem(bytes, enc, s.cursor, item))
    decreases item, 1
  {
    hide Run, Absorb, ScanElement;
    AbsorbNothing(s);
    AbsorbKeepsCursor(s, ItemText(item), []);
    match item
    case Child(e) =>
      RunIsScan(bytes, enc, s, e);
      if ScanElement(bytes, enc, s.cursor, e).Ok? {
        var (node, after) := ScanElement(bytes, enc, s.cursor, e).value;
        AttachAbsorbs(s, after, node);
      }
    case CharData(_, chunks) => RunText(bytes, enc, s, chunks);
    case CData(_, chunks) => RunText(bytes, enc, s, chunks);
    case _ => RunNothing(bytes, enc, s);
  }

  /** Inside an open node, attaching a child is absorbing it. */
  lemma AttachAbsorbs(s: State, after: nat, node: RawNode)
    requires s.stack != [] && s.rootSeen
    ensures Attach(s.(cursor := after, rootSeen := true), node) == Absorb(s, "", [node]).(cursor := after)
  {
    var top := s.stack[|s.stack| - 1];
    assert top.text + "" == top.text;
  }

  lemma AbsorbKeepsCursor(s: State, text: string, children: seq<RawNode>)
    ensures Absorb(s, text, children).cursor == s.cursor
  {}

  lemma ContentIsGood(e: Element)
    requires GoodElement(e)
    ensures GoodContent(e.content)
  {}

  lemma OpenOccurs(u: seq<int>, p: nat, e: Element)
    requires Occurs(u, p, PrintElement(e))
    ensures Occurs(u, p, PrintOpen(e))
    ensures !e.selfClosed ==>
      && Occurs(u, p + |PrintOpen(e)|, PrintContent(e.content))
      && Occurs(u, p + |PrintOpen(e)| + |PrintContent(e.content)|, PrintClose(e))
  {
    hide Occurs, PrintOpen, PrintClose;
    if !e.selfClosed {
      OccursThree(u, p, PrintOpen(e), PrintContent(e.content), PrintClose(e));
    }
  }

  // ----- the text between tags -----

  /** Every gap up to the last child is quiet; pending is what stands before the first item since the last tag. */
  predicate ChildGapsQuiet(items: seq<Item>, pending: seq<int>)
    decreases items, 0
  {
    if items == [] then true
    else if items[0].Child? then Quiet(pending) && ItemQuiet(items[0]) && ChildGapsQuiet(items[1..], [])
    else ChildGapsQuiet(items[1..], pending + PrintItem(items[0]))
  }

  predicate ItemQuiet(item: Item)
    decreases item, 0
  {
    match item
    case Child(e) => GapsQuiet(e)
    case _ => Quiet(PrintItem(item))
  }

  /** What stands between the last child and the end tag. */
  function LastGap(items: seq<Item>, pending: seq<int>): seq<int> {
    if items == [] then pending
    else if items[0].Child? then LastGap(items[1..], [])
    else LastGap(items[1..], pending + PrintItem(items[0]))
  }

  /** Between any two tags of the element and its descendants the text is quiet. */
  predicate GapsQuiet(e: Element)
    decreases e, 1
  {
    e.selfClosed || (ChildGapsQuiet(e.content, []) && Quiet(LastGap(e.content, [])))
  }

  /** The tags are well-formed, whatever stands between them. */
  predicate WellTagged(e: Element)
    decreases e, 1
  {
    GoodTag(e) && ContentWellTagged(e.content)
  }

  predicate ContentWellTagged(items: seq<Item>)
    decreases items, 0
  {
    items != [] ==> ItemWellTagged(items[0]) && ContentWellTagged(items[1..])
  }

  predicate ItemWellTagged(item: Item)
    decreases item, 0
  {
    match item
    case Child(e) => WellTagged(e)
    case _ => true
  }

  /** Behind the last child, or where the content began. */
  function AfterChildren(items: seq<Item>, c: nat, p: nat): nat {
    if items == [] then c
    else
      var q := p + |PrintItem(items[0])|;
      AfterChildren(items[1..], if items[0].Child? then q else c, q)
  }

  ghost predicate ElementExact(bytes: seq<byte>, enc: Encoding, e: Element, c: nat, p: nat) {
    var scanned := ScanElement(bytes, enc, Offset(enc, c), e);
    scanned.Ok? && scanned.value.0 == NodeAt(bytes, enc, e, p)
  }

  ghost predicate ContentExact(bytes: seq<byte>, enc: Encoding, items: seq<Item>, c: nat, p: nat) {
    var scanned := ScanContent(bytes, enc, Offset(enc, c), items);
    scanned.Ok? && scanned.value.0 == NodesAt(bytes, enc, items, p)
  }

  lemma OffsetsDiffer(enc: Encoding, i: nat, j: nat)
    ensures Offset(enc, i) == Offset(enc, j) <==> i == j
  {}

  /**
    An element printed at p, scanned from a cursor at c: the node is the
    expected one exactly when the text up to the element and the gaps inside
    it are quiet, and then the cursor ends behind it.
   */
  lemma {:induction false} ElementIff(bytes: seq<byte>, enc: Encoding, e: Element, c: nat, p: nat)
    requires WellTagged(e) && Occurs(Units(bytes, enc), p, PrintElement(e)) && c <= p
    ensures p <= |Units(bytes, enc)|
    ensures ElementExact(bytes, enc, e, c, p) <==> Quiet(Units(bytes, enc)[c..p]) && GapsQuiet(e)
    ensures ElementExact(bytes, enc, e, c, p) ==>
      ScanElement(bytes, enc, Offset(enc, c), e).value.1 == Offset(enc, p + |PrintElement(e)|)
    decreases e, 1
  {
    hide Occurs, PrintOpen, PrintClose, PrintContent, Units, LineOf, StartTagAt, EndTagAt, ScanContent, NodesAt, Quiet;
    hide ContentText, ContentWellTagged, NextMarkup, GoodTag, ChildGapsQuiet, AfterChildren, LastGap;
    var u := Units(bytes, enc);
    var q := p + |PrintOpen(e)|;
    OpenOccurs(u, p, e);
    OccursFits(u, p, PrintOpen(e));
    IndexOfOffset(enc, c);
    StartReached(u, c, p, e);
    if Quiet(u[c..p]) {
      if e.selfClosed {
        SelfClosedExact(bytes, enc, e, c, p);
      } else {
        var z := q + |PrintContent(e.content)|;
        assert u[q..q] == [];
        ContentIff(bytes, enc, e.content, q, q);
        if ChildGapsQuiet(e.content, []) {
          EndReached(u, AfterChildren(e.content, q, q), z, e);
          IndexOfOffset(enc, AfterChildren(e.content, q, q));
          if EndTagAt(u, AfterChildren(e.content, q, q), e.name).Ok? {
            OffsetsDiffer(enc, EndTagAt(u, AfterChildren(e.content, q, q), e.name).value, z + |PrintClose(e)|);
          }
        }
      }
    } else if StartTagAt(u, c, e.name).Ok? {
      OffsetsDiffer(enc, StartTagAt(u, c, e.name).value.openPos, p);
    }
  }

  lemma OccursFits(u: seq<int>, p: nat, piece: seq<int>)
    requires Occurs(u, p, piece)
    ensures p + |piece| <= |u|
  {}

  lemma SelfClosedExact(bytes: seq<byte>, enc: Encoding, e: Element, c: nat, p: nat)
    requires GoodTag(e) && e.selfClosed
    requires StartTagAt(Units(bytes, enc), Index(enc, Offset(enc, c)), e.name) ==
      Ok(TagBounds(p, p + |PrintOpen(e)|, true))
    ensures ElementExact(bytes, enc, e, c, p)
    ensures ScanElement(bytes, enc, Offset(enc, c), e).value.1 == Offset(enc, p + |PrintElement(e)|)
  {
    hide Units, LineOf, StartTagAt, PrintOpen, ContentText;
    assert e.content == [];
    assert ScanContent(bytes, enc, Offset(enc, p + |PrintOpen(e)|), e.content).value.0 == [];
    assert NodesAt(bytes, enc, e.content, p + |PrintOpen(e)|) == [];
  }

  /** The start tag is found where it is printed exactly when the text before it is quiet. */
  lemma StartReached(u: seq<int>, c: nat, p: nat, e: Element)
    requires GoodTag(e) && Occurs(u, p, PrintOpen(e)) && c <= p <= |u|
    ensures Quiet(u[c..p]) ==> StartTagAt(u, c, e.name) == Ok(TagBounds(p, p + |PrintOpen(e)|, e.selfClosed))
    ensures StartTagAt(u, c, e.name).Ok? && StartTagAt(u, c, e.name).value.openPos == p ==> Quiet(u[c..p])
  {
    hide Occurs, PrintOpen, NextMarkup, Quiet, TagEnd, MatchLit;
    if Quiet(u[c..p]) {
      QuietRun(u, c, p);
      StartTagFound(u, c, p, e);
    } else if NextMarkup(u, c) == Ok(p) {
      CrossedIsQuiet(u, c, p);
    }
  }

  /** The end tag likewise. */
  lemma EndReached(u: seq<int>, c: nat, z: nat, e: Element)
    requires GoodTag(e) && Occurs(u, z, PrintClose(e)) && c <= z <= |u|
    ensures EndTagAt(u, c, e.name) == Ok(z + |PrintClose(e)|) <==> Quiet(u[c..z])
  {
    hide Occurs, PrintClose, NextMarkup, Quiet;
    if Quiet(u[c..z]) {
      QuietRun(u, c, z);
      EndTagFound(u, c, z, e);
    } else if EndTagAt(u, c, e.name) == Ok(z + |PrintClose(e)|) {
      EndTagIsThere(u, c, z, e);
      CrossedIsQuiet(u, c, z);
    }
  }

  /** An end tag found to end where the printed one does is the printed one: neither holds a second bracket. */
  lemma EndTagIsThere(u: seq<int>, c: nat, z: nat, e: Element)
    requires GoodTag(e) && Occurs(u, z, PrintClose(e)) && EndTagAt(u, c, e.name) == Ok(z + |PrintClose(e)|)
    ensures NextMarkup(u, c) == Ok(z)
  {
    hide *;
    var end := z + |PrintClose(e)|;
    EndTagParts(u, c, e.name, end);
    var m := NextMarkup(u, c).value;
    assert GoodName(e.name) by { NameOfTag(e); }
    FoundTagBrackets(u, m, e.name);
    PrintedTagBrackets(u, z, e);
  }

  lemma EndTagParts(u: seq<int>, c: nat, name: string, end: nat)
    requires EndTagAt(u, c, name) == Ok(end)
    ensures NextMarkup(u, c).Ok?
    ensures var m := NextMarkup(u, c).value;
      && m < |u| && u[m] == '<' as int && At(u, m + 1) == '/' as int && MatchLit(u, m + 2, name)
      && m < SkipSpaces(u, m + 2 + |name|) == end - 1
  {
    hide MatchLit, SkipSpaces, NextMarkup;
  }

  lemma NameOfTag(e: Element)
    requires GoodTag(e)
    ensures GoodName(e.name)
  {}

  lemma FoundTagBrackets(u: seq<int>, m: nat, name: string)
    requires GoodName(name) && MatchLit(u, m + 2, name) && At(u, m + 1) == '/' as int
    ensures forall k :: m < k < SkipSpaces(u, m + 2 + |name|) && k < |u| ==> u[k] != '<' as int
  {
    SpacesOnly(u, m + 2 + |name|);
    forall k | m < k < SkipSpaces(u, m + 2 + |name|) && k < |u| ensures u[k] != '<' as int {
      if m + 2 <= k < m + 2 + |name| {
        assert At(u, m + 2 + (k - m - 2)) == name[k - m - 2] as int;
        assert IsNameUnit(name[k - m - 2] as int);
      }
    }
  }

  lemma {:induction false} SpacesOnly(u: seq<int>, i: nat)
    ensures forall k :: i <= k < SkipSpaces(u, i) && k < |u| ==> IsSpace(u[k])
    decreases |u| - i
  {
    if i < |u| && IsSpace(u[i]) {
      SpacesOnly(u, i + 1);
    }
  }

  lemma PrintedTagBrackets(u: seq<int>, z: nat, e: Element)
    requires GoodTag(e) && Occurs(u, z, PrintClose(e))
    ensures |PrintClose(e)| > 1 && z + |PrintClose(e)| <= |u| && u[z] == '<' as int
    ensures forall k :: z < k < z + |PrintClose(e)| ==> u[k] != '<' as int
  {
    LiteralUnits();
    hide Occurs, IsNameUnit, IsSpace;
    OccursFits(u, z, PrintClose(e));
    OccursAt(u, z, PrintClose(e), 0);
    forall k | z < k < z + |PrintClose(e)| ensures u[k] != '<' as int {
      OccursAt(u, z, PrintClose(e), k - z);
      CloseUnit(e, k - z);
    }
  }

  lemma CloseUnit(e: Element, k: nat)
    requires GoodTag(e) && 0 < k < |PrintClose(e)|
    ensures PrintClose(e)[0] == '<' as int && PrintClose(e)[k] != '<' as int
  {
    LiteralUnits();
    var opener := Code("</");
    assert opener == ['<' as int, '/' as int];
    if 2 <= k < 2 + |e.name| {
      assert PrintClose(e)[k] == e.name[k - 2] as int;
      assert IsNameUnit(e.name[k - 2] as int);
    } else if 2 + |e.name| <= k < |PrintClose(e)| - 1 {
      assert PrintClose(e)[k] == e.endSpace[k - 2 - |e.name|];
      assert IsSpace(e.endSpace[k - 2 - |e.name|]);
    }
  }

  /**
    Content printed at p, scanned from a cursor at c: the children are the
    expected ones exactly when the gaps before them are quiet.
   */
  lemma {:induction false} ContentIff(bytes: seq<byte>, enc: Encoding, items: seq<Item>, c: nat, p: nat)
    requires ContentWellTagged(items) && Occurs(Units(bytes, enc), p, PrintContent(items)) && c <= p
    ensures p <= p + |PrintContent(items)| <= |Units(bytes, enc)|
    ensures AfterChildren(items, c, p) <= p + |PrintContent(items)|
    ensures Units(bytes, enc)[AfterChildren(items, c, p)..p + |PrintContent(items)|] ==
      LastGap(items, Units(bytes, enc)[c..p])
    ensures ContentExact(bytes, enc, items, c, p) <==> ChildGapsQuiet(items, Units(bytes, enc)[c..p])
    ensures ContentExact(bytes, enc, items, c, p) ==>
      ScanContent(bytes, enc, Offset(enc, c), items).value.1 == Offset(enc, AfterChildren(items, c, p))
    decreases items, 0
  {
    hide Occurs, Units, Quiet, PrintItem, ScanItem, ItemQuiet, ItemNodes, ItemWellTagged, ScanContent, NodesAt, Offset,
      ContentExact, ItemExact;
    var u := Units(bytes, enc);
    OccursFits(u, p, PrintContent(items));
    if items == [] {
      NoContent(bytes, enc, c, p);
    } else {
      var item, rest := items[0], items[1..];
      var q := p + |PrintItem(item)|;
      OccursParts(u, p, PrintItem(item), PrintContent(rest));
      ItemIff(bytes, enc, item, c, p);
      if item.Child? {
        assert u[q..q] == [];
        ContentIff(bytes, enc, rest, q, q);
        ChildrenSplit(bytes, enc, items, c, p);
      } else {
        ContentIff(bytes, enc, rest, c, q);
        MiscSkipped(bytes, enc, items, c, p);
        GapGrows(u, c, p, PrintItem(item));
      }
    }
  }

  lemma NoContent(bytes: seq<byte>, enc: Encoding, c: nat, p: nat)
    ensures ContentExact(bytes, enc, [], c, p) && ScanContent(bytes, enc, Offset(enc, c), []).value.1 == Offset(enc, c)
  {}

  lemma GapGrows(u: seq<int>, c: nat, p: nat, piece: seq<int>)
    requires Occurs(u, p, piece) && c <= p
    ensures p + |piece| <= |u| && u[c..p + |piece|] == u[c..p] + piece
  {
    var q := p + |piece|;
    assert u[c..q] == u[c..p] + u[p..q];
  }

  lemma MiscSkipped(bytes: seq<byte>, enc: Encoding, items: seq<Item>, c: nat, p: nat)
    requires items != [] && ItemNodes(bytes, enc, items[0], p) == []
    requires ScanItem(bytes, enc, Offset(enc, c), items[0]) == Ok(([], Offset(enc, c)))
    ensures ScanContent(bytes, enc, Offset(enc, c), items) == ScanContent(bytes, enc, Offset(enc, c), items[1..])
    ensures NodesAt(bytes, enc, items, p) == NodesAt(bytes, enc, items[1..], p + |PrintItem(items[0])|)
    ensures ContentExact(bytes, enc, items, c, p)
      <==> ContentExact(bytes, enc, items[1..], c, p + |PrintItem(items[0])|)
  {
    hide ScanItem, ItemNodes, PrintItem;
    var scanned := ScanContent(bytes, enc, Offset(enc, c), items[1..]);
    if scanned.Ok? {
      assert [] + scanned.value.0 == scanned.value.0;
    }
    var more := NodesAt(bytes, enc, items[1..], p + |PrintItem(items[0])|);
    assert [] + more == more;
  }

  lemma OccursIs(u: seq<int>, p: nat, piece: seq<int>)
    requires Occurs(u, p, piece)
    ensures p + |piece| <= |u| && u[p..p + |piece|] == piece
  {}

  ghost predicate ItemExact(bytes: seq<byte>, enc: Encoding, item: Item, c: nat, p: nat) {
    var scanned := ScanItem(bytes, enc, Offset(enc, c), item);
    scanned.Ok? && scanned.value.0 == ItemNodes(bytes, enc, item, p)
  }

  lemma {:induction false} ItemIff(bytes: seq<byte>, enc: Encoding, item: Item, c: nat, p: nat)
    requires ItemWellTagged(item) && Occurs(Units(bytes, enc), p, PrintItem(item)) && c <= p <= |Units(bytes, enc)|
    ensures item.Child? ==>
      && (ItemExact(bytes, enc, item, c, p) <==> Quiet(Units(bytes, enc)[c..p]) && ItemQuiet(item))
      && (ItemExact(bytes, enc, item, c, p) ==>
          ScanItem(bytes, enc, Offset(enc, c), item).value.1 == Offset(enc, p + |PrintItem(item)|))
      && |ItemNodes(bytes, enc, item, p)| == 1
      && (ScanItem(bytes, enc, Offset(enc, c), item).Ok? ==> |ScanItem(bytes, enc, Offset(enc, c), item).value.0| == 1)
    ensures !item.Child? ==>
      ScanItem(bytes, enc, Offset(enc, c), item) == Ok(([], Offset(enc, c))) && ItemNodes(bytes, enc, item, p) == []
    decreases item, 1
  {
    hide Occurs, Units, Quiet, PrintElement, ScanElement, GapsQuiet, NodeAt, WellTagged;
    if item.Child? {
      ElementIff(bytes, enc, item.element, c, p);
    }
  }

  /** With a child in front, content is exact when the child and the rest are. */
  lemma ChildrenSplit(bytes: seq<byte>, enc: Encoding, items: seq<Item>, c: nat, p: nat)
    requires items != [] && items[0].Child?
    requires var scanned := ScanItem(bytes, enc, Offset(enc, c), items[0]);
      && (scanned.Ok? ==> |scanned.value.0| == 1) && |ItemNodes(bytes, enc, items[0], p)| == 1
      && (ItemExact(bytes, enc, items[0], c, p) ==> scanned.value.1 == Offset(enc, p + |PrintItem(items[0])|))
    ensures var q := p + |PrintItem(items[0])|;
      && (ContentExact(bytes, enc, items, c, p)
        <==> ItemExact(bytes, enc, items[0], c, p) && ContentExact(bytes, enc, items[1..], q, q))
      && (ContentExact(bytes, enc, items, c, p) ==>
          ScanContent(bytes, enc, Offset(enc, c), items).value.1 ==
            ScanContent(bytes, enc, Offset(enc, q), items[1..]).value.1)
  {
    hide ScanItem, ItemNodes, PrintItem;
    var q := p + |PrintItem(items[0])|;
    var want, more := ItemNodes(bytes, enc, items[0], p), NodesAt(bytes, enc, items[1..], q);
    assert NodesAt(bytes, enc, items, p) == want + more;
    if ScanContent(bytes, enc, Offset(enc, c), items).Ok? {
      var (got, mid) := ScanItem(bytes, enc, Offset(enc, c), items[0]).value;
      var (rest, after) := ScanContent(bytes, enc, mid, items[1..]).value;
      assert (got + rest)[..1] == got && (got + rest)[1..] == rest;
      assert (want + more)[..1] == want && (want + more)[1..] == more;
    }
  }

  // ----- when gaps are quiet -----

  predicate AllQuiet(items: seq<Item>) {
    forall item <- items :: ItemQuiet(item)
  }

  /** Content of quiet pieces has quiet gaps. */
  lemma {:induction false} QuietPieces(items: seq<Item>, pending: seq<int>)
    requires AllQuiet(items) && Quiet(pending)
    ensures ChildGapsQuiet(items, pending) && Quiet(LastGap(items, pending))
    decreases |items|
  {
    hide Quiet, PrintItem, GapsQuiet;
    if items != [] {
      assert ItemQuiet(items[0]) && AllQuiet(items[1..]);
      if items[0].Child? {
        NothingIsQuiet();
        QuietPieces(items[1..], []);
      } else {
        QuietConcat(pending, PrintItem(items[0]));
        QuietPieces(items[1..], pending + PrintItem(items[0]));
      }
    }
  }

  lemma NothingIsQuiet()
    ensures Quiet([])
  {}

  /** What a good element holds is quiet. */
  lemma {:induction false} GoodIsQuiet(e: Element)
    requires GoodElement(e)
    ensures WellTagged(e) && GapsQuiet(e)
    decreases e, 1
  {
    hide Quiet, GoodTag, ContentWellTagged, AllQuiet, ChildGapsQuiet, LastGap;
    ContentIsQuiet(e.content);
    NothingIsQuiet();
    QuietPieces(e.content, []);
  }

  lemma {:induction false} ContentIsQuiet(items: seq<Item>)
    requires GoodContent(items)
    ensures ContentWellTagged(items) && AllQuiet(items)
    decreases items, 0
  {
    hide GoodItem, ItemQuiet, ItemWellTagged;
    if items != [] {
      ItemIsQuiet(items[0]);
      ContentIsQuiet(items[1..]);
      assert items == [items[0]] + items[1..];
    }
  }

  lemma {:induction false} ItemIsQuiet(item: Item)
    requires GoodItem(item)
    ensures ItemQuiet(item) && ItemWellTagged(item)
    decreases item, 1
  {
    hide Quiet, PrintItem, GapsQuiet, WellTagged;
    if item.Child? {
      GoodIsQuiet(item.element);
    } else {
      GoodItemIsQuiet(item);
    }
  }

  // ----- the theorem -----

  /** Every node of the tree covers exactly the bytes its element was printed as. */
  ghost predicate CoversPrinting(bytes: seq<byte>, enc: Encoding, node: RawNode, e: Element)
    decreases e, 1
  {
    && node.tagName == e.name && node.attributes == e.decoded && node.text == ContentText(e.content)
    && AllUnits(enc, PrintElement(e))
    && node.span.startOffset <= node.span.endOffset <= |bytes|
    && bytes[node.span.startOffset..node.span.endOffset] == Encode(enc, PrintElement(e))
    && node.span.lineNumber == LineOf(bytes, enc, node.span.startOffset)
    && ChildrenCoverPrinting(bytes, enc, node.children, e.content)
  }

  /** The children are the child elements, in order. */
  ghost predicate ChildrenCoverPrinting(bytes: seq<byte>, enc: Encoding, nodes: seq<RawNode>, items: seq<Item>)
    decreases items, 0
  {
    if items == [] then nodes == []
    else if items[0].Child? then
      nodes != [] && ItemCovers(bytes, enc, nodes[0], items[0])
        && ChildrenCoverPrinting(bytes, enc, nodes[1..], items[1..])
    else ChildrenCoverPrinting(bytes, enc, nodes, items[1..])
  }

  ghost predicate ItemCovers(bytes: seq<byte>, enc: Encoding, node: RawNode, item: Item)
    decreases item, 2
  {
    match item
    case Child(e) => CoversPrinting(bytes, enc, node, e)
    case _ => false
  }

  lemma PieceCovered(enc: Encoding, u: seq<int>, p: nat, piece: seq<int>)
    requires AllUnits(enc, u) && Occurs(u, p, piece)
    ensures AllUnits(enc, piece) && Offset(enc, p) <= Offset(enc, p + |piece|) <= |Encode(enc, u)|
    ensures Encode(enc, u)[Offset(enc, p)..Offset(enc, p + |piece|)] == Encode(enc, piece)
  {
    EncodeSlice(enc, u, p, p + |piece|);
    forall k | 0 <= k < |piece| ensures IsUnit(enc, piece[k]) {
      OccursAt(u, p, piece, k);
    }
  }

  lemma {:induction false} NodeCovers(enc: Encoding, u: seq<int>, e: Element, p: nat)
    requires AllUnits(enc, u) && Occurs(u, p, PrintElement(e)) && GoodElement(e)
    ensures CoversPrinting(Encode(enc, u), enc, NodeAt(Encode(enc, u), enc, e, p), e)
    decreases e, 1
  {
    hide Occurs, PrintOpen, PrintClose, LineOf, Encode;
    var bytes := Encode(enc, u);
    PieceCovered(enc, u, p, PrintElement(e));
    OpenOccurs(u, p, e);
    if e.selfClosed {
      assert e.content == [];
    } else {
      NodesCover(enc, u, e.content, p + |PrintOpen(e)|);
    }
  }

  lemma {:induction false} NodesCover(enc: Encoding, u: seq<int>, items: seq<Item>, p: nat)
    requires AllUnits(enc, u) && Occurs(u, p, PrintContent(items)) && GoodContent(items)
    ensures ChildrenCoverPrinting(Encode(enc, u), enc, NodesAt(Encode(enc, u), enc, items, p), items)
    decreases items, 0
  {
    hide Occurs, LineOf, Encode, CoversPrinting, NodeAt;
    if items != [] {
      var bytes := Encode(enc, u);
      var q := p + |PrintItem(items[0])|;
      OccursParts(u, p, PrintItem(items[0]), PrintContent(items[1..]));
      NodesCover(enc, u, items[1..], q);
      if items[0].Child? {
        ChildCovers(enc, u, items[0], p);
        assert NodesAt(bytes, enc, items, p)[1..] == NodesAt(bytes, enc, items[1..], q);
      } else {
        assert NodesAt(bytes, enc, items, p) == NodesAt(bytes, enc, items[1..], q);
      }
    }
  }

  lemma {:induction false} ChildCovers(enc: Encoding, u: seq<int>, item: Item, p: nat)
    requires AllUnits(enc, u) && Occurs(u, p, PrintItem(item)) && GoodItem(item) && item.Child?
    ensures ItemCovers(Encode(enc, u), enc, NodeAt(Encode(enc, u), enc, item.element, p), item)
    decreases item, 2
  {
    NodeCovers(enc, u, item.element, p);
  }

  /** The load succeeds with the root's own tree: no error, nothing left open, every span as printed. */
  ghost predicate LoadsWhole(enc: Encoding, d: Document)
    requires AllUnits(enc, PrintDocument(d))
  {
    var bytes := Encode(enc, PrintDocument(d));
    match Run(bytes, enc, INITIAL, DocumentEvents(d))
    case Err(_) => false
    case Ok(s) => s.stack == [] && s.root == Some(NodeAt(bytes, enc, d.root, |PrintContent(d.prolog)|))
  }

  /**
    The load is exact if and only if the text before the root and between any
    two tags is quiet, whatever comments, PIs and declarations it is made of.
   */
  lemma LoadsIffQuiet(enc: Encoding, d: Document)
    requires IsMisc(d.prolog) && WellTagged(d.root) && IsMisc(d.epilog) && AllUnits(enc, PrintDocument(d))
    ensures LoadsWhole(enc, d) <==> Quiet(PrintContent(d.prolog)) && GapsQuiet(d.root)
  {
    hide Run, Occurs, Units, PrintContent, PrintElement, NodeAt, Encode, WellTagged, ScanElement, GapsQuiet, Quiet;
    var u := PrintDocument(d);
    var bytes := Encode(enc, u);
    var p := |PrintContent(d.prolog)|;
    UnitsOfEncode(enc, u);
    OccursWhole(u);
    OccursThree(u, 0, PrintContent(d.prolog), PrintElement(d.root), PrintContent(d.epilog));
    OccursIs(u, 0, PrintContent(d.prolog));
    RunConcat(bytes, enc, INITIAL, ContentEvents(d.prolog) + Events(d.root), ContentEvents(d.epilog));
    RunConcat(bytes, enc, INITIAL, ContentEvents(d.prolog), Events(d.root));
    RunOutside(bytes, enc, INITIAL, d.prolog);
    RunIsScan(bytes, enc, INITIAL, d.root);
    ElementIff(bytes, enc, d.root, 0, p);
    assert Offset(enc, 0) == 0;
    var scanned := ScanElement(bytes, enc, 0, d.root);
    if scanned.Ok? {
      var done := Attach(INITIAL.(cursor := scanned.value.1, rootSeen := true), scanned.value.0);
      RunOutside(bytes, enc, done, d.epilog);
    }
  }

  /** With good content inside the root, the load is exact when the root's tag is the first markup the scan meets. */
  lemma LoadDecided(enc: Encoding, d: Document)
    requires IsMisc(d.prolog) && GoodElement(d.root) && IsMisc(d.epilog) && AllUnits(enc, PrintDocument(d))
    ensures LoadsWhole(enc, d) <==> NextMarkup(PrintDocument(d), 0) == Ok(|PrintContent(d.prolog)|)
  {
    hide NextMarkup, Occurs, PrintContent, PrintElement, GoodElement, WellTagged, GapsQuiet, Quiet, LoadsWhole;
    var u := PrintDocument(d);
    OccursWhole(u);
    OccursThree(u, 0, PrintContent(d.prolog), PrintElement(d.root), PrintContent(d.epilog));
    OccursIs(u, 0, PrintContent(d.prolog));
    RootIsMarkup(u, |PrintContent(d.prolog)|, d.root);
    ReachesIffQuiet(u, 0, |PrintContent(d.prolog)|);
    GoodIsQuiet(d.root);
    LoadsIffQuiet(enc, d);
  }

  lemma NameIsGood(e: Element)
    requires GoodElement(e)
    ensures GoodName(e.name)
  {}

  lemma RootIsMarkup(u: seq<int>, p: nat, e: Element)
    requires GoodElement(e) && Occurs(u, p, PrintElement(e))
    ensures NextMarkup(u, p) == Ok(p)
  {
    hide Occurs, NextMarkup, PrintAttributes, TagClose;
    OpenOccurs(u, p, e);
    var rest := PrintAttributes(e.attributes) + e.tagSpace + TagClose(e.selfClosed);
    assert PrintOpen(e) == Code("<") + Code(e.name) + rest;
    OccursThree(u, p, Code("<"), Code(e.name), rest);
    OccursAt(u, p, Code("<"), 0);
    NameOccurs(u, p + 1, e.name);
    PlainTagIsMarkup(u, p);
  }

  /** A printed document loads without an error, and every span slices back to its element. */
  lemma LoadsExactly(enc: Encoding, d: Document)
    requires GoodDocument(d) && AllUnits(enc, PrintDocument(d))
    ensures LoadsWhole(enc, d)
    ensures var bytes := Encode(enc, PrintDocument(d));
      CoversPrinting(bytes, enc, NodeAt(bytes, enc, d.root, |PrintContent(d.prolog)|), d.root)
  {
    hide Occurs, PrintContent, PrintElement, CoversPrinting, NodeAt, Encode, GoodElement, GoodContent, LoadsWhole,
      Quiet, GapsQuiet, WellTagged;
    var u := PrintDocument(d);
    OccursWhole(u);
    OccursThree(u, 0, PrintContent(d.prolog), PrintElement(d.root), PrintContent(d.epilog));
    MiscIsQuiet(d.prolog);
    GoodIsQuiet(d.root);
    LoadsIffQuiet(enc, d);
    NodeCovers(enc, u, d.root, |PrintContent(d.prolog)|);
  }

  lemma MiscIsQuiet(items: seq<Item>)
    requires GoodContent(items) && IsMisc(items)
    ensures Quiet(PrintContent(items))
  {
    hide Quiet, GoodContent, AllQuiet, ChildGapsQuiet, PrintContent;
    ContentIsQuiet(items);
    NothingIsQuiet();
    QuietPieces(items, []);
    OneGap(items, []);
    assert [] + PrintContent(items) == PrintContent(items);
  }

  /** Without children there is one gap. */
  lemma {:induction false} OneGap(items: seq<Item>, pending: seq<int>)
    requires IsMisc(items)
    ensures LastGap(items, pending) == pending + PrintContent(items)
    decreases |items|
  {
    hide PrintItem;
    if items == [] {
      assert pending + [] == pending;
    } else {
      assert !items[0].Child? && IsMisc(items[1..]);
      OneGap(items[1..], pending + PrintItem(items[0]));
      assert pending + (PrintItem(items[0]) + PrintContent(items[1..])) ==
        pending + PrintItem(items[0]) + PrintContent(items[1..]);
    }
  }

  lemma {:induction false} MiscsRun(u: seq<int>, i: nat, items: seq<Item>)
    requires Occurs(u, i, PrintContent(items)) && GoodContent(items) && IsMisc(items)
    ensures NextMarkup(u, i) == NextMarkup(u, i + |PrintContent(items)|)
  {
    hide Quiet, NextMarkup, PrintContent;
    MiscIsQuiet(items);
    QuietRun(u, i, i + |PrintContent(items)|);
  }

  // ----- where a load starts -----

  /** The outermost node, open or finished, starts at x. */
  predicate Rooted(s: State, x: nat) {
    && s.rootSeen
    && if s.stack != [] then s.stack[0].span.startOffset == x
       else s.root.Some? && s.root.value.span.startOffset == x
  }

  lemma StepKeepsRooted(bytes: seq<byte>, enc: Encoding, s: State, event: SaxEvent, x: nat)
    requires Rooted(s, x) && Step(bytes, enc, s, event).Ok?
    ensures Rooted(Step(bytes, enc, s, event).value, x)
  {
    hide StartTagAt, EndTagAt, Units, LineOf;
  }

  lemma {:induction false} RunKeepsRooted(bytes: seq<byte>, enc: Encoding, s: State, events: seq<SaxEvent>, x: nat)
    requires Rooted(s, x) && Run(bytes, enc, s, events).Ok?
    ensures Rooted(Run(bytes, enc, s, events).value, x)
    decreases |events|
  {
    hide Step, Rooted;
    if events != [] {
      StepKeepsRooted(bytes, enc, s, events[0], x);
      RunKeepsRooted(bytes, enc, Step(bytes, enc, s, events[0]).value, events[1..], x);
    }
  }

  /** Every load starts at the first markup the scan meets, or ends with the error the scan ends with. */
  lemma LoadStarts(enc: Encoding, d: Document)
    requires IsMisc(d.prolog) && GoodName(d.root.name) && AllUnits(enc, PrintDocument(d))
    ensures var loaded, first := Run(Encode(enc, PrintDocument(d)), enc, INITIAL, DocumentEvents(d)),
      NextMarkup(PrintDocument(d), 0);
      && (first.Err? ==> loaded == Err(first.error))
      && (first.Ok? && loaded.Ok? ==> Rooted(loaded.value, Offset(enc, first.value)))
  {
    hide Run, NextMarkup, Units, LineOf, Encode, TagEnd, MatchLit, ContentEvents;
    var u := PrintDocument(d);
    var bytes := Encode(enc, u);
    UnitsOfEncode(enc, u);
    var start := StartElement(d.root.name, d.root.decoded);
    var rest := ContentEvents(d.root.content) + [EndElement] + ContentEvents(d.epilog);
    assert DocumentEvents(d) == ContentEvents(d.prolog) + ([start] + rest);
    RunConcat(bytes, enc, INITIAL, ContentEvents(d.prolog), [start] + rest);
    RunOutside(bytes, enc, INITIAL, d.prolog);
    RunConcat(bytes, enc, INITIAL, [start], rest);
    RunOne(bytes, enc, INITIAL, start);
    if Step(bytes, enc, INITIAL, start).Ok? {
      var entered := Step(bytes, enc, INITIAL, start).value;
      var x := Offset(enc, NextMarkup(u, 0).value);
      assert Rooted(entered, x);
      if Run(bytes, enc, entered, rest).Ok? {
        RunKeepsRooted(bytes, enc, entered, rest, x);
      }
    }
  }

  /** After the root has closed, text changes nothing. */
  lemma {:induction false} RunOutside(bytes: seq<byte>, enc: Encoding, s: State, items: seq<Item>)
    requires s.stack == [] && IsMisc(items)
    ensures Run(bytes, enc, s, ContentEvents(items)) == Ok(s)
    decreases |items|
  {
    hide Run;
    if items == [] {
      RunNothing(bytes, enc, s);
    } else {
      assert !items[0].Child? && IsMisc(items[1..]);
      RunConcat(bytes, enc, s, ItemEvents(items[0]), ContentEvents(items[1..]));
      match items[0] {
        case CharData(_, chunks) => RunText(bytes, enc, s, chunks);
        case CData(_, chunks) => RunText(bytes, enc, s, chunks);
        case _ => RunNothing(bytes, enc, s);
      }
      RunOutside(bytes, enc, s, items[1..]);
    }
  }

  // ----- the same document in one and in two bytes a unit -----

  lemma {:induction false} NodeDoubles(narrow: seq<byte>, wide: seq<byte>, enc: Encoding, e: Element, p: nat)
    requires !enc.SingleByte?
    ensures SpansDouble(NodeAt(narrow, SingleByte, e, p), NodeAt(wide, enc, e, p))
    decreases e, 1
  {
    NodesDouble(narrow, wide, enc, e.content, p + |PrintOpen(e)|);
  }

  ghost predicate SpansDouble(narrow: RawNode, wide: RawNode) {
    && wide.span.startOffset == 2 * narrow.span.startOffset
    && wide.span.endOffset == 2 * narrow.span.endOffset
    && |wide.children| == |narrow.children|
    && forall k :: 0 <= k < |wide.children| ==> SpansDouble(narrow.children[k], wide.children[k])
  }

  lemma {:induction false} NodesDouble(narrow: seq<byte>, wide: seq<byte>, enc: Encoding, items: seq<Item>, p: nat)
    requires !enc.SingleByte?
    ensures var a, b := NodesAt(narrow, SingleByte, items, p), NodesAt(wide, enc, items, p);
      |a| == |b| && forall k :: 0 <= k < |a| ==> SpansDouble(a[k], b[k])
    decreases items, 0
  {
    hide SpansDouble, NodeAt;
    if items != [] {
      NodesDouble(narrow, wide, enc, items[1..], p + |PrintItem(items[0])|);
      if items[0].Child? {
        ChildDoubles(narrow, wide, enc, items[0], p);
      }
    }
  }

  lemma {:induction false} ChildDoubles(narrow: seq<byte>, wide: seq<byte>, enc: Encoding, item: Item, p: nat)
    requires !enc.SingleByte? && item.Child?
    ensures SpansDouble(NodeAt(narrow, SingleByte, item.element, p), NodeAt(wide, enc, item.element, p))
    decreases item, 2
  {
    NodeDoubles(narrow, wide, enc, item.element, p);
  }

  /** Loaded from a two-byte encoding, a document gives twice the spans it gives loaded from one byte a unit. */
  lemma TwoByteOffsetsDouble(enc: Encoding, d: Document)
    requires GoodDocument(d) && AllUnits(SingleByte, PrintDocument(d)) && !enc.SingleByte?
    ensures AllUnits(enc, PrintDocument(d))
    ensures var u := PrintDocument(d);
      match (Run(Encode(SingleByte, u), SingleByte, INITIAL, DocumentEvents(d)),
             Run(Encode(enc, u), enc, INITIAL, DocumentEvents(d)))
      case (Ok(s), Ok(t)) => s.root.Some? && t.root.Some? && SpansDouble(s.root.value, t.root.value)
      case _ => false
  {
    var u := PrintDocument(d);
    forall k | 0 <= k < |u| ensures IsUnit(enc, u[k]) {
      assert IsUnit(SingleByte, u[k]);
    }
    hide Run, NodeAt, Encode, PrintDocument, GoodDocument, SpansDouble, AllUnits;
    LoadsExactly(SingleByte, d);
    LoadsExactly(enc, d);
    NodeDoubles(Encode(SingleByte, u), Encode(enc, u), enc, d.root, |PrintContent(d.prolog)|);
  }
}
