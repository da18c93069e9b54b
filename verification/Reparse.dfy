/** A written project, loaded and parsed again: the records it then holds and their path index. */
module Reparse {
  import opened Wrappers
  import opened DiffMatch
  import opened Model
  import opened ModelBuilder
  import opened Numbers
  import opened RawTree
  import opened ReadBack
  import opened Sorting
  import opened Text
  import opened WriteElements
  import opened WriteEngine
  import opened XmlTree

  // ----- records of a loaded document -----

  lemma {:induction false} RecordsConcat(reader: FloatReader, a: seq<Node>, b: seq<Node>)
    ensures RecordsIn(reader, a + b) == RecordsIn(reader, a) + RecordsIn(reader, b)
  {
    if a == [] {
      assert a + b == b;
    } else {
      assert (a + b)[1..] == a[1..] + b;
      RecordsConcat(reader, a[1..], b);
    }
  }

  lemma RecordsOne(reader: FloatReader, node: Node)
    ensures RecordsIn(reader, [node]) == Records(reader, node)
  {
    assert [node][1..] == [];
    assert RecordsIn(reader, []) == [];
  }

  /** Trees without any record tag hold no records. */
  lemma {:induction false} NoRecords(reader: FloatReader, nodes: seq<Node>)
    requires forall t: Tag :: Family(t).Some? ==> Lacks(nodes, t)
    ensures RecordsIn(reader, nodes) == []
    decreases nodes
  {
    if nodes != [] {
      forall t: Tag | Family(t).Some? ensures Matches(nodes[0], t) == [] && Lacks(nodes[1..], t) {
        assert Lacks(nodes, t);
      }
      NoRecordsAt(reader, nodes[0]);
      NoRecords(reader, nodes[1..]);
    }
  }

  lemma {:induction false} NoRecordsAt(reader: FloatReader, node: Node)
    requires forall t: Tag :: Family(t).Some? ==> Matches(node, t) == []
    ensures Records(reader, node) == []
    decreases node
  {
    forall t: Tag | Family(t).Some? ensures node.tag != t && Lacks(node.children, t) {
      assert Matches(node, t) == [];
    }
    NoRecords(reader, node.children);
  }

  /** Nothing below a written record looks like a record. */
  lemma ElementHoldsNoRecords(e: Element, t: Tag)
    requires Family(t).Some?
    ensures Lacks(ElementNode(e).children, t)
  {
    hide MatchesIn, FindIn, ClusterNode, EcuInstanceNode, FrameNode, PduNode, SignalNode, SignalGroupNode, Family;
    match e
    case ClusterElement(c) => ClusterHoldsNoRecords(c, t);
    case EcuElement(u) => EcuHoldsNoRecords(u, t);
    case FrameElement(f) => FrameHoldsNoRecords(f, t);
    case PduElement(p) => PduHoldsNoRecords(p, t);
    case SignalElement(s) => SignalHoldsNoRecords(s, t);
    case GroupElement(g) => GroupHoldsNoRecords(g, t);
  }

  lemma ClusterHoldsNoRecords(c: Cluster, t: Tag)
    requires Family(t).Some?
    ensures Lacks(ClusterNode(c).children, t)
  {
    hide MatchesIn, FindIn, ClusterNode;
    ClusterSearch(c, t);
    VariantsSearch(c, t);
  }

  lemma EcuHoldsNoRecords(u: EcuInstance, t: Tag)
    requires Family(t).Some?
    ensures Lacks(EcuInstanceNode(u).children, t)
  {
    hide MatchesIn, FindIn, EcuInstanceNode;
    EcuSearch(u, t);
  }

  lemma FrameHoldsNoRecords(f: Frame, t: Tag)
    requires Family(t).Some?
    ensures Lacks(FrameNode(f).children, t)
  {
    hide MatchesIn, FindIn, FrameNode, FramePduNodes, SortedFramePdus;
    FrameSearch(f, t);
  }

  lemma PduHoldsNoRecords(p: Pdu, t: Tag)
    requires Family(t).Some?
    ensures Lacks(PduNode(p).children, t)
  {
    hide MatchesIn, FindIn, PduNode, PduSignalNodes, SortedPduSignals;
    PduSearch(p, t);
  }

  lemma SignalHoldsNoRecords(s: Signal, t: Tag)
    requires Family(t).Some?
    ensures Lacks(SignalNode(s).children, t)
  {
    assert t != SHORT_NAME && t != INIT_VALUE && t != LENGTH && t != VALUE && t != NUMERICAL_VALUE_SPECIFICATION;
    assert t != NETWORK_REPRESENTATION_PROPS && t != SW_DATA_DEF_PROPS_VARIANTS && t != SW_DATA_DEF_PROPS_CONDITIONAL
      && t != BASE_TYPE_REF;
    hide MatchesIn, FindIn, SignalNode, SignednessNodes, InitValueNodes, NatToString, Family;
    SignalSearch(s, t);
    SignednessSearch(s, t);
  }

  lemma GroupHoldsNoRecords(g: SignalGroup, t: Tag)
    requires Family(t).Some?
    ensures Lacks(SignalGroupNode(g).children, t)
  {
    hide MatchesIn, FindIn, SignalGroupNode;
    GroupSearch(g, t);
  }

  lemma ElementRecords(reader: FloatReader, t: ElementType, e: Element, node: Node)
    requires HasType(e, t) && Tidy(reader, e) && Loaded(ElementNode(e), node)
    ensures Records(reader, node) == [Reread(e, node.span)]
  {
    hide Loaded, Tidy, Reread, ElementNode, ReadElement, MatchesIn, AllLoaded, HasType;
    ElementReadBack(reader, t, e, node);
    forall tag: Tag | Family(tag).Some? ensures Lacks(node.children, tag) {
      ElementHoldsNoRecords(e, tag);
      LoadedDescendants(ElementNode(e), node, tag);
      LoadedNone(Descendants(node, tag));
    }
    hide Lacks;
    NoRecords(reader, node.children);
  }

  /** Position by position the reread records, whatever their spans. */
  predicate Rereads(es: seq<Element>, rs: seq<Element>) {
    |rs| == |es| && forall i :: 0 <= i < |es| ==> rs[i] == Reread(es[i], rs[i].Common().rawSpanRef)
  }

  lemma RereadSpan(e: Element, span: RawSpan)
    ensures Reread(e, span).Common() == Renewed(e.Common(), Reread(e, span).Common().category, span)
    ensures forall t :: HasType(Reread(e, span), t) == HasType(e, t)
  {}

  lemma {:induction false} LoadedSplit(a: seq<Node>, b: seq<Node>, nodes: seq<Node>)
    requires AllLoaded(a + b, nodes)
    ensures |nodes| == |a| + |b| && AllLoaded(a, nodes[..|a|]) && AllLoaded(b, nodes[|a|..])
  {
    LoadedEach(a + b, nodes);
    if a == [] {
      assert a + b == b && nodes[0..] == nodes;
    } else {
      assert (a + b)[1..] == a[1..] + b;
      LoadedSplit(a[1..], b, nodes[1..]);
      assert nodes[1..][..|a| - 1] == nodes[..|a|][1..];
      assert nodes[1..][|a| - 1..] == nodes[|a|..];
    }
  }

  predicate AllTidy(reader: FloatReader, es: seq<Element>) {
    forall e <- es :: Tidy(reader, e)
  }

  lemma RereadsOneMore(es: seq<Element>, rs: seq<Element>, e: Element, span: RawSpan)
    requires Rereads(es, rs)
    ensures Rereads(es + [e], rs + [Reread(e, span)])
  {
    RereadSpan(e, span);
    hide Reread;
  }

  ghost predicate TidyOfType(reader: FloatReader, t: ElementType, es: seq<Element>) {
    forall e <- es :: Tidy(reader, e) && HasType(e, t)
  }

  lemma ElementNodesStep(es: seq<Element>)
    requires es != []
    ensures ElementNodes(es) == ElementNodes(es[..|es| - 1]) + [ElementNode(es[|es| - 1])]
  {
    hide ElementNode;
  }

  lemma OneOff(reader: FloatReader, t: ElementType, es: seq<Element>)
    requires es != [] && TidyOfType(reader, t, es)
    ensures TidyOfType(reader, t, es[..|es| - 1]) && Tidy(reader, es[|es| - 1]) && HasType(es[|es| - 1], t)
  {
    hide Tidy, HasType;
    assert es[|es| - 1] in es;
    forall e | e in es[..|es| - 1] ensures e in es {}
  }

  /** One more written record, loaded, adds one more reread record. */
  lemma OneRecordMore(reader: FloatReader, t: ElementType, es: seq<Element>, e: Element, before: seq<Node>, node: Node)
    requires Rereads(es, RecordsIn(reader, before)) && forall x <- RecordsIn(reader, before) :: HasType(x, t)
    requires Tidy(reader, e) && HasType(e, t) && Loaded(ElementNode(e), node)
    ensures Rereads(es + [e], RecordsIn(reader, before + [node]))
    ensures forall x <- RecordsIn(reader, before + [node]) :: HasType(x, t)
  {
    hide Loaded, Tidy, Reread, ElementNode, Records, RecordsIn, HasType, Rereads;
    ElementRecords(reader, t, e, node);
    RecordsConcat(reader, before, [node]);
    RecordsOne(reader, node);
    RereadSpan(e, node.span);
    RereadsOneMore(es, RecordsIn(reader, before), e, node.span);
  }

  lemma NothingHeld(reader: FloatReader)
    ensures RecordsIn(reader, []) == [] && Rereads([], []) && ElementNodes([]) == []
  {}

  lemma {:induction false} GroupRecords(reader: FloatReader, t: ElementType, es: seq<Element>, nodes: seq<Node>)
    requires TidyOfType(reader, t, es) && AllLoaded(ElementNodes(es), nodes)
    ensures Rereads(es, RecordsIn(reader, nodes))
    ensures forall e <- RecordsIn(reader, nodes) :: HasType(e, t)
  {
    hide Loaded, AllLoaded, Tidy, ElementNode, ElementNodes, RecordsIn, HasType, Rereads, TidyOfType;
    NothingHeld(reader);
    if es == [] {
      LoadedNone(nodes);
    } else {
      var last := |es| - 1;
      OneOff(reader, t, es);
      ElementNodesStep(es);
      assert es == es[..last] + [es[last]];
      LoadedSplit(ElementNodes(es[..last]), [ElementNode(es[last])], nodes);
      GroupRecords(reader, t, es[..last], nodes[..last]);
      LoadedEach([ElementNode(es[last])], nodes[last..]);
      assert nodes[last..][0] == nodes[last] && nodes == nodes[..last] + [nodes[last]];
      OneRecordMore(reader, t, es[..last], es[last], nodes[..last], nodes[last]);
    }
  }

  // ----- sorting out the types -----

  function OfType(t: ElementType): Element -> bool {
    e => HasType(e, t)
  }

  /** A file built from a list of records holds, per type, those of that type in order. */
  lemma {:induction false} PushAllByType(records: seq<Element>, t: ElementType)
    ensures FileElements(PushAll(EMPTY_FILE, records), t) == Filter(records, OfType(t))
  {
    if records != [] {
      var front, last := records[..|records| - 1], records[|records| - 1];
      PushAllByType(front, t);
      assert records == front + [last];
      FilterConcat(front, [last], OfType(t));
      FilterLast(last, t);
      PushByType(PushAll(EMPTY_FILE, front), last, t);
    }
  }

  lemma FilterLast(e: Element, t: ElementType)
    ensures Filter([e], OfType(t)) == if HasType(e, t) then [e] else []
  {
    assert [e][1..] == [];
  }

  lemma PushByType(file: ParsedFile, e: Element, t: ElementType)
    ensures FileElements(Push(file, e), t) == FileElements(file, t) + if HasType(e, t) then [e] else []
  {
    var x, y := FileElements(Push(file, e), t), FileElements(file, t);
    assert HasType(e, t) ==> |x| == |y| + 1 && x[|y|] == e && x[..|y|] == y;
    assert !HasType(e, t) ==> x == y;
  }

  // ----- the whole document -----

  /** What a list of records of type u contributes to type t. */
  lemma OwnRecords(es: seq<Element>, t: ElementType, u: ElementType)
    requires forall e <- es :: HasType(e, u)
    ensures Filter(es, OfType(t)) == if t == u then es else []
  {
    hide HasType;
    if t == u {
      FilterAll(es, OfType(t));
    } else {
      forall e | e in es ensures !HasType(e, t) {
        OneType(e, t, u);
      }
      FilterNone(es, OfType(t));
    }
  }

  ghost predicate GroupsTidy(reader: FloatReader, project: ParsedProject) {
    forall u :: TidyOfType(reader, u, SortedGroup(project, u))
  }

  /** Type t in the records of the first groups and of one more group. */
  lemma OneGroupMore(reader: FloatReader, before: seq<Node>, own: seq<Node>, u: ElementType, t: ElementType)
    requires forall e <- RecordsIn(reader, own) :: HasType(e, u)
    ensures Filter(RecordsIn(reader, before + own), OfType(t)) ==
      Filter(RecordsIn(reader, before), OfType(t)) + if t == u then RecordsIn(reader, own) else []
  {
    hide RecordsIn, HasType, Filter, OfType;
    RecordsConcat(reader, before, own);
    FilterConcat(RecordsIn(reader, before), RecordsIn(reader, own), OfType(t));
    OwnRecords(RecordsIn(reader, own), t, u);
  }

  lemma GroupNodesStep(project: ParsedProject, k: nat)
    requires 0 < k <= |TYPES|
    ensures GroupNodes(project, k) == GroupNodes(project, k - 1) + ElementNodes(SortedGroup(project, TYPES[k - 1]))
    ensures Rank(TYPES[k - 1]) == k - 1
  {
    hide SortedGroup, ElementNodes;
  }

  lemma NoGroups(reader: FloatReader, project: ParsedProject, t: ElementType)
    ensures GroupNodes(project, 0) == [] && Filter(RecordsIn(reader, []), OfType(t)) == [] && Rank(t) >= 0
  {}

  lemma {:induction false} GroupsRecords(reader: FloatReader, project: ParsedProject, k: nat, nodes: seq<Node>,
                                         t: ElementType)
    requires k <= |TYPES| && AllLoaded(GroupNodes(project, k), nodes) && GroupsTidy(reader, project)
    ensures Rank(t) < k ==> Rereads(SortedGroup(project, t), Filter(RecordsIn(reader, nodes), OfType(t)))
    ensures Rank(t) >= k ==> Filter(RecordsIn(reader, nodes), OfType(t)) == []
  {
    hide Loaded, AllLoaded, RecordsIn, HasType, SortedGroup, ElementNodes, Rereads, Filter, OfType, GroupNodes,
      TidyOfType, Rank;
    NoGroups(reader, project, t);
    if k == 0 {
      LoadedNone(nodes);
    } else {
      var u := TYPES[k - 1];
      GroupNodesStep(project, k);
      var front, group := GroupNodes(project, k - 1), ElementNodes(SortedGroup(project, u));
      LoadedSplit(front, group, nodes);
      var before, own := nodes[..|front|], nodes[|front|..];
      GroupsRecords(reader, project, k - 1, before, t);
      assert TidyOfType(reader, u, SortedGroup(project, u));
      GroupRecords(reader, u, SortedGroup(project, u), own);
      assert nodes == before + own;
      OneGroupMore(reader, before, own, u, t);
      if t == u {
        assert [] + RecordsIn(reader, own) == RecordsIn(reader, own);
      } else {
        RankTellsApart(t, u);
        var kept := Filter(RecordsIn(reader, before), OfType(t));
        assert kept + [] == kept;
      }
    }
  }

  lemma OneType(e: Element, t: ElementType, u: ElementType)
    requires HasType(e, u) && t != u
    ensures !HasType(e, t)
  {}

  lemma RankTellsApart(t: ElementType, u: ElementType)
    requires t != u
    ensures Rank(t) != Rank(u)
  {}

  /** Sorting a project's records of a type keeps their type and tidiness. */
  lemma SortedGroupHolds(project: ParsedProject, t: ElementType)
    ensures forall e <- SortedGroup(project, t) :: e in CollectAll(project, t) && HasType(e, t)
  {
    forall e | e in SortedGroup(project, t) ensures e in CollectAll(project, t) {
      InMultiset(SortedGroup(project, t), e);
      InMultiset(CollectAll(project, t), e);
    }
  }

  ghost predicate TidyProject(reader: FloatReader, project: ParsedProject) {
    forall t :: AllTidy(reader, CollectAll(project, t))
  }

  lemma TidyGroups(reader: FloatReader, project: ParsedProject)
    requires TidyProject(reader, project)
    ensures GroupsTidy(reader, project)
  {
    hide Tidy, SortedGroup, CollectAll, HasType;
    forall u ensures TidyOfType(reader, u, SortedGroup(project, u)) {
      SortedGroupHolds(project, u);
      assert AllTidy(reader, CollectAll(project, u));
    }
  }

  /** Reading a loaded document gives, per type, the sorted records of all files, reread. */
  lemma DocumentReadBack(reader: FloatReader, project: ParsedProject, node: Node, t: ElementType)
    requires TidyProject(reader, project) && Loaded(Document(project), node)
    ensures Rereads(SortedGroup(project, t), FileElements(ReadDocument(reader, node), t))
  {
    hide Loaded, AllLoaded, SortedGroup, Document, GroupNodes, TidyProject, GroupsTidy, Records, RecordsIn,
      FileElements, Rereads, Filter;
    var elements := DocumentElements(reader, project, node);
    TidyGroups(reader, project);
    GroupsRecords(reader, project, |TYPES|, elements, t);
    PushAllByType(Records(reader, node), t);
    assert Rank(t) < |TYPES|;
  }

  /** The children of the ELEMENTS node hold all records of the document. */
  lemma DocumentElements(reader: FloatReader, project: ParsedProject, node: Node) returns (elements: seq<Node>)
    requires Loaded(Document(project), node)
    ensures AllLoaded(GroupNodes(project, |TYPES|), elements)
    ensures Records(reader, node) == RecordsIn(reader, elements)
  {
    var items := Branch(ELEMENTS, GroupNodes(project, |TYPES|));
    var package := Branch(AR_PACKAGE, [Leaf(SHORT_NAME, "Sys"), items]);
    var packages := Branch(AR_PACKAGES, [package]);
    hide GroupNodes, Loaded, AllLoaded, Records, RecordsIn;
    var packagesNode := OnlyChild(reader, Branch(AUTOSAR, [packages]), packages, node);
    var packageNode := OnlyChild(reader, packages, package, packagesNode);
    elements := PackageElements(reader, items, packageNode);
  }

  lemma PackageElements(reader: FloatReader, items: Node, node: Node) returns (elements: seq<Node>)
    requires items.tag == ELEMENTS && Loaded(Branch(AR_PACKAGE, [Leaf(SHORT_NAME, "Sys"), items]), node)
    ensures AllLoaded(items.children, elements)
    ensures Records(reader, node) == RecordsIn(reader, elements)
  {
    var name := Leaf(SHORT_NAME, "Sys");
    hide Loaded, AllLoaded, Records, RecordsIn;
    LoadedChildren(Branch(AR_PACKAGE, [name, items]), node);
    LoadedEach([name, items], node.children);
    var nameNode, itemsNode := node.children[0], node.children[1];
    assert node.children == [nameNode] + [itemsNode];
    RecordsConcat(reader, [nameNode], [itemsNode]);
    RecordsOne(reader, nameNode);
    RecordsOne(reader, itemsNode);
    PlainRecords(reader, Branch(AR_PACKAGE, [name, items]), node);
    PlainRecords(reader, items, itemsNode);
    PlainRecords(reader, name, nameNode);
    LoadedChildren(items, itemsNode);
    LoadedChildren(name, nameNode);
    LoadedNone(nameNode.children);
    NothingHeld(reader);
    elements := itemsNode.children;
  }

  lemma PlainRecords(reader: FloatReader, written: Node, node: Node)
    requires Loaded(written, node) && Family(written.tag) == None
    ensures Records(reader, node) == RecordsIn(reader, node.children)
  {}

  lemma OnlyChild(reader: FloatReader, written: Node, child: Node, node: Node) returns (r: Node)
    requires Loaded(written, node) && Family(written.tag) == None && written.children == [child]
    ensures Loaded(child, r) && Records(reader, node) == Records(reader, r)
  {
    hide Loaded, AllLoaded, Records, RecordsIn, Family;
    PlainRecords(reader, written, node);
    LoadedChildren(written, node);
    LoadedEach([child], node.children);
    r := node.children[0];
    assert node.children == [r];
    RecordsOne(reader, r);
  }
}
