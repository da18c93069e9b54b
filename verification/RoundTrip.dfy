/**
  Write, reparse, diff: the report is empty exactly when every record the
  comparison looks at survives.
 */
module RoundTrip {
  import opened Wrappers
  import opened DiffEngine
  import opened DiffFields
  import opened DiffDiagnostics
  import opened DiffLaws
  import opened DiffMatch
  import opened DiffReport
  import opened Model
  import opened ModelBuilder
  import opened Numbers
  import opened RawTree
  import opened ReadBack
  import opened Reparse
  import opened Sorting
  import opened Survival
  import opened Text
  import opened WriteElements
  import opened WriteEngine
  import opened XmlTree

  // ----- path indexes across a stable sort -----

  function HasPath(path: string): Element -> bool {
    e => PathOf(e) == path
  }

  lemma {:induction false} IndexFirst(es: seq<Element>, path: string)
    ensures path in IndexOf(es) <==> path != "" && Filter(es, HasPath(path)) != []
    ensures path in IndexOf(es) ==> IndexOf(es)[path] == Filter(es, HasPath(path))[0]
  {
    hide PathOf;
    if es != [] {
      var front, last := es[..|es| - 1], es[|es| - 1];
      IndexFirst(front, path);
      assert es == front + [last];
      FilterConcat(front, [last], HasPath(path));
      FilterSingle(last, HasPath(path));
    }
  }

  /** Equal paths that are not empty come from equal names. */
  lemma PathNames(a: Element, b: Element)
    requires PathOf(a) == PathOf(b) != ""
    ensures a.Common().shortName == b.Common().shortName
  {
    assert PathOf(a)[1..] == a.Common().shortName && PathOf(b)[1..] == b.Common().shortName;
  }

  /** Sorting by name keeps the first element of every path. */
  lemma SortKeepsIndex(es: seq<Element>)
    ensures IndexOf(StableSort(es, NameLeq)) == IndexOf(es)
  {
    hide IndexOf, StableSort, PathOf;
    var sorted := StableSort(es, NameLeq);
    forall path: string | path != "" ensures Filter(sorted, HasPath(path)) == Filter(es, HasPath(path)) {
      forall a, b | HasPath(path)(a) && HasPath(path)(b) ensures NameLeq(a, b) {
        PathNames(a, b);
        StrReflexive(a.Common().shortName);
      }
      StableSortIsStable(es, NameLeq, HasPath(path));
    }
    forall path
      ensures path in IndexOf(sorted) <==> path in IndexOf(es)
      ensures path in IndexOf(es) ==> IndexOf(sorted)[path] == IndexOf(es)[path]
    {
      IndexFirst(sorted, path);
      IndexFirst(es, path);
    }
  }

  lemma RereadPath(e: Element, span: RawSpan)
    ensures PathOf(Reread(e, span)) == PathOf(e)
  {
    RereadSpan(e, span);
  }

  predicate IsReread(e: Element, r: Element) {
    r == Reread(e, r.Common().rawSpanRef)
  }

  /** The index of reread records holds the reread records of the index. */
  lemma {:induction false} RereadIndex(es: seq<Element>, rs: seq<Element>)
    requires Rereads(es, rs)
    ensures IndexOf(rs).Keys == IndexOf(es).Keys
    ensures forall path :: path in IndexOf(es) ==> IsReread(IndexOf(es)[path], IndexOf(rs)[path])
  {
    hide PathOf, Reread;
    if es != [] {
      var k := |es| - 1;
      RereadIndex(es[..k], rs[..k]);
      RereadPath(es[k], rs[k].Common().rawSpanRef);
    }
  }

  lemma OneFile(file: ParsedFile, t: ElementType)
    ensures CollectAll(ParsedProject([file]), t) == FileElements(file, t)
  {
    hide FileElements;
    assert [file][..0] == [];
    assert FilesElements([], t) == [];
    assert [] + FileElements(file, t) == FileElements(file, t);
  }

  /** Index of the reparsed project against index of the original. */
  lemma ReparsedIndex(reader: FloatReader, project: ParsedProject, node: Node, t: ElementType)
    requires TidyProject(reader, project) && Loaded(Document(project), node)
    ensures var o, n := ProjectIndex(project, t), ProjectIndex(ParsedProject([ReadDocument(reader, node)]), t);
      o.Keys == n.Keys && forall path :: path in o ==> IsReread(o[path], n[path])
  {
    hide Loaded, Document, ReadDocument, TidyProject, CollectAll, FileElements, IndexOf, IsReread, Rereads;
    DocumentReadBack(reader, project, node, t);
    OneFile(ReadDocument(reader, node), t);
    RereadIndex(SortedGroup(project, t), FileElements(ReadDocument(reader, node), t));
    SortKeepsIndex(CollectAll(project, t));
  }

  // ----- the theorem -----

  lemma IndexedIsTidy(reader: FloatReader, project: ParsedProject, t: ElementType, path: string)
    requires TidyProject(reader, project) && path in ProjectIndex(project, t)
    ensures Tidy(reader, ProjectIndex(project, t)[path])
  {
    hide Tidy, PathOf, CollectAll;
    IndexHoldsFirst(CollectAll(project, t), path);
    assert AllTidy(reader, CollectAll(project, t));
  }

  /** A path is unchanged by a round trip exactly when its element survives. */
  lemma PathSurvives(reader: FloatReader, project: ParsedProject, node: Node, t: ElementType, path: string)
    requires TidyProject(reader, project) && Loaded(Document(project), node) && path in ProjectIndex(project, t)
    ensures Unchanged(project, ParsedProject([ReadDocument(reader, node)]), t, path)
      <==> Survives(ProjectIndex(project, t)[path])
  {
    hide Loaded, Document, ReadDocument, TidyProject, ProjectIndex, Survives, ElementDiffs, Tidy;
    ReparsedIndex(reader, project, node, t);
    IndexedIsTidy(reader, project, t, path);
    var o, n := ProjectIndex(project, t), ProjectIndex(ParsedProject([ReadDocument(reader, node)]), t);
    assert IsReread(o[path], n[path]);
    ElementSurvives(reader, o[path], n[path].Common().rawSpanRef);
  }

  ghost predicate AllSurvive(project: ParsedProject) {
    forall t, path :: path in ProjectIndex(project, t) ==> Survives(ProjectIndex(project, t)[path])
  }

  /**
    Write, reparse and diff: never a diagnostic, and no entry exactly when
    every record that is the first of its name survives.
   */
  lemma RoundTripReport(reader: FloatReader, project: ParsedProject, written: Node, node: Node, entries: seq<DiffEntry>,
                        diagnostics: seq<DiffDiagnostic>)
    requires TidyProject(reader, project) && Written(project) == Ok(written) && Loaded(written, node)
    requires IsDiff(project, ParsedProject([ReadDocument(reader, node)]), entries, diagnostics)
    ensures diagnostics == []
    ensures entries == [] <==> AllSurvive(project)
  {
    hide Loaded, Document, ReadDocument, TidyProject, ProjectIndex, Survives, IsDiff, ElementDiffs, Problems,
      HasBlankText, Unchanged;
    var reparsed := ParsedProject([ReadDocument(reader, node)]);
    forall t ensures ProjectIndex(project, t).Keys == ProjectIndex(reparsed, t).Keys {
      ReparsedIndex(reader, project, node, t);
    }
    forall t, path | path in ProjectIndex(project, t)
      ensures Unchanged(project, reparsed, t, path) <==> Survives(ProjectIndex(project, t)[path])
    {
      PathSurvives(reader, project, node, t, path);
    }
    SamePathsReport(project, reparsed, entries, diagnostics);
  }

  /** With the same paths on both sides there is nothing but modifications to report. */
  lemma SamePathsReport(o: ParsedProject, n: ParsedProject, entries: seq<DiffEntry>, diagnostics: seq<DiffDiagnostic>)
    requires IsDiff(o, n, entries, diagnostics)
    requires forall t :: ProjectIndex(o, t).Keys == ProjectIndex(n, t).Keys
    ensures diagnostics == []
    ensures entries == [] <==> forall t, p :: p in ProjectIndex(o, t) ==> Unchanged(o, n, t, p)
  {
    hide IsDiff, ProjectIndex, ElementDiffs;
    NoDiagnostics(o, n, entries, diagnostics);
    if forall t, p :: p in ProjectIndex(o, t) ==> Unchanged(o, n, t, p) {
      NothingToReport(o, n, entries, diagnostics);
    }
    if entries == [] {
      forall t, p | p in ProjectIndex(o, t) ensures Unchanged(o, n, t, p) {
        ChangeIsReported(o, n, entries, diagnostics, t, p);
      }
    }
  }

  lemma NoDiagnostics(o: ParsedProject, n: ParsedProject, entries: seq<DiffEntry>, diagnostics: seq<DiffDiagnostic>)
    requires IsDiff(o, n, entries, diagnostics)
    requires forall t :: ProjectIndex(o, t).Keys == ProjectIndex(n, t).Keys
    ensures diagnostics == []
  {
    hide IsDiff, ProjectIndex, AmbiguousKey;
    forall d ensures d !in diagnostics {
      var k := Rank(d.elementType);
      NoAmbiguity(o, n, TYPES[k]);
      DiagnosticIffAmbiguous(o, n, entries, diagnostics, k);
      assert TYPES[k] == d.elementType;
    }
    EmptyOrMember(diagnostics);
  }

  lemma ChangeIsReported(o: ParsedProject, n: ParsedProject, entries: seq<DiffEntry>, diagnostics: seq<DiffDiagnostic>,
                         t: ElementType, p: string)
    requires IsDiff(o, n, entries, diagnostics) && p in ProjectIndex(o, t)
    ensures Unchanged(o, n, t, p) || entries != []
  {
    hide IsDiff, ProjectIndex, ElementDiffs, Core;
    ReportIsCore(o, n, entries, diagnostics, t);
    if !Unchanged(o, n, t, p) {
      var e := OldPathReported(ProjectIndex(o, t), ProjectIndex(n, t), t, p);
      assert e in entries;
    }
  }

  // ----- projects that were parsed -----

  lemma {:induction false} NamesOfTidy(nodes: seq<Node>)
    ensures TidyNames(NamesOf(nodes))
  {
    hide FindIn, TrimText, Trimmed;
    if nodes != [] {
      NamesOfTidy(nodes[..|nodes| - 1]);
    }
  }

  lemma {:induction false} RefNamesTidy(refs: seq<Node>)
    ensures TidyRefs(RefNames(refs))
  {
    hide ShortNameOfRef, RefName;
    if refs != [] {
      RefNamesTidy(refs[..|refs| - 1]);
    }
  }

  lemma ChildUint32Fits(node: Node, tag: Tag, fallback: nat)
    requires fallback < TWO_32
    ensures ChildUint32(node, tag, fallback) < TWO_32
  {
    hide ParseInteger, FindIn, TrimText;
  }

  lemma RefInTidy(text: Option<string>)
    ensures RefName(RefIn(text))
  {}

  lemma CommonTidy(node: Node)
    ensures TidyCommon(CommonOf(node))
  {
    hide FindIn, Trimmed;
    assert Trimmed("") by { EmptyTrimmed(); }
  }

  lemma EmptyTrimmed()
    ensures Trimmed("")
  {}

  lemma FrameTidy(reader: FloatReader, node: Node)
    ensures Tidy(reader, FrameElement(ReadFrame(node)))
  {
    hide CommonOf, TidyCommon, ChildUint32, RefNames, TidyRefs, Descendants, ReadFramePdus, TidyFramePdu;
    CommonTidy(node);
    ChildUint32Fits(node, FRAME_LENGTH, 0);
    ChildUint32Fits(node, LENGTH, ChildUint32(node, FRAME_LENGTH, 0));
    RefNamesTidy(Descendants(node, TRANSMITTER_REF));
    FramePdusTidy(Descendants(node, FRAME_PDU));
    FramePdusTidy(Descendants(node, PDU_TO_FRAME_MAPPING));
  }

  lemma FramePdusTidy(nodes: seq<Node>)
    ensures forall m <- ReadFramePdus(nodes) :: TidyFramePdu(m)
  {
    hide ChildText, RefName, RefIn, ChildUint32, ReadFramePdus;
    ReadFramePdusAt(nodes);
    forall i | 0 <= i < |nodes| ensures TidyFramePdu(ReadFramePdus(nodes)[i]) {
      RefInTidy(ChildText(nodes[i], PDU_REF));
      ChildUint32Fits(nodes[i], START_POSITION, 0);
    }
  }

  lemma PduTidy(reader: FloatReader, node: Node)
    ensures Tidy(reader, PduElement(ReadPdu(node)))
  {
    hide CommonOf, TidyCommon, ChildUint32, Descendants, ReadPduSignals, TidyPduSignal;
    CommonTidy(node);
    ChildUint32Fits(node, LENGTH, 0);
    PduSignalsTidy(Descendants(node, PDU_SIGNAL_MAPPING));
    PduSignalsTidy(Descendants(node, I_SIGNAL_TO_I_PDU_MAPPING));
  }

  lemma PduSignalsTidy(nodes: seq<Node>)
    ensures forall m <- ReadPduSignals(nodes) :: TidyPduSignal(m)
  {
    hide EitherText, RefName, RefIn, ChildUint32, ByteOrderIn, ReadPduSignals;
    ReadPduSignalsAt(nodes);
    forall i | 0 <= i < |nodes| ensures TidyPduSignal(ReadPduSignals(nodes)[i]) {
      RefInTidy(EitherText(nodes[i], SIGNAL_REF, I_SIGNAL_REF));
      ChildUint32Fits(nodes[i], START_POSITION, 0);
    }
  }

  lemma SignalTidy(reader: FloatReader, node: Node)
    requires Lossless(reader)
    ensures Tidy(reader, SignalElement(ReadSignal(reader, node)))
  {
    hide CommonOf, TidyCommon, ChildUint32, RefNames, TidyRefs, Descendants, ReadTable, ReadSignedness, ParseDouble,
      Lossless, ReadsBack, ByteOrderIn;
    CommonTidy(node);
    ChildUint32Fits(node, START_BIT, 0);
    ChildUint32Fits(node, LENGTH, 0);
    ChildUint32Fits(node, BIT_LENGTH, ChildUint32(node, LENGTH, 0));
    RefNamesTidy(Descendants(node, RECEIVER_REF));
    if FindChild(node, INIT_VALUE).Some? {
      var values := Descendants(FindChild(node, INIT_VALUE).value, VALUE);
      if values != [] {
        ParsedReadsBack(reader, values[0].text);
      }
    }
  }

  lemma TidyConcat(a: seq<string>, b: seq<string>)
    ensures TidyNames(a) && TidyNames(b) ==> TidyNames(a + b)
    ensures TidyRefs(a) && TidyRefs(b) ==> TidyRefs(a + b)
  {
    hide Trimmed, RefName;
  }

  /** Whatever tree it came from, a parsed record is tidy. */
  lemma ReadIsTidy(reader: FloatReader, t: ElementType, node: Node)
    requires Lossless(reader)
    ensures Tidy(reader, ReadElement(reader, t, node))
  {
    CommonTidy(node);
    hide CommonOf, TidyCommon, NamesOf, RefNames, TidyNames, TidyRefs, Descendants, ParseInteger, BaudrateText,
      ReadFrame, ReadPdu, ReadSignal,
      TidyFramePdu, TidyPduSignal, TidyInitValue;
    match t
    case ClusterType =>
      var a, b := Descendants(node, PHYSICAL_CHANNEL), Descendants(node, CAN_PHYSICAL_CHANNEL);
      NamesOfTidy(a);
      NamesOfTidy(b);
      TidyConcat(NamesOf(a), NamesOf(b));
    case EcuInstanceType =>
      var a, b := Descendants(node, CAN_CONTROLLER), Descendants(node, CAN_COMMUNICATION_CONTROLLER);
      RefNamesTidy(Descendants(node, CHANNEL_REF));
      NamesOfTidy(a);
      NamesOfTidy(b);
      TidyConcat(NamesOf(a), NamesOf(b));
    case FrameType => FrameTidy(reader, node);
    case PduType => PduTidy(reader, node);
    case SignalType => SignalTidy(reader, node);
    case SignalGroupType =>
      var a, b := Descendants(node, I_SIGNAL_REF), Descendants(node, SYSTEM_SIGNAL_REF);
      RefNamesTidy(a);
      RefNamesTidy(b);
      TidyConcat(RefNames(a), RefNames(b));
  }

  lemma {:induction false} RecordsTidy(reader: FloatReader, node: Node)
    requires Lossless(reader)
    ensures AllTidy(reader, Records(reader, node))
    decreases node
  {
    hide Lossless, ReadElement, Tidy;
    RecordsInTidy(reader, node.children);
    if Family(node.tag).Some? {
      ReadIsTidy(reader, Family(node.tag).value, node);
    }
  }

  lemma {:induction false} RecordsInTidy(reader: FloatReader, nodes: seq<Node>)
    requires Lossless(reader)
    ensures AllTidy(reader, RecordsIn(reader, nodes))
    decreases nodes
  {
    hide Lossless, ReadElement, Tidy;
    if nodes != [] {
      RecordsTidy(reader, nodes[0]);
      RecordsInTidy(reader, nodes[1..]);
    }
  }

  /** A parsed document is a tidy project. */
  lemma ParsedIsTidy(reader: FloatReader, root: Node)
    requires Lossless(reader)
    ensures TidyProject(reader, ParsedProject([ReadDocument(reader, root)]))
  {
    hide Lossless, Tidy, Records, FileElements;
    RecordsTidy(reader, root);
    forall t ensures AllTidy(reader, CollectAll(ParsedProject([ReadDocument(reader, root)]), t)) {
      OneFile(ReadDocument(reader, root), t);
      PushAllByType(Records(reader, root), t);
    }
  }

  /**
    The repository's own round-trip check: parse a document, write it, parse
    what was written, diff. The report is empty exactly when what was parsed
    survives.
   */
  lemma ParsedRoundTrip(reader: FloatReader, root: Node, written: Node, node: Node, entries: seq<DiffEntry>,
                        diagnostics: seq<DiffDiagnostic>)
    requires Lossless(reader)
    requires Written(ParsedProject([ReadDocument(reader, root)])) == Ok(written) && Loaded(written, node)
    requires IsDiff(ParsedProject([ReadDocument(reader, root)]), ParsedProject([ReadDocument(reader, node)]), entries,
                    diagnostics)
    ensures diagnostics == []
    ensures entries == [] <==> AllSurvive(ParsedProject([ReadDocument(reader, root)]))
  {
    hide Lossless, ReadDocument, Loaded, Written, IsDiff, AllSurvive, TidyProject;
    ParsedIsTidy(reader, root);
    RoundTripReport(reader, ParsedProject([ReadDocument(reader, root)]), written, node, entries, diagnostics);
  }
}
