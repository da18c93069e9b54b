/**
  Laws of the whole diff: nothing is lost or reported twice, moves and
  ambiguity diagnostics are exact, swapping the projects mirrors the report,
  and the unstable final sort has only one outcome.
 */
module DiffLaws {
  import opened Wrappers
  import opened Model
  import opened DiffReport
  import opened DiffMatch
  import opened DiffFields
  import opened DiffFieldLaws
  import opened DiffMoves
  import opened DiffDiagnostics
  import opened DiffEngine
  import opened DiffListing
  import opened Sorting
  import opened Text

  // ----- conservation -----

  ghost predicate ReportsOld(entries: seq<DiffEntry>, t: ElementType, kind: DiffKind, p: string) {
    exists e <- entries :: e.elementType == t && e.kind == kind && e.oldPath == p
  }

  ghost predicate ReportsNew(entries: seq<DiffEntry>, t: ElementType, kind: DiffKind, q: string) {
    exists e <- entries :: e.elementType == t && e.kind == kind && e.newPath == q
  }

  /** The path is on both sides and its elements show no difference. */
  ghost predicate Unchanged(o: ParsedProject, n: ParsedProject, t: ElementType, p: string) {
    var a, b := ProjectIndex(o, t), ProjectIndex(n, t);
    p in a && p in b && ElementDiffs(a[p], b[p]) == []
  }

  function Count(b: bool): nat {
    if b then 1 else 0
  }

  /** What makes an entry of one type part of the report, in terms of that type's indexes. */
  ghost predicate Core(a: Index, b: Index, e: DiffEntry) {
    match e.kind
    case Removed => e.newPath == "" && e.oldPath in a && e.oldPath !in b && !MovesAway(a, b, e.oldPath)
      && e.fieldDiffs == []
    case Added => e.oldPath == "" && e.newPath in b && e.newPath !in a && !MovesHere(a, b, e.newPath)
      && e.fieldDiffs == []
    case Modified =>
      e.oldPath == e.newPath && e.oldPath in a && e.oldPath in b
      && e.fieldDiffs == ElementDiffs(a[e.oldPath], b[e.oldPath]) && e.fieldDiffs != []
    case Moved =>
      Pair(a, b, e.oldPath, e.newPath)
      && e.oldPath in a && e.oldPath !in b && e.newPath in b && e.newPath !in a
      && e.fieldDiffs == ElementDiffs(a[e.oldPath], b[e.newPath])
  }

  lemma ReportedIsCore(o: ParsedProject, n: ParsedProject, e: DiffEntry)
    ensures Reported(o, n, e) <==> Core(ProjectIndex(o, e.elementType), ProjectIndex(n, e.elementType), e)
  {
    hide ProjectIndex, ElementDiffs, Pair;
    var a, b := ProjectIndex(o, e.elementType), ProjectIndex(n, e.elementType);
    if e.kind == Moved && Pair(a, b, e.oldPath, e.newPath) {
      PairEnds(a, b, e.oldPath, e.newPath);
    }
  }

  /** The report is the listing of its core entries. */
  lemma ReportIsCore(o: ParsedProject, n: ParsedProject, entries: seq<DiffEntry>, diagnostics: seq<DiffDiagnostic>,
                     t: ElementType)
    requires IsDiff(o, n, entries, diagnostics)
    ensures NoDuplicates(entries)
    ensures forall e: DiffEntry ::
      e.elementType == t ==> (e in entries <==> Core(ProjectIndex(o, t), ProjectIndex(n, t), e))
  {
    ReportIsExact(o, n, entries, diagnostics);
    hide IsDiff, Reported, Core, ProjectIndex;
    forall e: DiffEntry | e.elementType == t ensures e in entries <==> Core(ProjectIndex(o, t), ProjectIndex(n, t), e) {
      ReportedIsCore(o, n, e);
    }
  }

  /** The entry a path on the old side is reported by. */
  lemma OldPathReported(a: Index, b: Index, t: ElementType, p: string) returns (e: DiffEntry)
    requires p in a && !(p in b && ElementDiffs(a[p], b[p]) == [])
    ensures Core(a, b, e) && e.elementType == t && e.kind != Added && e.oldPath == p
  {
    hide ElementDiffs, Pair;
    if p !in b && MovesAway(a, b, p) {
      var q :| Pair(a, b, p, q);
      PairEnds(a, b, p, q);
      e := DiffEntry(Moved, t, p, q, ElementDiffs(a[p], b[q]));
    } else if p !in b {
      e := DiffEntry(Removed, t, p, "", []);
    } else {
      e := DiffEntry(Modified, t, p, p, ElementDiffs(a[p], b[p]));
    }
  }

  lemma NewPathReported(a: Index, b: Index, t: ElementType, q: string) returns (e: DiffEntry)
    requires q in b && !(q in a && ElementDiffs(a[q], b[q]) == [])
    ensures Core(a, b, e) && e.elementType == t && e.kind != Removed && e.newPath == q
  {
    hide ElementDiffs, Pair;
    if q !in a && MovesHere(a, b, q) {
      var p :| Pair(a, b, p, q);
      PairEnds(a, b, p, q);
      e := DiffEntry(Moved, t, p, q, ElementDiffs(a[p], b[q]));
    } else if q !in a {
      e := DiffEntry(Added, t, "", q, []);
    } else {
      e := DiffEntry(Modified, t, q, q, ElementDiffs(a[q], b[q]));
    }
  }

  lemma OnePartnerBack(a: Index, b: Index, p: string, p': string, q: string)
    requires Pair(a, b, p, q) && Pair(a, b, p', q)
    ensures p == p'
  {
    hide SecondaryKey;
    PairEnds(a, b, p, q);
    PairEnds(a, b, p', q);
    assert p in Contenders(a, b, SecondaryKey(a[p]).value);
  }

  /** No two entries speak for one old path. */
  lemma OldPathOnce(a: Index, b: Index, e: DiffEntry, f: DiffEntry)
    requires Core(a, b, e) && Core(a, b, f) && e.elementType == f.elementType
    requires e.kind != Added && f.kind != Added && e.oldPath == f.oldPath
    ensures e == f
  {
    hide ElementDiffs, Pair;
    if e.kind == Moved && f.kind == Moved {
      OnePartner(a, b, e.oldPath, e.newPath, f.newPath);
    }
  }

  lemma NewPathOnce(a: Index, b: Index, e: DiffEntry, f: DiffEntry)
    requires Core(a, b, e) && Core(a, b, f) && e.elementType == f.elementType
    requires e.kind != Removed && f.kind != Removed && e.newPath == f.newPath
    ensures e == f
  {
    hide ElementDiffs, Pair;
    if e.kind == Moved && f.kind == Moved {
      OnePartnerBack(a, b, e.oldPath, f.oldPath, e.newPath);
    }
  }

  lemma OnlyOldReport(entries: seq<DiffEntry>, t: ElementType, p: string, e: DiffEntry, kind: DiffKind)
    requires e in entries && e.elementType == t && e.oldPath == p && e.kind != Added && kind != Added
    requires forall f <- entries :: f.elementType == t && f.oldPath == p && f.kind != Added ==> f == e
    ensures ReportsOld(entries, t, kind, p) <==> kind == e.kind
  {}

  lemma OnlyNewReport(entries: seq<DiffEntry>, t: ElementType, q: string, e: DiffEntry, kind: DiffKind)
    requires e in entries && e.elementType == t && e.newPath == q && e.kind != Removed && kind != Removed
    requires forall f <- entries :: f.elementType == t && f.newPath == q && f.kind != Removed ==> f == e
    ensures ReportsNew(entries, t, kind, q) <==> kind == e.kind
  {}

  /** Every old path is in exactly one of Removed, Moved, Modified and unchanged. */
  lemma OldPathsConserved(o: ParsedProject, n: ParsedProject, entries: seq<DiffEntry>, diagnostics: seq<DiffDiagnostic>,
                          t: ElementType, p: string)
    requires IsDiff(o, n, entries, diagnostics) && p in ProjectIndex(o, t)
    ensures Count(ReportsOld(entries, t, Removed, p)) + Count(ReportsOld(entries, t, Moved, p))
      + Count(ReportsOld(entries, t, Modified, p)) + Count(Unchanged(o, n, t, p)) == 1
  {
    hide IsDiff, ProjectIndex, ElementDiffs, Pair, ReportsOld;
    var a, b := ProjectIndex(o, t), ProjectIndex(n, t);
    ReportIsCore(o, n, entries, diagnostics, t);
    if Unchanged(o, n, t, p) {
      forall kind: DiffKind | kind != Added ensures !ReportsOld(entries, t, kind, p) {
        UnchangedNotReported(a, b, entries, t, p, kind);
      }
    } else {
      var e := OldPathReported(a, b, t, p);
      forall f | f in entries && f.elementType == t && f.oldPath == p && f.kind != Added ensures f == e {
        OldPathOnce(a, b, e, f);
      }
      OnlyOldReport(entries, t, p, e, Removed);
      OnlyOldReport(entries, t, p, e, Moved);
      OnlyOldReport(entries, t, p, e, Modified);
    }
  }

  lemma UnchangedNotReported(a: Index, b: Index, entries: seq<DiffEntry>, t: ElementType, p: string, kind: DiffKind)
    requires forall e: DiffEntry :: e.elementType == t ==> (e in entries <==> Core(a, b, e))
    requires p in a && p in b && ElementDiffs(a[p], b[p]) == []
    ensures kind != Added ==> !ReportsOld(entries, t, kind, p)
    ensures kind != Removed ==> !ReportsNew(entries, t, kind, p)
  {
    hide ElementDiffs, Pair;
  }

  /** Every new path is in exactly one of Added, Moved, Modified and unchanged. */
  lemma NewPathsConserved(o: ParsedProject, n: ParsedProject, entries: seq<DiffEntry>, diagnostics: seq<DiffDiagnostic>,
                          t: ElementType, q: string)
    requires IsDiff(o, n, entries, diagnostics) && q in ProjectIndex(n, t)
    ensures Count(ReportsNew(entries, t, Added, q)) + Count(ReportsNew(entries, t, Moved, q))
      + Count(ReportsNew(entries, t, Modified, q)) + Count(Unchanged(o, n, t, q)) == 1
  {
    hide IsDiff, ProjectIndex, ElementDiffs, Pair, ReportsNew;
    var a, b := ProjectIndex(o, t), ProjectIndex(n, t);
    ReportIsCore(o, n, entries, diagnostics, t);
    if Unchanged(o, n, t, q) {
      forall kind: DiffKind | kind != Removed ensures !ReportsNew(entries, t, kind, q) {
        UnchangedNotReported(a, b, entries, t, q, kind);
      }
    } else {
      var e := NewPathReported(a, b, t, q);
      forall f | f in entries && f.elementType == t && f.newPath == q && f.kind != Removed ensures f == e {
        NewPathOnce(a, b, e, f);
      }
      OnlyNewReport(entries, t, q, e, Added);
      OnlyNewReport(entries, t, q, e, Moved);
      OnlyNewReport(entries, t, q, e, Modified);
    }
  }

  function Departed(entries: seq<DiffEntry>, t: ElementType): set<string> {
    set e <- entries | e.elementType == t && (e.kind == Removed || e.kind == Moved) :: e.oldPath
  }

  function Arrived(entries: seq<DiffEntry>, t: ElementType): set<string> {
    set e <- entries | e.elementType == t && (e.kind == Added || e.kind == Moved) :: e.newPath
  }

  /** Departures are exactly the old paths the new side lacks. */
  lemma DepartedExact(a: Index, b: Index, t: ElementType, entries: seq<DiffEntry>, p: string)
    requires forall e: DiffEntry :: e.elementType == t ==> (e in entries <==> Core(a, b, e))
    ensures p in Departed(entries, t) <==> p in a && p !in b
  {
    hide ElementDiffs, Pair;
    if p in a && p !in b {
      var e := OldPathReported(a, b, t, p);
      assert e in entries;
    }
  }

  lemma ArrivedExact(a: Index, b: Index, t: ElementType, entries: seq<DiffEntry>, q: string)
    requires forall e: DiffEntry :: e.elementType == t ==> (e in entries <==> Core(a, b, e))
    ensures q in Arrived(entries, t) <==> q in b && q !in a
  {
    hide ElementDiffs, Pair;
    if q in b && q !in a {
      var e := NewPathReported(a, b, t, q);
      assert e in entries;
    }
  }

  /** The old paths and the report rebuild the new path set. */
  lemma ReportRebuildsPaths(o: ParsedProject, n: ParsedProject, entries: seq<DiffEntry>,
                            diagnostics: seq<DiffDiagnostic>, t: ElementType)
    requires IsDiff(o, n, entries, diagnostics)
    ensures ProjectIndex(n, t).Keys == ProjectIndex(o, t).Keys - Departed(entries, t) + Arrived(entries, t)
  {
    hide IsDiff, ProjectIndex, Core, Departed, Arrived;
    var a, b := ProjectIndex(o, t), ProjectIndex(n, t);
    ReportIsCore(o, n, entries, diagnostics, t);
    forall p
      ensures p in Departed(entries, t) <==> p in a && p !in b
      ensures p in Arrived(entries, t) <==> p in b && p !in a
    {
      DepartedExact(a, b, t, entries, p);
      ArrivedExact(a, b, t, entries, p);
    }
  }

  /** A move is reported exactly for the pairs that alone share their secondary key. */
  lemma MovesAreExact(o: ParsedProject, n: ParsedProject, entries: seq<DiffEntry>, diagnostics: seq<DiffDiagnostic>,
                      t: ElementType, p: string, q: string)
    requires IsDiff(o, n, entries, diagnostics)
    ensures (exists e <- entries :: e.elementType == t && e.kind == Moved && e.oldPath == p && e.newPath == q)
      <==> Pair(ProjectIndex(o, t), ProjectIndex(n, t), p, q)
  {
    hide IsDiff, ProjectIndex, ElementDiffs, Pair;
    var a, b := ProjectIndex(o, t), ProjectIndex(n, t);
    ReportIsCore(o, n, entries, diagnostics, t);
    if Pair(a, b, p, q) {
      PairEnds(a, b, p, q);
      var e := DiffEntry(Moved, t, p, q, ElementDiffs(a[p], b[q]));
      assert Core(a, b, e);
      assert e in entries;
    }
  }

  // ----- determinism -----

  /** Within one type no two reported entries sort alike. */
  lemma SortKeyTellsApart(o: ParsedProject, n: ParsedProject, e: DiffEntry, f: DiffEntry)
    requires Reported(o, n, e) && Reported(o, n, f)
    requires e.elementType == f.elementType && SortKey(e) == SortKey(f)
    ensures e == f
  {
    hide Reported, ProjectIndex, ElementDiffs, Pair;
    var a, b := ProjectIndex(o, e.elementType), ProjectIndex(n, e.elementType);
    ReportedIsCore(o, n, e);
    ReportedIsCore(o, n, f);
    if e.kind == Removed && f.kind == Removed {
      OldPathOnce(a, b, e, f);
    } else if e.kind != Removed && f.kind != Removed {
      NewPathOnce(a, b, e, f);
    }
  }

  /** Although the last sort is unstable, the pipeline has one outcome. */
  lemma DiffIsDeterministic(o: ParsedProject, n: ParsedProject, o': ParsedProject, n': ParsedProject,
                            e1: seq<DiffEntry>, d1: seq<DiffDiagnostic>, e2: seq<DiffEntry>, d2: seq<DiffDiagnostic>)
    requires IsDiff(o, n, e1, d1) && IsDiff(o', n', e2, d2)
    requires forall t :: ProjectIndex(o, t) == ProjectIndex(o', t) && ProjectIndex(n, t) == ProjectIndex(n', t)
    ensures e1 == e2 && d1 == d2
  {
    hide ProjectIndex, EntryLeq, DiagnosticLeq, Reported, Populated, MovedEntries, MovedDiagnostics, MatchedTypes;
    SameIndexesSameStages(o, n, o', n', |TYPES|);
    SameIndexesSamePopulation(o, n, o', n', MovedEntries(o, n, |TYPES|));
    ReportIsExact(o, n, e1, d1);
    forall x, y | x in e1 && y in e1 && EntryLeq(x, y) && EntryLeq(y, x) ensures x == y {
      EquallySorted(x, y);
      SortKeyTellsApart(o, n, x, y);
    }
    SortedUnique(e1, e2, EntryLeq);
    DiagnosticsSortOneWay(d1, d2, MovedDiagnostics(o, n, |TYPES|));
  }

  lemma EquallySorted(x: DiffEntry, y: DiffEntry)
    requires EntryLeq(x, y) && EntryLeq(y, x)
    ensures SortKey(x) == SortKey(y) && x.elementType == y.elementType
  {
    hide StrLeq, SortKey;
    if SortKey(x) != SortKey(y) {
      StrAntisymmetric(SortKey(x), SortKey(y));
    }
    RankTellsTypesApart(x.elementType, y.elementType);
  }

  lemma {:induction false} SameIndexesSameMatches(o: ParsedProject, n: ParsedProject, o': ParsedProject,
                                                  n': ParsedProject, k: nat)
    requires k <= |TYPES|
    requires forall t :: ProjectIndex(o, t) == ProjectIndex(o', t) && ProjectIndex(n, t) == ProjectIndex(n', t)
    ensures MatchedTypes(o, n, k) == MatchedTypes(o', n', k)
  {
    hide ProjectIndex, MatchEntries;
    if k > 0 {
      SameIndexesSameMatches(o, n, o', n', k - 1);
    }
  }

  lemma {:induction false} SameIndexesSameStages(o: ParsedProject, n: ParsedProject, o': ParsedProject,
                                                 n': ParsedProject, k: nat)
    requires k <= |TYPES|
    requires forall t :: ProjectIndex(o, t) == ProjectIndex(o', t) && ProjectIndex(n, t) == ProjectIndex(n', t)
    ensures MovedEntries(o, n, k) == MovedEntries(o', n', k)
    ensures MovedDiagnostics(o, n, k) == MovedDiagnostics(o', n', k)
  {
    hide ProjectIndex, Outcome, NewDiagnostics, MatchedTypes;
    if k == 0 {
      SameIndexesSameMatches(o, n, o', n', |TYPES|);
    } else {
      SameIndexesSameStages(o, n, o', n', k - 1);
    }
  }

  lemma {:induction false} SameIndexesSamePopulation(o: ParsedProject, n: ParsedProject, o': ParsedProject,
                                                     n': ParsedProject, entries: seq<DiffEntry>)
    requires forall t :: ProjectIndex(o, t) == ProjectIndex(o', t) && ProjectIndex(n, t) == ProjectIndex(n', t)
    ensures Populated(o, n, entries) == Populated(o', n', entries)
  {
    hide ProjectIndex, ElementDiffs;
    if entries != [] {
      SameIndexesSamePopulation(o, n, o', n', entries[..|entries| - 1]);
    }
  }

  // ----- the diff of a project with itself, or with one that looks the same -----

  /** Projects whose indexes have the same paths and undiffering elements give an empty report. */
  lemma NothingToReport(o: ParsedProject, n: ParsedProject, entries: seq<DiffEntry>, diagnostics: seq<DiffDiagnostic>)
    requires IsDiff(o, n, entries, diagnostics)
    requires forall t :: ProjectIndex(o, t).Keys == ProjectIndex(n, t).Keys
    requires forall t, p :: p in ProjectIndex(o, t) ==> Unchanged(o, n, t, p)
    ensures entries == [] && diagnostics == []
  {
    hide IsDiff, ProjectIndex, ElementDiffs, Pair, AmbiguousKey;
    forall e: DiffEntry ensures e !in entries {
      ReportIsCore(o, n, entries, diagnostics, e.elementType);
      NoCore(o, n, e);
    }
    forall d ensures d !in diagnostics {
      var k := Rank(d.elementType);
      NoAmbiguity(o, n, TYPES[k]);
      DiagnosticIffAmbiguous(o, n, entries, diagnostics, k);
      assert TYPES[k] == d.elementType;
    }
    EmptyOrMember(entries);
    EmptyOrMember(diagnostics);
  }

  lemma EmptyOrMember<T(!new)>(s: seq<T>)
    ensures s == [] || exists x :: x in s
  {
    if s != [] {
      assert s[0] in s;
    }
  }

  lemma NoCore(o: ParsedProject, n: ParsedProject, e: DiffEntry)
    requires forall t :: ProjectIndex(o, t).Keys == ProjectIndex(n, t).Keys
    requires forall t, p :: p in ProjectIndex(o, t) ==> Unchanged(o, n, t, p)
    ensures !Core(ProjectIndex(o, e.elementType), ProjectIndex(n, e.elementType), e)
  {
    hide ProjectIndex, ElementDiffs, Pair;
    var a, b := ProjectIndex(o, e.elementType), ProjectIndex(n, e.elementType);
    assert a.Keys == b.Keys;
    if e.kind == Modified && e.oldPath in a {
      assert Unchanged(o, n, e.elementType, e.oldPath);
    }
  }

  lemma NoAmbiguity(o: ParsedProject, n: ParsedProject, t: ElementType)
    requires ProjectIndex(o, t).Keys == ProjectIndex(n, t).Keys
    ensures forall key :: !AmbiguousKey(ProjectIndex(o, t), ProjectIndex(n, t), key)
  {
    hide ProjectIndex, SecondaryKey;
  }

  /** A project does not differ from itself. */
  lemma SelfDiffIsEmpty(project: ParsedProject, entries: seq<DiffEntry>, diagnostics: seq<DiffDiagnostic>)
    requires IsDiff(project, project, entries, diagnostics)
    ensures entries == [] && diagnostics == []
  {
    hide IsDiff, ProjectIndex, ElementDiffs;
    forall t, p | p in ProjectIndex(project, t) ensures Unchanged(project, project, t, p) {
      ElementSame(ProjectIndex(project, t)[p]);
    }
    NothingToReport(project, project, entries, diagnostics);
  }

  // ----- the mirror law -----

  /** An entry up to the order of its field diffs. */
  datatype EntryBag = EntryBag(kind: DiffKind, elementType: ElementType, oldPath: string, newPath: string,
                               diffs: multiset<FieldDiff>)

  function BagOf(e: DiffEntry): EntryBag {
    EntryBag(e.kind, e.elementType, e.oldPath, e.newPath, multiset(e.fieldDiffs))
  }

  function MirrorKind(kind: DiffKind): DiffKind {
    match kind
    case Added => Removed
    case Removed => Added
    case other => other
  }

  /** The entry seen from the other side: kinds, paths and values swapped. */
  function MirrorBag(e: DiffEntry): EntryBag {
    EntryBag(MirrorKind(e.kind), e.elementType, e.newPath, e.oldPath, multiset(SwapAll(e.fieldDiffs)))
  }

  lemma PairMirror(a: Index, b: Index, p: string, q: string)
    requires Pair(a, b, p, q)
    ensures Pair(b, a, q, p)
  {
    hide SecondaryKey;
    PairEnds(a, b, p, q);
  }

  /** Every reported entry has its mirror image in the opposite report. */
  lemma CoreMirror(a: Index, b: Index, e: DiffEntry) returns (m: DiffEntry)
    requires Core(a, b, e)
    ensures Core(b, a, m) && m.elementType == e.elementType && BagOf(m) == MirrorBag(e)
  {
    hide ElementDiffs, Pair;
    var t := e.elementType;
    forall p | Pair(b, a, p, e.oldPath) ensures MovesAway(a, b, e.oldPath) {
      PairMirror(b, a, p, e.oldPath);
    }
    forall q | Pair(b, a, e.newPath, q) ensures MovesHere(a, b, e.newPath) {
      PairMirror(b, a, e.newPath, q);
    }
    match e.kind
    case Removed =>
      m := DiffEntry(Added, t, "", e.oldPath, []);
    case Added =>
      m := DiffEntry(Removed, t, e.newPath, "", []);
    case Modified =>
      ElementMirror(a[e.oldPath], b[e.newPath]);
      m := DiffEntry(Modified, t, e.newPath, e.oldPath, ElementDiffs(b[e.newPath], a[e.oldPath]));
      SameSize(e.fieldDiffs, m.fieldDiffs);
    case Moved =>
      PairMirror(a, b, e.oldPath, e.newPath);
      ElementMirror(a[e.oldPath], b[e.newPath]);
      m := DiffEntry(Moved, t, e.newPath, e.oldPath, ElementDiffs(b[e.newPath], a[e.oldPath]));
  }

  lemma MirrorEntry(o: ParsedProject, n: ParsedProject, e: DiffEntry) returns (m: DiffEntry)
    requires Reported(o, n, e)
    ensures Reported(n, o, m) && BagOf(m) == MirrorBag(e)
  {
    hide Reported, Core, ProjectIndex, SwapAll;
    ReportedIsCore(o, n, e);
    m := CoreMirror(ProjectIndex(o, e.elementType), ProjectIndex(n, e.elementType), e);
    ReportedIsCore(n, o, m);
  }

  lemma SameSize(a: seq<FieldDiff>, b: seq<FieldDiff>)
    requires Mirrored(a, b) && a != []
    ensures b != []
  {
    assert |multiset(b)| == |multiset(SwapAll(a))| == |a|;
  }

  lemma SameCorner(o: ParsedProject, n: ParsedProject, e: DiffEntry, f: DiffEntry)
    requires Reported(o, n, e) && Reported(o, n, f)
    requires e.kind == f.kind && e.elementType == f.elementType && e.oldPath == f.oldPath && e.newPath == f.newPath
    ensures e == f
  {
    hide ProjectIndex, ElementDiffs, MovedBy;
  }

  lemma BagsTellApart(o: ParsedProject, n: ParsedProject, e: DiffEntry, f: DiffEntry)
    requires Reported(o, n, e) && Reported(o, n, f) && BagOf(e) == BagOf(f)
    ensures e == f
  {
    hide Reported;
    SameCorner(o, n, e, f);
  }

  lemma MirrorBagsTellApart(o: ParsedProject, n: ParsedProject, e: DiffEntry, f: DiffEntry)
    requires Reported(o, n, e) && Reported(o, n, f) && MirrorBag(e) == MirrorBag(f)
    ensures e == f
  {
    hide Reported, SwapAll;
    SameCorner(o, n, e, f);
  }

  /**
    Diffing the other way round gives the mirror image: as multisets, the
    entries of one report are the mirrored entries of the other.
   */
  lemma MirrorLaw(o: ParsedProject, n: ParsedProject, there: seq<DiffEntry>, d1: seq<DiffDiagnostic>,
                  back: seq<DiffEntry>, d2: seq<DiffDiagnostic>)
    requires IsDiff(o, n, there, d1) && IsDiff(n, o, back, d2)
    ensures multiset(MapSeq(back, BagOf)) == multiset(MapSeq(there, MirrorBag))
  {
    ReportIsExact(o, n, there, d1);
    ReportIsExact(n, o, back, d2);
    hide IsDiff, Reported, SwapAll, BagOf, MirrorBag;
    BagsListed(n, o, back);
    MirrorBagsListed(o, n, there);
    forall v ensures v in MapSeq(back, BagOf) <==> v in MapSeq(there, MirrorBag) {
      MirrorMembers(o, n, there, back, v);
    }
    SameListing(MapSeq(back, BagOf), MapSeq(there, MirrorBag));
  }

  lemma BagsListed(o: ParsedProject, n: ParsedProject, entries: seq<DiffEntry>)
    requires NoDuplicates(entries) && forall e <- entries :: Reported(o, n, e)
    ensures NoDuplicates(MapSeq(entries, BagOf))
    ensures forall v :: v in MapSeq(entries, BagOf) <==> exists e :: e in entries && BagOf(e) == v
  {
    hide Reported, BagOf;
    forall e, f | e in entries && f in entries && BagOf(e) == BagOf(f) ensures e == f {
      BagsTellApart(o, n, e, f);
    }
    MapListing(entries, BagOf);
  }

  lemma MirrorBagsListed(o: ParsedProject, n: ParsedProject, entries: seq<DiffEntry>)
    requires NoDuplicates(entries) && forall e <- entries :: Reported(o, n, e)
    ensures NoDuplicates(MapSeq(entries, MirrorBag))
    ensures forall v :: v in MapSeq(entries, MirrorBag) <==> exists e :: e in entries && MirrorBag(e) == v
  {
    hide Reported, MirrorBag;
    forall e, f | e in entries && f in entries && MirrorBag(e) == MirrorBag(f) ensures e == f {
      MirrorBagsTellApart(o, n, e, f);
    }
    MapListing(entries, MirrorBag);
  }

  lemma MirrorMembers(o: ParsedProject, n: ParsedProject, there: seq<DiffEntry>, back: seq<DiffEntry>, v: EntryBag)
    requires (forall e :: e in there <==> Reported(o, n, e)) && (forall e :: e in back <==> Reported(n, o, e))
    ensures (exists e :: e in back && BagOf(e) == v) <==> (exists e :: e in there && MirrorBag(e) == v)
  {
    hide Reported, SwapAll, BagOf, MirrorBag;
    if e :| e in back && BagOf(e) == v {
      var m := MirrorEntry(n, o, e);
      MirrorTwice(m, e);
      assert m in there;
    }
    if e :| e in there && MirrorBag(e) == v {
      var m := MirrorEntry(o, n, e);
      assert m in back;
    }
  }

  /** Mapping a listing by something that tells its items apart gives a listing. */
  lemma MapListing<T(!new), U>(s: seq<T>, f: T -> U)
    requires NoDuplicates(s) && forall a, b :: a in s && b in s && f(a) == f(b) ==> a == b
    ensures NoDuplicates(MapSeq(s, f))
    ensures forall v :: v in MapSeq(s, f) <==> exists a :: a in s && f(a) == v
  {
    var r := MapSeq(s, f);
    forall i, j | 0 <= i < j < |r| ensures r[i] != r[j] {
      assert s[i] in s && s[j] in s && s[i] != s[j];
    }
    forall v ensures v in r <==> exists a :: a in s && f(a) == v {
      if v in r {
        var i :| 0 <= i < |r| && r[i] == v;
        assert s[i] in s && f(s[i]) == v;
      }
      if a :| a in s && f(a) == v {
        var i :| 0 <= i < |s| && s[i] == a;
        assert r[i] == v;
      }
    }
  }

  /** Mirroring twice is where one started. */
  lemma MirrorTwice(m: DiffEntry, e: DiffEntry)
    requires BagOf(m) == MirrorBag(e)
    ensures MirrorBag(m) == BagOf(e)
  {
    SwapRespectsMultisets(m.fieldDiffs, SwapAll(e.fieldDiffs));
    SwapTwice(e.fieldDiffs);
  }

  lemma {:induction false} SwapTwice(diffs: seq<FieldDiff>)
    ensures SwapAll(SwapAll(diffs)) == diffs
  {
    if diffs != [] {
      SwapTwice(diffs[1..]);
      assert SwapAll(diffs)[1..] == SwapAll(diffs[1..]);
    }
  }

  lemma {:induction false} SwapCounts(diffs: seq<FieldDiff>, d: FieldDiff)
    ensures multiset(SwapAll(diffs))[d] == multiset(diffs)[Swap(d)]
  {
    if diffs != [] {
      SwapCounts(diffs[1..], d);
      assert diffs == [diffs[0]] + diffs[1..];
    }
  }

  lemma SwapRespectsMultisets(a: seq<FieldDiff>, b: seq<FieldDiff>)
    requires multiset(a) == multiset(b)
    ensures multiset(SwapAll(a)) == multiset(SwapAll(b))
  {
    forall d ensures multiset(SwapAll(a))[d] == multiset(SwapAll(b))[d] {
      SwapCounts(a, d);
      SwapCounts(b, d);
    }
  }
}
