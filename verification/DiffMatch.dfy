/** Path-based matching: one index per element type and side, compared key by key. */
module DiffMatch {
  import opened Wrappers
  import opened Model
  import opened DiffReport
  import opened Sorting
  import opened Text

  type Index = map<string, Element>

  function DiffPathForShortName(shortName: string): string {
    if shortName == "" then "" else "/" + shortName
  }

  function PathOf(e: Element): string {
    DiffPathForShortName(e.Common().shortName)
  }

  /** All records of one type, file by file. */
  function CollectAll(project: ParsedProject, t: ElementType): (r: seq<Element>)
    ensures forall e <- r :: HasType(e, t)
  {
    FilesElements(project.files, t)
  }

  function FilesElements(files: seq<ParsedFile>, t: ElementType): (r: seq<Element>)
    ensures forall e <- r :: HasType(e, t)
  {
    if files == [] then []
    else FilesElements(files[..|files| - 1], t) + FileElements(files[|files| - 1], t)
  }

  method CollectElements(project: ParsedProject, t: ElementType) returns (all: seq<Element>)
    ensures all == CollectAll(project, t)
  {
    all := [];
    for i := 0 to |project.files|
      invariant all == FilesElements(project.files[..i], t)
    {
      assert project.files[..i + 1][..i] == project.files[..i];
      all := all + FileElements(project.files[i], t);
    }
    assert project.files[..|project.files|] == project.files;
  }

  /** The index of a list: nameless elements left out, the first of each path kept. */
  function IndexOf(elements: seq<Element>): Index {
    if elements == [] then map[]
    else
      var front := IndexOf(elements[..|elements| - 1]);
      var last := elements[|elements| - 1];
      if PathOf(last) == "" || PathOf(last) in front then front else front[PathOf(last) := last]
  }

  method IndexByPath(elements: seq<Element>) returns (index: Index)
    ensures index == IndexOf(elements)
  {
    index := map[];
    for i := 0 to |elements|
      invariant index == IndexOf(elements[..i])
    {
      assert elements[..i + 1][..i] == elements[..i];
      var path := PathOf(elements[i]);
      if path == "" {
        continue;
      }
      if path !in index {
        index := index[path := elements[i]];
      }
    }
    assert elements[..|elements|] == elements;
  }

  /** An index entry is the first element with its path, and every named path has one. */
  lemma {:induction false} IndexHoldsFirst(elements: seq<Element>, path: string)
    ensures path in IndexOf(elements) <==> path != "" && exists e <- elements :: PathOf(e) == path
    ensures path in IndexOf(elements) ==>
      exists i :: 0 <= i < |elements| && elements[i] == IndexOf(elements)[path] && PathOf(elements[i]) == path
        && forall j :: 0 <= j < i ==> PathOf(elements[j]) != path
  {
    hide PathOf;
    if elements != [] {
      var front, last := elements[..|elements| - 1], elements[|elements| - 1];
      IndexHoldsFirst(front, path);
      assert elements == front + [last];
      if path in IndexOf(front) {
        var i :| 0 <= i < |front| && front[i] == IndexOf(front)[path] && PathOf(front[i]) == path
          && forall j :: 0 <= j < i ==> PathOf(front[j]) != path;
        assert elements[i] == IndexOf(elements)[path];
        assert forall j :: 0 <= j < i ==> PathOf(elements[j]) != path by {
          forall j | 0 <= j < i ensures PathOf(elements[j]) != path {
            assert elements[j] == front[j];
          }
        }
      } else if path in IndexOf(elements) {
        var i := |front|;
        assert elements[i] == IndexOf(elements)[path] && PathOf(elements[i]) == path;
        assert forall j :: 0 <= j < i ==> PathOf(elements[j]) != path by {
          forall j | 0 <= j < i ensures PathOf(elements[j]) != path {
            assert elements[j] == front[j] && front[j] in front;
          }
        }
      }
    }
  }

  function ProjectIndex(project: ParsedProject, t: ElementType): Index {
    IndexOf(CollectAll(project, t))
  }

  // ----- matching two indexes -----

  /** The entry one path gives rise to in the pass of each kind. */
  function EntryFor(kind: DiffKind, t: ElementType, path: string): DiffEntry {
    match kind
    case Removed => DiffEntry(Removed, t, path, "", [])
    case Added => DiffEntry(Added, t, "", path, [])
    case _ => DiffEntry(kind, t, path, path, [])
  }

  /** Removed and Added are for paths the other side lacks, Modified for paths it has. */
  predicate Reports(kind: DiffKind, path: string, other: Index) {
    if kind == Modified then path in other else path !in other
  }

  /** The entries a pass over the keys of one side pushes. */
  function Pass(kind: DiffKind, t: ElementType, keys: seq<string>, other: Index): seq<DiffEntry> {
    if keys == [] then []
    else
      var last := keys[|keys| - 1];
      Pass(kind, t, keys[..|keys| - 1], other) + if Reports(kind, last, other) then [EntryFor(kind, t, last)] else []
  }

  /** Removed paths, then added ones, then those on both sides, each in path order. */
  function MatchEntries(o: Index, n: Index, t: ElementType): seq<DiffEntry> {
    Pass(Removed, t, Ascending(o.Keys), n)
    + Pass(Added, t, Ascending(n.Keys), o)
    + Pass(Modified, t, Ascending(o.Keys), n)
  }

  lemma PassStep(kind: DiffKind, t: ElementType, keys: seq<string>, other: Index, i: nat)
    requires i < |keys|
    ensures Pass(kind, t, keys[..i + 1], other) ==
      Pass(kind, t, keys[..i], other) + if Reports(kind, keys[i], other) then [EntryFor(kind, t, keys[i])] else []
  {
    assert keys[..i + 1][..i] == keys[..i];
  }

  /** One of the three loops of MatchByPath. */
  method PushPass(report: Report, kind: DiffKind, t: ElementType, keys: seq<string>, other: Index)
    modifies report
    ensures report.entries == old(report.entries) + Pass(kind, t, keys, other)
    ensures report.diagnostics == old(report.diagnostics)
  {
    for i := 0 to |keys|
      invariant report.entries == old(report.entries) + Pass(kind, t, keys[..i], other)
      invariant report.diagnostics == old(report.diagnostics)
    {
      PassStep(kind, t, keys, other, i);
      if Reports(kind, keys[i], other) {
        report.entries := report.entries + [EntryFor(kind, t, keys[i])];
      }
    }
    assert keys[..|keys|] == keys;
  }

  method MatchByPath(o: Index, n: Index, t: ElementType) returns (report: Report)
    ensures fresh(report)
    ensures report.entries == MatchEntries(o, n, t) && report.diagnostics == []
  {
    hide Pass, Ascending;
    report := new Report();
    PushPass(report, Removed, t, Ascending(o.Keys), n);
    PushPass(report, Added, t, Ascending(n.Keys), o);
    PushPass(report, Modified, t, Ascending(o.Keys), n);
  }

  const TYPES: seq<ElementType> := [ClusterType, EcuInstanceType, FrameType, PduType, SignalType, SignalGroupType]

  /** The six matching passes, merged; the first k types done. */
  function MatchedTypes(o: ParsedProject, n: ParsedProject, k: nat): seq<DiffEntry>
    requires k <= |TYPES|
  {
    if k == 0 then []
    else
      var t := TYPES[k - 1];
      MatchedTypes(o, n, k - 1) + MatchEntries(ProjectIndex(o, t), ProjectIndex(n, t), t)
  }

  method MatchType(o: ParsedProject, n: ParsedProject, t: ElementType, report: Report)
    modifies report
    ensures report.entries == old(report.entries) + MatchEntries(ProjectIndex(o, t), ProjectIndex(n, t), t)
    ensures report.diagnostics == old(report.diagnostics)
  {
    var oldElements := CollectElements(o, t);
    var newElements := CollectElements(n, t);
    var oldIndex := IndexByPath(oldElements);
    var newIndex := IndexByPath(newElements);
    var one := MatchByPath(oldIndex, newIndex, t);
    report.Merge(one);
  }

  method MatchParsedProjects(o: ParsedProject, n: ParsedProject) returns (report: Report)
    ensures fresh(report)
    ensures report.entries == MatchedTypes(o, n, |TYPES|) && report.diagnostics == []
  {
    hide MatchEntries, ProjectIndex;
    report := new Report();
    MatchType(o, n, ClusterType, report);
    assert report.entries == MatchedTypes(o, n, 1);
    MatchType(o, n, EcuInstanceType, report);
    assert report.entries == MatchedTypes(o, n, 2);
    MatchType(o, n, FrameType, report);
    assert report.entries == MatchedTypes(o, n, 3);
    MatchType(o, n, PduType, report);
    assert report.entries == MatchedTypes(o, n, 4);
    MatchType(o, n, SignalType, report);
    assert report.entries == MatchedTypes(o, n, 5);
    MatchType(o, n, SignalGroupType, report);
    assert report.entries == MatchedTypes(o, n, 6);
  }
}
