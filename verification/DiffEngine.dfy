/** The diff pipeline: match, detect moves, fill in field diffs, sort. */
module DiffEngine {
  import opened Wrappers
  import opened Model
  import opened DiffReport
  import opened DiffMatch
  import opened DiffFields
  import opened DiffMoves
  import opened Sorting

  // ----- the stages as functions of the two projects -----

  /** The entries after detecting moves of the first k types. */
  function MovedEntries(o: ParsedProject, n: ParsedProject, k: nat): seq<DiffEntry>
    requires k <= |TYPES|
  {
    if k == 0 then MatchedTypes(o, n, |TYPES|)
    else
      var t := TYPES[k - 1];
      Outcome(ProjectIndex(o, t), ProjectIndex(n, t), t, MovedEntries(o, n, k - 1))
  }

  function MovedDiagnostics(o: ParsedProject, n: ParsedProject, k: nat): seq<DiffDiagnostic>
    requires k <= |TYPES|
  {
    if k == 0 then []
    else
      var t := TYPES[k - 1];
      MovedDiagnostics(o, n, k - 1)
      + NewDiagnostics(ProjectIndex(o, t), ProjectIndex(n, t), t, MovedEntries(o, n, k - 1))
  }

  /** The field diffs of an entry with both paths; nothing when either side has no such element. */
  function DiffPair(o: ParsedProject, n: ParsedProject, e: DiffEntry): seq<FieldDiff> {
    var oldIndex, newIndex := ProjectIndex(o, e.elementType), ProjectIndex(n, e.elementType);
    if e.oldPath in oldIndex && e.newPath in newIndex
    then ElementDiffs(oldIndex[e.oldPath], newIndex[e.newPath])
    else []
  }

  /** Removed and added entries stay; a match without differences is dropped; a move is kept regardless. */
  function PopulatedEntry(o: ParsedProject, n: ParsedProject, e: DiffEntry): seq<DiffEntry> {
    if e.kind != Modified && e.kind != Moved then [e]
    else
      var diffs := DiffPair(o, n, e);
      if e.kind == Moved || diffs != [] then [e.(fieldDiffs := diffs)] else []
  }

  function Populated(o: ParsedProject, n: ParsedProject, entries: seq<DiffEntry>): seq<DiffEntry> {
    if entries == [] then []
    else
      Populated(o, n, entries[..|entries| - 1]) + PopulatedEntry(o, n, entries[|entries| - 1])
  }

  /** A possible outcome of the pipeline: its last step is an unstable sort. */
  ghost predicate IsDiff(o: ParsedProject, n: ParsedProject, entries: seq<DiffEntry>,
                         diagnostics: seq<DiffDiagnostic>) {
    && SortOf(entries, Populated(o, n, MovedEntries(o, n, |TYPES|)), EntryLeq)
    && SortOf(diagnostics, MovedDiagnostics(o, n, |TYPES|), DiagnosticLeq)
  }

  // ----- the stages as the engine runs them -----

  method DetectMoves(o: ParsedProject, n: ParsedProject, report: Report, t: ElementType)
    modifies report
    ensures report.entries == Outcome(ProjectIndex(o, t), ProjectIndex(n, t), t, old(report.entries))
    ensures report.diagnostics == old(report.diagnostics)
      + NewDiagnostics(ProjectIndex(o, t), ProjectIndex(n, t), t, old(report.entries))
  {
    hide Outcome, NewDiagnostics;
    var oldElements := CollectElements(o, t);
    var newElements := CollectElements(n, t);
    var oldIndex := IndexByPath(oldElements);
    var newIndex := IndexByPath(newElements);
    DetectMovesForType(oldIndex, newIndex, report, t);
  }

  /** Any entries after detecting moves of the first k types, and the diagnostics that come with it. */
  function Detected(o: ParsedProject, n: ParsedProject, start: seq<DiffEntry>,
                    k: nat): (seq<DiffEntry>, seq<DiffDiagnostic>)
    requires k <= |TYPES|
  {
    if k == 0 then (start, [])
    else
      var t := TYPES[k - 1];
      var (entries, diagnostics) := Detected(o, n, start, k - 1);
      (Outcome(ProjectIndex(o, t), ProjectIndex(n, t), t, entries),
       diagnostics + NewDiagnostics(ProjectIndex(o, t), ProjectIndex(n, t), t, entries))
  }

  lemma {:induction false} DetectedFromMatches(o: ParsedProject, n: ParsedProject, k: nat)
    requires k <= |TYPES|
    ensures Detected(o, n, MatchedTypes(o, n, |TYPES|), k) == (MovedEntries(o, n, k), MovedDiagnostics(o, n, k))
  {
    hide Outcome, NewDiagnostics, MatchedTypes, ProjectIndex;
    if k > 0 {
      DetectedFromMatches(o, n, k - 1);
    }
  }

  method ApplyMoveDetection(o: ParsedProject, n: ParsedProject, report: Report)
    modifies report
    ensures report.entries == Detected(o, n, old(report.entries), |TYPES|).0
    ensures report.diagnostics == old(report.diagnostics) + Detected(o, n, old(report.entries), |TYPES|).1
  {
    hide Outcome, NewDiagnostics, MatchedTypes, ProjectIndex;
    ghost var start, before := report.entries, report.diagnostics;
    DetectMoves(o, n, report, ClusterType);
    assert report.entries == Detected(o, n, start, 1).0 && report.diagnostics == before + Detected(o, n, start, 1).1;
    DetectMoves(o, n, report, EcuInstanceType);
    assert report.entries == Detected(o, n, start, 2).0 && report.diagnostics == before + Detected(o, n, start, 2).1;
    DetectMoves(o, n, report, FrameType);
    assert report.entries == Detected(o, n, start, 3).0 && report.diagnostics == before + Detected(o, n, start, 3).1;
    DetectMoves(o, n, report, PduType);
    assert report.entries == Detected(o, n, start, 4).0 && report.diagnostics == before + Detected(o, n, start, 4).1;
    DetectMoves(o, n, report, SignalType);
    assert report.entries == Detected(o, n, start, 5).0 && report.diagnostics == before + Detected(o, n, start, 5).1;
    DetectMoves(o, n, report, SignalGroupType);
    assert report.entries == Detected(o, n, start, 6).0 && report.diagnostics == before + Detected(o, n, start, 6).1;
  }

  method FieldDiffsOf(o: ParsedProject, n: ParsedProject, e: DiffEntry) returns (diffs: seq<FieldDiff>)
    ensures diffs == DiffPair(o, n, e)
  {
    hide ElementDiffs;
    var oldElements := CollectElements(o, e.elementType);
    var newElements := CollectElements(n, e.elementType);
    var oldIndex := IndexByPath(oldElements);
    var newIndex := IndexByPath(newElements);
    if e.oldPath in oldIndex && e.newPath in newIndex {
      diffs := DiffElements(oldIndex[e.oldPath], newIndex[e.newPath]);
    } else {
      diffs := [];
    }
  }

  method PopulateFieldDiffs(o: ParsedProject, n: ParsedProject, report: Report)
    modifies report
    ensures report.entries == Populated(o, n, old(report.entries))
    ensures report.diagnostics == old(report.diagnostics)
  {
    hide DiffPair;
    var kept := [];
    for i := 0 to |report.entries|
      invariant report.entries == old(report.entries) && report.diagnostics == old(report.diagnostics)
      invariant kept == Populated(o, n, report.entries[..i])
    {
      assert report.entries[..i + 1][..i] == report.entries[..i];
      var entry := report.entries[i];
      if entry.kind != Modified && entry.kind != Moved {
        kept := kept + [entry];
        continue;
      }
      var diffs := FieldDiffsOf(o, n, entry);
      entry := entry.(fieldDiffs := diffs);
      if entry.kind == Moved || entry.fieldDiffs != [] {
        kept := kept + [entry];
      }
    }
    assert report.entries[..|report.entries|] == report.entries;
    report.entries := kept;
  }

  method Diff(o: ParsedProject, n: ParsedProject) returns (report: Report)
    ensures fresh(report)
    ensures IsDiff(o, n, report.entries, report.diagnostics)
  {
    hide Populated, MovedEntries, MovedDiagnostics, MatchedTypes, Detected, SortOf;
    report := MatchParsedProjects(o, n);
    DetectedFromMatches(o, n, |TYPES|);
    ApplyMoveDetection(o, n, report);
    assert report.diagnostics == MovedDiagnostics(o, n, |TYPES|);
    PopulateFieldDiffs(o, n, report);
    report.SortDeterministically();
  }
}
