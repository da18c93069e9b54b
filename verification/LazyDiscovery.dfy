/**
  Lazy project discovery: starting from entry files, candidates that define a
  missing name are parsed in, round by round, until nothing is missing,
  nothing can be found, or the round limit is reached.
 */
module LazyDiscovery {
  import opened Wrappers
  import opened Model
  import opened PreFilter
  import opened References
  import opened Sorting
  import opened Text

  /** What a path holds, fixed while discovery runs: raw bytes ("" when unreadable) and the parse outcome. */
  datatype Disk = Disk(bytes: string -> string, parse: string -> Option<ParsedFile>)

  datatype State = State(files: seq<ParsedFile>, parsed: set<string>)

  datatype ExpansionStep = Complete | Advanced | Stuck

  datatype LazyError = EntryFailed(path: string) | DanglingReferences(missing: set<Ref>)

  const MAX_LAZY_ITERATIONS := 50

  // ----- one round -----

  /** The cheap text check; an unreadable file is left for the parser to decide. */
  predicate CandidateDefinesAny(disk: Disk, path: string, wanted: set<Ref>) {
    disk.bytes(path) == "" || exists r <- wanted :: RawDefines(disk.bytes(path), r.name)
  }

  predicate DefinesWanted(file: ParsedFile, wanted: set<Ref>) {
    exists d <- FileDefs(file) :: d in wanted
  }

  /** The candidate passes the filter, parses, and really defines a wanted name. */
  predicate Pulls(disk: Disk, wanted: set<Ref>, path: string) {
    CandidateDefinesAny(disk, path, wanted) && disk.parse(path).Some? && DefinesWanted(disk.parse(path).value, wanted)
  }

  /** The candidates a round parses in, in order, each once. */
  function Pulled(disk: Disk, wanted: set<Ref>, parsed: set<string>, candidates: seq<string>): seq<string> {
    if candidates == [] then []
    else
      var front, last := Pulled(disk, wanted, parsed, candidates[..|candidates| - 1]), candidates[|candidates| - 1];
      if last !in parsed && last !in front && Pulls(disk, wanted, last) then front + [last] else front
  }

  function FileAt(disk: Disk): string -> ParsedFile {
    path => match disk.parse(path) case None => EMPTY_FILE case Some(file) => file
  }

  function ToSet(paths: seq<string>): set<string> {
    set p | p in paths
  }

  function Grown(disk: Disk, s: State, pulled: seq<string>): State {
    State(s.files + MapSeq(pulled, FileAt(disk)), s.parsed + ToSet(pulled))
  }

  function Expand(disk: Disk, s: State, candidates: seq<string>): (ExpansionStep, State) {
    var wanted := Wanted(s.files);
    if wanted == {} then (Complete, s)
    else
      var pulled := Pulled(disk, wanted, s.parsed, candidates);
      (if pulled == [] then Stuck else Advanced, Grown(disk, s, pulled))
  }

  method CandidatePasses(disk: Disk, path: string, wanted: set<Ref>) returns (passes: bool)
    ensures passes == CandidateDefinesAny(disk, path, wanted)
  {
    hide RawDefines;
    var bytes := disk.bytes(path);
    if bytes == "" {
      return true;
    }
    passes := exists r <- wanted :: RawDefines(bytes, r.name);
  }

  lemma GrownByOne(disk: Disk, s: State, pulled: seq<string>, path: string)
    ensures Grown(disk, s, pulled + [path]) ==
      State(Grown(disk, s, pulled).files + [FileAt(disk)(path)], Grown(disk, s, pulled).parsed + {path})
  {
    assert MapSeq(pulled + [path], FileAt(disk)) == MapSeq(pulled, FileAt(disk)) + [FileAt(disk)(path)];
    assert ToSet(pulled + [path]) == ToSet(pulled) + {path};
  }

  lemma PulledStep(disk: Disk, wanted: set<Ref>, parsed: set<string>, candidates: seq<string>, i: nat)
    requires i < |candidates|
    ensures var front := Pulled(disk, wanted, parsed, candidates[..i]);
      Pulled(disk, wanted, parsed, candidates[..i + 1]) ==
      if candidates[i] !in parsed && candidates[i] !in front && Pulls(disk, wanted, candidates[i])
        then front + [candidates[i]] else front
  {
    hide Pulls;
    assert candidates[..i + 1][..i] == candidates[..i];
  }

  method ExpandProjectOnce(disk: Disk, start: State, candidates: seq<string>) returns (step: ExpansionStep, s: State)
    ensures (step, s) == Expand(disk, start, candidates)
  {
    hide Wanted, Pulled, CandidateDefinesAny, DefinesWanted, Grown;
    s := start;
    var wanted := CollectWantedRefs(s.files);
    if wanted == {} {
      return Complete, s;
    }
    var added := false;
    ghost var pulled := [];
    NothingPulled(disk, wanted, start);
    for i := 0 to |candidates|
      invariant pulled == Pulled(disk, wanted, start.parsed, candidates[..i])
      invariant s == Grown(disk, start, pulled) && added == (pulled != [])
    {
      PulledStep(disk, wanted, start.parsed, candidates, i);
      GrownParsed(disk, start, pulled, candidates[i]);
      GrownByOne(disk, start, pulled, candidates[i]);
      if candidates[i] in s.parsed {
        continue;
      }
      var passes := CandidatePasses(disk, candidates[i], wanted);
      if !passes {
        continue;
      }
      match disk.parse(candidates[i])
      case None => // unparseable candidates are skipped
      case Some(file) =>
        if !DefinesWanted(file, wanted) {
          continue;
        }
        s := State(s.files + [file], s.parsed + {candidates[i]});
        added := true;
        pulled := pulled + [candidates[i]];
    }
    assert candidates[..|candidates|] == candidates;
    return if added then Advanced else Stuck, s;
  }

  lemma NothingPulled(disk: Disk, wanted: set<Ref>, s: State)
    ensures Pulled(disk, wanted, s.parsed, []) == [] && Grown(disk, s, []) == s
  {
    assert MapSeq([], FileAt(disk)) == [];
    assert ToSet([]) == {};
  }

  lemma GrownParsed(disk: Disk, s: State, pulled: seq<string>, path: string)
    ensures path in Grown(disk, s, pulled).parsed <==> path in s.parsed || path in pulled
  {}

  // ----- the rounds -----

  /** At most n rounds. */
  function Rounds(disk: Disk, s: State, candidates: seq<string>, n: nat): State
    decreases n
  {
    if n == 0 then s
    else
      var (step, next) := Expand(disk, s, candidates);
      if step == Advanced then Rounds(disk, next, candidates, n - 1) else next
  }

  function EntriesState(disk: Disk, entries: seq<string>): State {
    State(MapSeq(entries, FileAt(disk)), ToSet(entries))
  }

  /** The outcome with a given round limit. */
  function Discover(disk: Disk, entries: seq<string>, candidates: seq<string>, limit: nat): Result<seq<ParsedFile>,
      LazyError> {
    match FirstFailure(disk, entries)
    case Some(path) => Err(EntryFailed(path))
    case None =>
      var files := Rounds(disk, EntriesState(disk, entries), candidates, limit).files;
      if Wanted(files) == {} then Ok(files) else Err(DanglingReferences(Wanted(files)))
  }

  function FirstFailure(disk: Disk, entries: seq<string>): Option<string> {
    if entries == [] then None
    else if disk.parse(entries[0]).None? then Some(entries[0])
    else FirstFailure(disk, entries[1..])
  }

  method ParseEntries(disk: Disk, entries: seq<string>) returns (result: Result<State, LazyError>)
    ensures result == match FirstFailure(disk, entries)
                      case Some(path) => Err(EntryFailed(path))
                      case None => Ok(EntriesState(disk, entries))
  {
    var s := State([], {});
    for i := 0 to |entries|
      invariant FirstFailure(disk, entries) == FirstFailure(disk, entries[i..])
      invariant s == EntriesState(disk, entries[..i])
    {
      assert entries[i..][1..] == entries[i + 1..];
      assert entries[..i + 1] == entries[..i] + [entries[i]];
      match disk.parse(entries[i])
      case None => return Err(EntryFailed(entries[i]));
      case Some(file) => s := State(s.files + [file], s.parsed + {entries[i]});
    }
    assert entries[..|entries|] == entries;
    return Ok(s);
  }

  method ParseProjectLazy(disk: Disk, entries: seq<string>, candidates: seq<string>)
      returns (result: Result<seq<ParsedFile>, LazyError>)
    ensures result == Discover(disk, entries, candidates, MAX_LAZY_ITERATIONS)
  {
    hide Expand, Wanted, FirstFailure, EntriesState;
    var parsedEntries := ParseEntries(disk, entries);
    if parsedEntries.Err? {
      return Err(parsedEntries.error);
    }
    var s := parsedEntries.value;
    ghost var start := s;
    var iteration := 0;
    while iteration < MAX_LAZY_ITERATIONS
      invariant iteration <= MAX_LAZY_ITERATIONS
      invariant Rounds(disk, start, candidates, MAX_LAZY_ITERATIONS) ==
        Rounds(disk, s, candidates, MAX_LAZY_ITERATIONS - iteration)
    {
      var step;
      step, s := ExpandProjectOnce(disk, s, candidates);
      if step != Advanced {
        break;
      }
      iteration := iteration + 1;
    }
    assert s == Rounds(disk, start, candidates, MAX_LAZY_ITERATIONS);
    var missing := CollectWantedRefs(s.files);
    return if missing == {} then Ok(s.files) else Err(DanglingReferences(missing));
  }

  // ----- what a round pulls in -----

  lemma {:induction false} PulledMembers(disk: Disk, wanted: set<Ref>, parsed: set<string>, candidates: seq<string>,
                                         path: string)
    ensures path in Pulled(disk, wanted, parsed, candidates)
      <==> path in candidates && path !in parsed && Pulls(disk, wanted, path)
  {
    hide Pulls;
    if candidates != [] {
      PulledMembers(disk, wanted, parsed, candidates[..|candidates| - 1], path);
      assert candidates == candidates[..|candidates| - 1] + [candidates[|candidates| - 1]];
    }
  }

  lemma {:induction false} PulledOnce(disk: Disk, wanted: set<Ref>, parsed: set<string>, candidates: seq<string>)
    ensures NoDuplicates(Pulled(disk, wanted, parsed, candidates))
  {
    hide Pulls;
    if candidates != [] {
      PulledOnce(disk, wanted, parsed, candidates[..|candidates| - 1]);
    }
  }

  // ----- order independence -----

  ghost predicate SameCandidates(c: seq<string>, d: seq<string>) {
    forall p :: p in c <==> p in d
  }

  /** The same paths parsed, the same files held, in whatever order. */
  ghost predicate SameState(s: State, t: State) {
    s.parsed == t.parsed && multiset(s.files) == multiset(t.files)
  }

  lemma SameFilesSameWanted(f: seq<ParsedFile>, g: seq<ParsedFile>)
    requires multiset(f) == multiset(g)
    ensures Wanted(f) == Wanted(g)
  {
    hide FileRefs, FileDefs, Unresolved, AllRefs, AllDefs;
    forall file ensures file in f <==> file in g {
      InMultiset(f, file);
      InMultiset(g, file);
    }
    forall x ensures x in Known(f) <==> x in Known(g) {
      AllDefsMembers(f, x);
      AllDefsMembers(g, x);
    }
    forall x ensures x in Wanted(f) <==> x in Wanted(g) {
      AllRefsMembers(f, x);
      AllRefsMembers(g, x);
      UnresolvedMembers(AllRefs(f), Known(f), x);
      UnresolvedMembers(AllRefs(g), Known(g), x);
    }
  }

  lemma RoundIgnoresOrder(disk: Disk, s: State, t: State, c: seq<string>, d: seq<string>)
    requires SameState(s, t) && SameCandidates(c, d)
    ensures Expand(disk, s, c).0 == Expand(disk, t, d).0 && SameState(Expand(disk, s, c).1, Expand(disk, t, d).1)
  {
    hide Wanted, Pulled, Pulls, MapSeq;
    SameFilesSameWanted(s.files, t.files);
    var wanted := Wanted(s.files);
    var p, q := Pulled(disk, wanted, s.parsed, c), Pulled(disk, wanted, t.parsed, d);
    forall path ensures path in p <==> path in q {
      PulledMembers(disk, wanted, s.parsed, c, path);
      PulledMembers(disk, wanted, t.parsed, d, path);
    }
    PulledOnce(disk, wanted, s.parsed, c);
    PulledOnce(disk, wanted, t.parsed, d);
    SameListing(p, q);
    assert |p| == |multiset(p)| == |multiset(q)| == |q|;
    MapPermuted(p, q, FileAt(disk));
    assert ToSet(p) == ToSet(q);
  }

  lemma {:induction false} RoundsIgnoreOrder(disk: Disk, s: State, t: State, c: seq<string>, d: seq<string>, n: nat)
    requires SameState(s, t) && SameCandidates(c, d)
    ensures SameState(Rounds(disk, s, c, n), Rounds(disk, t, d, n))
    decreases n
  {
    hide Expand, SameState, SameCandidates;
    if n > 0 {
      RoundIgnoresOrder(disk, s, t, c, d);
      if Expand(disk, s, c).0 == Advanced {
        RoundsIgnoreOrder(disk, Expand(disk, s, c).1, Expand(disk, t, d).1, c, d, n - 1);
      }
    }
  }

  /** Candidates in any order, and repeated at will: the same outcome up to the order of files. */
  lemma DiscoveryIgnoresOrder(disk: Disk, entries: seq<string>, c: seq<string>, d: seq<string>, limit: nat)
    requires SameCandidates(c, d)
    ensures match (Discover(disk, entries, c, limit), Discover(disk, entries, d, limit))
            case (Ok(f), Ok(g)) => multiset(f) == multiset(g)
            case (Err(e), Err(e')) => e == e'
            case _ => false
  {
    hide Rounds, Wanted, EntriesState, SameCandidates;
    var s := EntriesState(disk, entries);
    RoundsIgnoreOrder(disk, s, s, c, d, limit);
    SameFilesSameWanted(Rounds(disk, s, c, limit).files, Rounds(disk, s, d, limit).files);
  }

  // ----- progress and the round limit -----

  function Unparsed(s: State, candidates: seq<string>): set<string> {
    set p | p in candidates && p !in s.parsed
  }

  /** An advancing round parses in at least one candidate and drops none. */
  lemma AdvancingShrinks(disk: Disk, s: State, candidates: seq<string>)
    requires Expand(disk, s, candidates).0 == Advanced
    ensures Unparsed(Expand(disk, s, candidates).1, candidates) < Unparsed(s, candidates)
  {
    hide Wanted, Pulled, Pulls;
    var pulled := Pulled(disk, Wanted(s.files), s.parsed, candidates);
    PulledMembers(disk, Wanted(s.files), s.parsed, candidates, pulled[0]);
    assert pulled[0] in Unparsed(s, candidates) && pulled[0] in ToSet(pulled);
  }

  lemma SubsetSize(a: set<string>, b: set<string>)
    requires a < b
    ensures |a| < |b|
  {
    assert b == a + (b - a) && b - a != {};
  }

  /** Once there are as many rounds as unparsed candidates, more change nothing. */
  lemma {:induction false} EnoughRounds(disk: Disk, s: State, candidates: seq<string>, n: nat, m: nat)
    requires |Unparsed(s, candidates)| <= n <= m
    ensures Rounds(disk, s, candidates, n) == Rounds(disk, s, candidates, m)
    decreases n
  {
    hide Expand, Unparsed;
    var (step, next) := Expand(disk, s, candidates);
    if step == Advanced {
      AdvancingShrinks(disk, s, candidates);
      SubsetSize(Unparsed(next, candidates), Unparsed(s, candidates));
      EnoughRounds(disk, next, candidates, n - 1, m - 1);
    } else {
      IdleRound(disk, s, candidates);
    }
  }

  lemma IdleRound(disk: Disk, s: State, candidates: seq<string>)
    requires Expand(disk, s, candidates).0 != Advanced
    ensures Expand(disk, s, candidates).1 == s
  {
    hide Pulled, Wanted;
    NothingPulled(disk, {}, s);
  }

  /** With at most fifty candidates the limit never decides the outcome. */
  lemma LimitIrrelevant(disk: Disk, entries: seq<string>, candidates: seq<string>, limit: nat)
    requires |Unparsed(EntriesState(disk, entries), candidates)| <= MAX_LAZY_ITERATIONS <= limit
    ensures Discover(disk, entries, candidates, MAX_LAZY_ITERATIONS) == Discover(disk, entries, candidates, limit)
  {
    hide Rounds, Wanted, EntriesState, FirstFailure;
    EnoughRounds(disk, EntriesState(disk, entries), candidates, MAX_LAZY_ITERATIONS, limit);
  }

  /** Where enough rounds end, no further round advances. */
  lemma {:induction false} EndsIdle(disk: Disk, s: State, candidates: seq<string>, n: nat)
    requires |Unparsed(s, candidates)| <= n
    ensures Expand(disk, Rounds(disk, s, candidates, n), candidates).0 != Advanced
    decreases n
  {
    hide Expand, Unparsed;
    var (step, next) := Expand(disk, s, candidates);
    if step == Advanced {
      AdvancingShrinks(disk, s, candidates);
      SubsetSize(Unparsed(next, candidates), Unparsed(s, candidates));
      EndsIdle(disk, next, candidates, n - 1);
    } else {
      IdleRound(disk, s, candidates);
    }
  }

  // ----- completeness -----

  /** A normal return means every reference of the five families has a target. */
  lemma SuccessResolves(disk: Disk, entries: seq<string>, candidates: seq<string>, limit: nat)
    requires Discover(disk, entries, candidates, limit).Ok?
    ensures AllResolve(Discover(disk, entries, candidates, limit).value)
  {
    hide Wanted, Rounds, AllResolve, EntriesState;
    NothingWanted(Rounds(disk, EntriesState(disk, entries), candidates, limit).files);
  }

  /** After a failure within the limit no candidate left passes the filter, parses and defines a missing name. */
  lemma NothingLeftToPull(disk: Disk, entries: seq<string>, candidates: seq<string>, path: string)
    requires |Unparsed(EntriesState(disk, entries), candidates)| <= MAX_LAZY_ITERATIONS
    requires Discover(disk, entries, candidates, MAX_LAZY_ITERATIONS).Err?
    requires FirstFailure(disk, entries) == None
    ensures var last := Rounds(disk, EntriesState(disk, entries), candidates, MAX_LAZY_ITERATIONS);
      path in candidates && path !in last.parsed ==> !Pulls(disk, Wanted(last.files), path)
  {
    hide Rounds, Wanted, Pulled, Pulls, EntriesState, FirstFailure, Unparsed;
    var last := Rounds(disk, EntriesState(disk, entries), candidates, MAX_LAZY_ITERATIONS);
    EndsIdle(disk, EntriesState(disk, entries), candidates, MAX_LAZY_ITERATIONS);
    PulledMembers(disk, Wanted(last.files), last.parsed, candidates, path);
  }
}
