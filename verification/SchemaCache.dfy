/**
  The schema cache: one directory of copies, one entry per release and one
  shared import file, filled on a miss and trusted on a hit.
 */
module SchemaCache {
  import opened Wrappers

  /** File names in the cache directory. */
  datatype CacheName = Entry(release: string) | Import

  type Cache = map<CacheName, string>

  /** The source directories in order of precedence; each maps file names to bytes. */
  type Sources = seq<map<string, string>>

  const IMPORT_NAME := "xml.xsd"

  function MainName(release: string): string {
    release + ".xsd"
  }

  /** The first directory that has the release's schema. */
  function FindSource(sources: Sources, release: string): (r: Option<nat>)
    ensures r.Some? ==> r.value < |sources| && MainName(release) in sources[r.value]
    ensures r.Some? ==> forall i :: 0 <= i < r.value ==> MainName(release) !in sources[i]
    ensures r.None? ==> forall i :: 0 <= i < |sources| ==> MainName(release) !in sources[i]
  {
    if sources == [] then None
    else if MainName(release) in sources[0] then Some(0)
    else
      match FindSource(sources[1..], release)
      case None => None
      case Some(i) => Some(i + 1)
  }

  /** What the schema parser sees: the main file and the import next to it. */
  datatype Parsed = Parsed(main: string, imported: Option<string>)

  function Sibling(dir: map<string, string>): Option<string> {
    if IMPORT_NAME in dir then Some(dir[IMPORT_NAME]) else None
  }

  /** Parsing the source directly. */
  function SourceParse(sources: Sources, release: string): Option<Parsed> {
    match FindSource(sources, release)
    case None => None
    case Some(i) => Some(Parsed(sources[i][MainName(release)], Sibling(sources[i])))
  }

  /** Which file operations of one call succeed. */
  datatype Answers = Answers(mainOk: bool, importOk: bool, removeOk: bool)

  datatype Resolution = Unsupported | Resolved(parsed: Parsed, hit: bool)

  function Imported(cache: Cache): Option<string> {
    if Import in cache then Some(cache[Import]) else None
  }

  function CacheParse(cache: Cache, release: string): Parsed
    requires Entry(release) in cache
  {
    Parsed(cache[Entry(release)], Imported(cache))
  }

  /** The entry dropped after a failed write, unless dropping fails too. */
  function Dropped(cache: Cache, release: string, removeOk: bool): Cache {
    if removeOk then cache - {Entry(release)} else cache
  }

  function Resolve(sources: Sources, cache: Cache, release: string, a: Answers): (Cache, Resolution) {
    if Entry(release) in cache then (cache, Resolved(CacheParse(cache, release), true))
    else
      match FindSource(sources, release)
      case None => (cache, Unsupported)
      case Some(i) =>
        var main, sibling := sources[i][MainName(release)], Sibling(sources[i]);
        var direct := Resolved(Parsed(main, sibling), false);
        if !a.mainOk then (Dropped(cache, release, a.removeOk), direct)
        else
          var staged := cache[Entry(release) := main];
          if sibling == None then (staged, Resolved(CacheParse(staged, release), false))
          else if !a.importOk then (Dropped(staged, release, a.removeOk), direct)
          else
            var full := staged[Import := sibling.value];
            (full, Resolved(CacheParse(full, release), false))
  }

  class SchemaRegistry {
    const sources: Sources
    var cache: Cache

    constructor (sources: Sources)
      ensures this.sources == sources && cache == map[]
    {
      this.sources, cache := sources, map[];
    }

    /** A write through the temporary file: the entry is replaced or nothing changes. */
    method WriteCache(name: CacheName, bytes: string, ok: bool) returns (written: bool)
      modifies this
      ensures written == ok && cache == if ok then old(cache)[name := bytes] else old(cache)
    {
      if ok {
        cache := cache[name := bytes];
      }
      return ok;
    }

    method ResolveSchema(release: string, a: Answers) returns (resolution: Resolution)
      modifies this
      ensures (cache, resolution) == Resolve(sources, old(cache), release, a)
    {
      if Entry(release) in cache {
        return Resolved(CacheParse(cache, release), true);
      }
      var source := FindSource(sources, release);
      if source.None? {
        return Unsupported;
      }
      var dir := sources[source.value];
      var main := dir[MainName(release)];
      var written := WriteCache(Entry(release), main, a.mainOk);
      if written && IMPORT_NAME in dir {
        written := WriteCache(Import, dir[IMPORT_NAME], a.importOk);
      }
      if written {
        return Resolved(CacheParse(cache, release), false);
      }
      if a.removeOk {
        cache := cache - {Entry(release)};
      }
      return Resolved(Parsed(main, Sibling(dir)), false);
    }
  }

  // ----- runs -----

  datatype Call = Call(release: string, answers: Answers)

  /** The cache after some calls. */
  function After(sources: Sources, calls: seq<Call>): Cache {
    if calls == [] then map[]
    else
      var last := calls[|calls| - 1];
      Resolve(sources, After(sources, calls[..|calls| - 1]), last.release, last.answers).0
  }

  /** Every directory a release is taken from has the same import, or none has one. */
  ghost predicate SharedImport(sources: Sources) {
    forall i, j :: 0 <= i < |sources| && 0 <= j < |sources| && Supplies(sources, i) && Supplies(sources, j)
      ==> Sibling(sources[i]) == Sibling(sources[j])
  }

  /** Some release is taken from the directory. */
  ghost predicate Supplies(sources: Sources, i: nat) {
    exists release: string :: FindSource(sources, release) == Some(i)
  }

  predicate Removable(calls: seq<Call>) {
    forall c <- calls :: c.answers.removeOk
  }

  /** Entries are copies of their sources, with the import they need beside them. */
  ghost predicate Faithful(sources: Sources, cache: Cache) {
    && (forall release: string :: Entry(release) in cache ==>
          SourceParse(sources, release) == Some(CacheParse(cache, release)))
    && (Import in cache ==> exists i ::
      0 <= i < |sources| && Supplies(sources, i) && Sibling(sources[i]) == Some(cache[Import]))
  }

  lemma ResolveKeepsFaithful(sources: Sources, cache: Cache, release: string, a: Answers)
    requires SharedImport(sources) && Faithful(sources, cache) && a.removeOk
    ensures Faithful(sources, Resolve(sources, cache, release, a).0)
    ensures match SourceParse(sources, release)
            case None => Resolve(sources, cache, release, a).1 == Unsupported
            case Some(parsed) => Resolve(sources, cache, release, a).1 == Resolved(parsed, Entry(release) in cache)
  {
    hide FindSource, MainName;
    if Entry(release) !in cache && FindSource(sources, release).Some? {
      var i := FindSource(sources, release).value;
      SourceBounds(sources, release);
      assert Supplies(sources, i);
      var after := Resolve(sources, cache, release, a).0;
      forall r: string | Entry(r) in after ensures SourceParse(sources, r) == Some(CacheParse(after, r)) {
        SourceBounds(sources, r);
        if r != release {
          var j := FindSource(sources, r).value;
          assert Supplies(sources, j);
        }
      }
    }
  }

  lemma SourceBounds(sources: Sources, release: string)
    ensures FindSource(sources, release).Some? ==>
      FindSource(sources, release).value < |sources| && MainName(release) in sources[FindSource(sources, release).value]
  {}

  lemma {:induction false} RunsKeepFaithful(sources: Sources, calls: seq<Call>)
    requires SharedImport(sources) && Removable(calls)
    ensures Faithful(sources, After(sources, calls))
  {
    hide Resolve, SharedImport, Faithful;
    if calls == [] {
      EmptyIsFaithful(sources);
    } else {
      var last := calls[|calls| - 1];
      assert last in calls;
      RunsKeepFaithful(sources, calls[..|calls| - 1]);
      ResolveKeepsFaithful(sources, After(sources, calls[..|calls| - 1]), last.release, last.answers);
    }
  }

  lemma EmptyIsFaithful(sources: Sources)
    ensures Faithful(sources, map[])
  {}

  /** After any calls, with any writes failing, every further call parses exactly what the source holds. */
  ghost predicate AlwaysAgrees(sources: Sources) {
    forall calls: seq<Call>, release: string, a: Answers :: Removable(calls) && a.removeOk
      ==> Agrees(sources, calls, release, a)
  }

  predicate Agrees(sources: Sources, calls: seq<Call>, release: string, a: Answers) {
    match SourceParse(sources, release)
    case None => Resolve(sources, After(sources, calls), release, a).1 == Unsupported
    case Some(parsed) =>
      Resolve(sources, After(sources, calls), release, a).1 == Resolved(parsed, Entry(release) in After(sources, calls))
  }

  const FINE := Answers(true, true, true)

  /** The cache agrees with its sources on every run exactly when all sources share one import. */
  lemma AgreesIffShared(sources: Sources)
    ensures AlwaysAgrees(sources) <==> SharedImport(sources)
  {
    if SharedImport(sources) {
      hide SharedImport, Resolve, SourceParse, After;
      forall calls: seq<Call>, release: string, a: Answers | Removable(calls) && a.removeOk
        ensures Agrees(sources, calls, release, a) {
        RunsKeepFaithful(sources, calls);
        ResolveKeepsFaithful(sources, After(sources, calls), release, a);
      }
    }
    if AlwaysAgrees(sources) {
      forall i, j | 0 <= i < |sources| && 0 <= j < |sources| && Supplies(sources, i) && Supplies(sources, j)
        ensures Sibling(sources[i]) == Sibling(sources[j])
      {
        var r :| FindSource(sources, r) == Some(i);
        var q :| FindSource(sources, q) == Some(j);
        if r != q {
          ImportsMeet(sources, r, q, i, j);
          ImportsMeet(sources, q, r, j, i);
        }
      }
    }
  }

  lemma TwoCalls(sources: Sources, r: string, q: string)
    ensures var c := Resolve(sources, map[], r, FINE).0;
      After(sources, [Call(r, FINE), Call(q, FINE)]) == Resolve(sources, c, q, FINE).0
  {
    hide Resolve;
    var calls := [Call(r, FINE), Call(q, FINE)];
    var one := [Call(r, FINE)];
    assert one[..0] == [] && After(sources, []) == map[];
    assert After(sources, one) == Resolve(sources, map[], r, FINE).0;
    assert calls[..|calls| - 1] == one;
  }

  /** Two releases resolved one after the other: the first then reads the import of the second. */
  lemma ImportsMeet(sources: Sources, r: string, q: string, i: nat, j: nat)
    requires r != q && FindSource(sources, r) == Some(i) && FindSource(sources, q) == Some(j) && AlwaysAgrees(sources)
    ensures Sibling(sources[j]).Some? ==> Sibling(sources[i]) == Sibling(sources[j])
  {
    var calls := [Call(r, FINE), Call(q, FINE)];
    TwoCalls(sources, r, q);
    hide FindSource, MainName, After;
    SourceBounds(sources, r);
    SourceBounds(sources, q);
    assert Agrees(sources, calls, r, FINE);
  }

  /** A failed removal after a failed import write leaves an entry whose import is missing. */
  lemma FailedRemovalBreaksAgreement(sources: Sources, release: string, i: nat)
    requires FindSource(sources, release) == Some(i) && Sibling(sources[i]).Some?
    ensures !Agrees(sources, [Call(release, Answers(true, false, false))], release, FINE)
  {
    var calls := [Call(release, Answers(true, false, false))];
    hide FindSource, MainName;
    SourceBounds(sources, release);
    assert calls[..0] == [];
    assert After(sources, []) == map[];
  }

  // ----- when a removal may fail as well -----

  ghost predicate NoImports(sources: Sources) {
    forall i :: 0 <= i < |sources| && Supplies(sources, i) ==> Sibling(sources[i]) == None
  }

  /** Entries are copies of their sources, and there is no import. */
  ghost predicate Plain(sources: Sources, cache: Cache) {
    && Import !in cache
    && forall release: string ::
      Entry(release) in cache ==> SourceParse(sources, release) == Some(CacheParse(cache, release))
  }

  lemma ResolveKeepsPlain(sources: Sources, cache: Cache, release: string, a: Answers)
    requires NoImports(sources) && Plain(sources, cache)
    ensures Plain(sources, Resolve(sources, cache, release, a).0)
    ensures match SourceParse(sources, release)
            case None => Resolve(sources, cache, release, a).1 == Unsupported
            case Some(parsed) => Resolve(sources, cache, release, a).1 == Resolved(parsed, Entry(release) in cache)
  {
    hide FindSource, MainName;
    SourceBounds(sources, release);
    if Entry(release) !in cache && FindSource(sources, release).Some? {
      assert Supplies(sources, FindSource(sources, release).value);
    }
  }

  lemma {:induction false} RunsKeepPlain(sources: Sources, calls: seq<Call>)
    requires NoImports(sources)
    ensures Plain(sources, After(sources, calls))
  {
    hide Resolve, NoImports, SourceParse;
    if calls != [] {
      var last := calls[|calls| - 1];
      RunsKeepPlain(sources, calls[..|calls| - 1]);
      ResolveKeepsPlain(sources, After(sources, calls[..|calls| - 1]), last.release, last.answers);
    }
  }

  /** Whatever fails, removals included. */
  ghost predicate AgreesWhateverFails(sources: Sources) {
    forall calls: seq<Call>, release: string, a: Answers :: Agrees(sources, calls, release, a)
  }

  /**
    With removals that may fail, the cache agrees with its sources on every
    run exactly when no directory a release is taken from has an import.
   */
  lemma AgreesWhateverFailsIffNoImports(sources: Sources)
    ensures AgreesWhateverFails(sources) <==> NoImports(sources)
  {
    if NoImports(sources) {
      hide NoImports, Resolve, SourceParse, After, Plain;
      forall calls: seq<Call>, release: string, a: Answers ensures Agrees(sources, calls, release, a) {
        RunsKeepPlain(sources, calls);
        ResolveKeepsPlain(sources, After(sources, calls), release, a);
      }
    }
    if AgreesWhateverFails(sources) {
      hide Agrees, FindSource, MainName;
      forall i | 0 <= i < |sources| && Supplies(sources, i) ensures Sibling(sources[i]) == None {
        var release: string :| FindSource(sources, release) == Some(i);
        if Sibling(sources[i]).Some? {
          FailedRemovalBreaksAgreement(sources, release, i);
        }
      }
    }
  }
}
