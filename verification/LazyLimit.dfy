/**
  The round limit is tight: a chain of documents, each wanting the signal of
  the next, needs as many rounds as it has links.
 */
module LazyLimit {
  import opened Wrappers
  import opened LazyDiscovery
  import opened ChainDocuments
  import opened PreFilter
  import opened Model
  import opened Numbers
  import opened References
  import opened Sorting
  import opened Text

  function Tallies(n: nat): (r: seq<string>)
    ensures |r| == n && forall k :: 0 <= k < n ==> r[k] == Tally(k)
  {
    if n == 0 then [] else Tallies(n - 1) + [Tally(n - 1)]
  }

  function ChainFiles(reader: FloatReader, n: nat, last: nat): (r: seq<ParsedFile>)
    ensures |r| == n && forall k :: 0 <= k < n ==> r[k] == ChainFile(reader, k, last)
  {
    if n == 0 then [] else ChainFiles(reader, n - 1, last) + [ChainFile(reader, n - 1, last)]
  }

  /** The first n files of the chain are in. */
  function ChainState(reader: FloatReader, n: nat, last: nat): State {
    State(ChainFiles(reader, n, last), ToSet(Tallies(n)))
  }

  /** With files 0 to n - 1 in, exactly the signal of file n is missing, until the chain ends. */
  lemma ChainWanted(reader: FloatReader, n: nat, last: nat)
    requires 0 < n <= last + 1
    ensures Wanted(ChainFiles(reader, n, last)) == if n <= last then {Ref(SignalKind, Tally(n + 1))} else {}
  {
    hide Tally, FileRefs, FileDefs, ChainFile, AllRefs, AllDefs, Unresolved;
    var files := ChainFiles(reader, n, last);
    forall x ensures x in Wanted(files) <==> n <= last && x == Ref(SignalKind, Tally(n + 1)) {
      UnresolvedMembers(AllRefs(files), Known(files), x);
      ChainMembers(reader, n, last, x);
    }
  }

  lemma ChainMembers(reader: FloatReader, n: nat, last: nat, x: Ref)
    requires 0 < n <= last + 1
    ensures x in AllRefs(ChainFiles(reader, n, last)) && x.name != "" && x !in Known(ChainFiles(reader, n, last))
      <==> n <= last && x == Ref(SignalKind, Tally(n + 1))
  {
    hide Tally, FileRefs, FileDefs, ChainFile, AllRefs, AllDefs;
    var files := ChainFiles(reader, n, last);
    AllRefsMembers(files, x);
    AllDefsMembers(files, x);
    forall k | 0 <= k < n
      ensures x in FileRefs(files[k]) <==> k < last && x == Ref(SignalKind, Tally(k + 2))
      ensures x in FileDefs(files[k]) <==> x == Ref(SignalKind, Tally(k + 1))
    {
      ChainRefers(reader, k, last, x);
      ChainDefines(reader, k, last, x);
    }
    forall k | 0 <= k < n - 1 && x in FileRefs(files[k]) ensures x in Known(files) {
      assert files[k + 1] in files && x in FileDefs(files[k + 1]);
    }
    if x in AllRefs(files) && x !in Known(files) {
      var file :| file in files && x in FileRefs(file);
      var k :| 0 <= k < n && files[k] == file;
    }
    if n <= last && x == Ref(SignalKind, Tally(n + 1)) {
      assert files[n - 1] in files && x in FileRefs(files[n - 1]);
      forall file | file in files ensures x !in FileDefs(file) {
        var k :| 0 <= k < n && files[k] == file;
        assert |Tally(k + 1)| != |Tally(n + 1)|;
      }
    }
  }

  lemma ChainPulls(reader: FloatReader, n: nat, last: nat, k: nat)
    requires 0 < n <= last && k <= last
    ensures Pulls(ChainDisk(reader, last), {Ref(SignalKind, Tally(n + 1))}, Tally(k)) <==> k == n
  {
    hide FileDefs, Tally, ChainFile, ChainDisk, RawDefines;
    var d := Ref(SignalKind, Tally(k + 1));
    forall x ensures x in FileDefs(ChainFile(reader, k, last)) <==> x == d {
      ChainDefines(reader, k, last, x);
    }
    assert d in FileDefs(ChainFile(reader, k, last));
    ChainParses(reader, k, last);
    ChainPasses(reader, k, last);
    assert |Tally(k + 1)| == k + 1 && |Tally(n + 1)| == n + 1;
  }

  lemma InTallies(n: nat, k: nat)
    ensures Tally(k) in ToSet(Tallies(n)) <==> k < n
  {
    hide Tally;
    if k < n {
      assert Tallies(n)[k] == Tally(k);
    }
    if Tally(k) in Tallies(n) {
      var j :| 0 <= j < n && Tallies(n)[j] == Tally(k);
      assert |Tally(j)| == j && |Tally(k)| == k;
    }
  }

  lemma TalliesStep(m: nat)
    requires m > 0
    ensures Tallies(m)[..m - 1] == Tallies(m - 1) && Tallies(m) != []
  {}

  lemma {:induction false} ChainPulled(reader: FloatReader, n: nat, last: nat, m: nat)
    requires 0 < n <= last && m <= last + 1
    ensures Pulled(ChainDisk(reader, last), {Ref(SignalKind, Tally(n + 1))}, ToSet(Tallies(n)), Tallies(m)) == if n < m
      then [Tally(n)] else []
  {
    hide Pulls, Tally, ChainDisk, ToSet, Pulled;
    var disk, wanted, parsed, c :=
      ChainDisk(reader, last), {Ref(SignalKind, Tally(n + 1))}, ToSet(Tallies(n)), Tallies(m);
    if m == 0 {
      NothingPulled(disk, wanted, State([], parsed));
    } else {
      ChainPulled(reader, n, last, m - 1);
      ChainPulls(reader, n, last, m - 1);
      TalliesStep(m);
      InTallies(n, m - 1);
      assert c[..m] == c && c[m - 1] == Tally(m - 1);
      hide Tallies;
      PulledStep(disk, wanted, parsed, c, m - 1);
    }
  }

  lemma ChainGrows(reader: FloatReader, n: nat, last: nat)
    requires n <= last
    ensures Grown(ChainDisk(reader, last), ChainState(reader, n, last), [Tally(n)]) == ChainState(reader, n + 1, last)
  {
    hide Tally, ChainFile, ChainDisk, FileAt, MapSeq;
    ChainFileAt(reader, n, last);
    MapOne(Tally(n), FileAt(ChainDisk(reader, last)));
    assert ToSet(Tallies(n + 1)) == ToSet(Tallies(n)) + ToSet([Tally(n)]);
  }

  lemma MapOne(path: string, f: string -> ParsedFile)
    ensures MapSeq([path], f) == [f(path)]
  {}

  lemma ChainFileAt(reader: FloatReader, n: nat, last: nat)
    requires n <= last
    ensures FileAt(ChainDisk(reader, last))(Tally(n)) == ChainFile(reader, n, last)
  {
    hide ChainDisk, ChainFile, Tally;
    ChainParses(reader, n, last);
  }

  lemma ChainStep(reader: FloatReader, n: nat, last: nat)
    requires 0 < n <= last
    ensures Expand(ChainDisk(reader, last), ChainState(reader, n, last), Tallies(last + 1)) ==
      (Advanced, ChainState(reader, n + 1, last))
  {
    hide Wanted, Pulled, Tally, Grown, ChainDisk, Tallies, ChainFiles;
    ChainWanted(reader, n, last);
    ChainPulled(reader, n, last, last + 1);
    ChainGrows(reader, n, last);
  }

  lemma {:induction false} ChainRounds(reader: FloatReader, n: nat, last: nat, rounds: nat)
    requires 0 < n && n + rounds <= last + 1
    ensures Rounds(ChainDisk(reader, last), ChainState(reader, n, last), Tallies(last + 1), rounds) ==
      ChainState(reader, n + rounds, last)
    decreases rounds
  {
    hide Expand, ChainDisk, ChainState, Tallies;
    if rounds > 0 {
      ChainStep(reader, n, last);
      ChainRounds(reader, n + 1, last, rounds - 1);
    }
  }

  lemma ChainStart(reader: FloatReader, last: nat)
    ensures EntriesState(ChainDisk(reader, last), [Tally(0)]) == ChainState(reader, 1, last)
    ensures FirstFailure(ChainDisk(reader, last), [Tally(0)]) == None
  {
    hide Tally, ChainFile, ChainDisk, FileAt, MapSeq, FirstFailure, ChainFiles, Tallies;
    ChainFileAt(reader, 0, last);
    MapOne(Tally(0), FileAt(ChainDisk(reader, last)));
    FirstOfChain(reader, last);
    ChainParses(reader, 0, last);
    OneEntry(ChainDisk(reader, last), Tally(0));
  }

  lemma FirstOfChain(reader: FloatReader, last: nat)
    ensures ChainFiles(reader, 1, last) == [ChainFile(reader, 0, last)] && Tallies(1) == [Tally(0)]
  {
    hide Tally, ChainFile;
    assert ChainFiles(reader, 0, last) == [] && Tallies(0) == [];
  }

  lemma OneEntry(disk: Disk, path: string)
    requires disk.parse(path).Some?
    ensures FirstFailure(disk, [path]) == None
  {
    assert [path][1..] == [];
  }

  /**
    For every limit there is a set of candidates, one more than the limit, that
    fails under it and succeeds with one round more.
   */
  lemma LimitIsTight(reader: FloatReader, limit: nat)
    ensures var disk, entries, candidates := ChainDisk(reader, limit + 1), [Tally(0)], Tallies(limit + 2);
      && Discover(disk, entries, candidates, limit) == Err(DanglingReferences({Ref(SignalKind, Tally(limit + 2))}))
      && Discover(disk, entries, candidates, limit + 1) == Ok(ChainFiles(reader, limit + 2, limit + 1))
  {
    hide Rounds, Wanted, ChainDisk, Tallies, EntriesState, FirstFailure, ChainFiles, Tally;
    ChainStart(reader, limit + 1);
    ChainRounds(reader, 1, limit + 1, limit);
    ChainRounds(reader, 1, limit + 1, limit + 1);
    ChainWanted(reader, limit + 1, limit + 1);
    ChainWanted(reader, limit + 2, limit + 1);
  }
}
