/**
  The ambiguity diagnostics of the finished report: one for every secondary
  key with candidates on both sides that is not one-to-one, and the same keys
  either way round.
 */
module DiffDiagnostics {
  import opened Wrappers
  import opened Model
  import opened DiffReport
  import opened DiffMatch
  import opened DiffMoves
  import opened DiffEngine
  import opened DiffListing
  import opened Sorting
  import opened Text

  /** Both sides have elements with the key, but not one each. */
  predicate AmbiguousKey(a: Index, b: Index, key: string) {
    && Contenders(a, b, key) != {}
    && Contenders(b, a, key) != {}
    && !(|Contenders(a, b, key)| == 1 && |Contenders(b, a, key)| == 1)
  }

  lemma AmbiguityMatches(a: Index, b: Index, t: ElementType, entries: seq<DiffEntry>, key: string)
    requires TypeListed(a, b, t, entries)
    ensures Ambiguous(Slots(a, b, t, entries), key) <==> AmbiguousKey(a, b, key)
    ensures Ambiguous(Slots(a, b, t, entries), key) ==> key in KeySet(Slots(a, b, t, entries))
  {
    hide SecondaryKey, Contenders, SlotOf, TypeListed;
    GroupSizes(a, b, t, entries, key);
    var slots := Slots(a, b, t, entries);
    if RemovedAt(slots, key) != [] {
      hide Positions;
      var at := RemovedAt(slots, key);
      PositionsExact(slots, RemovedSlot(key));
      assert at[0] in at;
      assert slots[at[0]] == RemovedSlot(key) && slots[at[0]] in slots;
    }
  }

  function KeysOf(t: ElementType, entries: seq<DiffEntry>, slots: seq<Slot>, keys: seq<string>): (r: seq<string>)
    requires |entries| == |slots|
    ensures forall k :: k in r <==> k in keys && Ambiguous(slots, k)
  {
    if keys == [] then []
    else
      var front, last := keys[..|keys| - 1], keys[|keys| - 1];
      assert keys == front + [last];
      KeysOf(t, entries, slots, front) + if Ambiguous(slots, last) then [last] else []
  }

  lemma {:induction false} DiagnosticPerKey(t: ElementType, entries: seq<DiffEntry>, slots: seq<Slot>,
                                            keys: seq<string>)
    requires |entries| == |slots| && NoDuplicates(keys)
    ensures var named, made := KeysOf(t, entries, slots, keys), DiagnosticsFor(t, entries, slots, keys);
      && NoDuplicates(named)
      && |named| == |made|
      && forall i :: 0 <= i < |made| ==> made[i] == DiffDiagnostic(Message(t, entries, slots, named[i]), t)
  {
    hide Message, Ambiguous;
    if keys != [] {
      var front, last := keys[..|keys| - 1], keys[|keys| - 1];
      DiagnosticPerKey(t, entries, slots, front);
      assert last !in front;
    }
  }

  lemma StageTypeListed(o: ParsedProject, n: ParsedProject, k: nat, entries: seq<DiffEntry>)
    requires k < |TYPES| && NoDuplicates(entries) && forall e :: e in entries <==> StageHas(o, n, k, e)
    ensures TypeListed(ProjectIndex(o, TYPES[k]), ProjectIndex(n, TYPES[k]), TYPES[k], entries)
  {
    hide ProjectIndex, MovedBy, MatchedBy;
    assert Rank(TYPES[k]) == k;
  }

  // ----- what a diagnostic says -----

  function Labelled(side: string, paths: seq<string>): seq<string> {
    seq(|paths|, i requires 0 <= i < |paths| => side + paths[i])
  }

  function Wording(t: ElementType, key: string, removed: seq<string>, added: seq<string>): string {
    NatToString(|removed| + |added|) + " candidates shared secondary key " + key + " for type " + TypeName(t)
    + ", no move inferred (" + Join(Labelled("removed:", removed) + Labelled("added:", added), ", ") + ")"
  }

  /** The diagnostic of a key: it lists the removed and the added paths with that key, each once. */
  ghost predicate Describes(a: Index, b: Index, t: ElementType, key: string, d: DiffDiagnostic) {
    exists removed: seq<string>, added: seq<string> ::
      && NoDuplicates(removed) && (set p <- removed) == Contenders(a, b, key)
      && NoDuplicates(added) && (set p <- added) == Contenders(b, a, key)
      && d == DiffDiagnostic(Wording(t, key, removed, added), t)
  }

  lemma MessageDescribes(a: Index, b: Index, t: ElementType, entries: seq<DiffEntry>, key: string)
    requires TypeListed(a, b, t, entries)
    ensures Describes(a, b, t, key, DiffDiagnostic(Message(t, entries, Slots(a, b, t, entries), key), t))
  {
    hide Contenders, Positions, TypeListed, SlotOf, Join;
    var slots := Slots(a, b, t, entries);
    var removedAt, addedAt := RemovedAt(slots, key), AddedAt(slots, key);
    var removed, added := SlotPaths(entries, removedAt, true), SlotPaths(entries, addedAt, false);
    SlotContenders(a, b, t, entries, key, true);
    SlotContenders(a, b, t, entries, key, false);
    assert Candidates(entries, removedAt, addedAt) == Labelled("removed:", removed) + Labelled("added:", added);
    assert Message(t, entries, slots, key) == Wording(t, key, removed, added);
  }

  // ----- which there are -----

  /** The ambiguous keys, each once. */
  function AmbiguousKeys(a: Index, b: Index): (r: seq<string>)
    ensures NoDuplicates(r)
    ensures forall key :: key in r <==> AmbiguousKey(a, b, key)
  {
    hide SecondaryKey, Ascending;
    var keys := set p <- a.Keys | SecondaryKey(a[p]).Some? && AmbiguousKey(a, b, SecondaryKey(a[p]).value) ::
      SecondaryKey(a[p]).value;
    assert forall key :: AmbiguousKey(a, b, key) ==> exists p :: p in Contenders(a, b, key);
    Ascending(keys)
  }

  function ForType(t: ElementType): DiffDiagnostic -> bool {
    (d: DiffDiagnostic) => d.elementType == t
  }

  lemma StageForType(o: ParsedProject, n: ParsedProject, j: nat, t: ElementType)
    requires j < |TYPES|
    ensures var made := NewDiagnostics(ProjectIndex(o, TYPES[j]), ProjectIndex(n, TYPES[j]), TYPES[j],
                                       MovedEntries(o, n, j));
      Filter(made, ForType(t)) == if TYPES[j] == t then made else []
  {
    hide ProjectIndex, MovedEntries, Message, Ambiguous, Slots, Ascending;
    var s := TYPES[j];
    var a, b, entries := ProjectIndex(o, s), ProjectIndex(n, s), MovedEntries(o, n, j);
    var made := NewDiagnostics(a, b, s, entries);
    var slots := Slots(a, b, s, entries);
    DiagnosticPerKey(s, entries, slots, Ascending(KeySet(slots)));
    hide NewDiagnostics, KeySet;
    if s == t {
      FilterAll(made, ForType(t));
    } else {
      FilterNone(made, ForType(t));
    }
  }

  /** Among the diagnostics of all stages, those of a type are its own stage's. */
  lemma {:induction false} DiagnosticsByType(o: ParsedProject, n: ParsedProject, k: nat, t: ElementType)
    requires k <= |TYPES|
    ensures Filter(MovedDiagnostics(o, n, k), ForType(t)) ==
      if Rank(t) < k then NewDiagnostics(ProjectIndex(o, t), ProjectIndex(n, t), t, MovedEntries(o, n, Rank(t))) else []
  {
    hide *;
    NoStageYet(o, n, t);
    if k > 0 {
      DiagnosticsByType(o, n, k - 1, t);
      StageForType(o, n, k - 1, t);
      StageAdds(o, n, k);
      StageRank(k - 1, t);
      var s := TYPES[k - 1];
      FilterConcat(MovedDiagnostics(o, n, k - 1),
                   NewDiagnostics(ProjectIndex(o, s), ProjectIndex(n, s), s, MovedEntries(o, n, k - 1)), ForType(t));
    }
  }

  lemma NoStageYet(o: ParsedProject, n: ParsedProject, t: ElementType)
    ensures Filter(MovedDiagnostics(o, n, 0), ForType(t)) == []
  {}

  lemma StageRank(j: nat, t: ElementType)
    requires j < |TYPES|
    ensures Rank(t) == j <==> TYPES[j] == t
  {}

  lemma StageAdds(o: ParsedProject, n: ParsedProject, k: nat)
    requires 0 < k <= |TYPES|
    ensures var s := TYPES[k - 1];
      MovedDiagnostics(o, n, k) == MovedDiagnostics(o, n, k - 1)
        + NewDiagnostics(ProjectIndex(o, s), ProjectIndex(n, s), s, MovedEntries(o, n, k - 1))
  {
    hide ProjectIndex, MovedEntries, NewDiagnostics;
  }

  /** What one stage adds: a diagnostic for each ambiguous key. */
  lemma StageDiagnostics(o: ParsedProject, n: ParsedProject, t: ElementType)
      returns (describe: string -> DiffDiagnostic)
    ensures var a, b := ProjectIndex(o, t), ProjectIndex(n, t);
      && multiset(NewDiagnostics(a, b, t, MovedEntries(o, n, Rank(t)))) ==
        multiset(MapSeq(AmbiguousKeys(a, b), describe))
      && forall key <- AmbiguousKeys(a, b) :: Describes(a, b, t, key, describe(key))
  {
    hide ProjectIndex, Message, Ambiguous, AmbiguousKey, Slots, MovedEntries, Ascending, Describes, AmbiguousKeys,
      KeySet;
    var a, b, k := ProjectIndex(o, t), ProjectIndex(n, t), Rank(t);
    assert TYPES[k] == t;
    var entries := MovedEntries(o, n, k);
    var slots := Slots(a, b, t, entries);
    MovedEntriesList(o, n, k);
    StageTypeListed(o, n, k, entries);
    hide TypeListed;
    assert |slots| == |entries|;
    var keys := Ascending(KeySet(slots));
    describe := key => if |entries| == |slots| then DiffDiagnostic(Message(t, entries, slots, key), t)
      else DiffDiagnostic("", t);
    DiagnosticPerKey(t, entries, slots, keys);
    var named := KeysOf(t, entries, slots, keys);
    forall key ensures key in named <==> AmbiguousKey(a, b, key) {
      AmbiguityMatches(a, b, t, entries, key);
    }
    SameListing(named, AmbiguousKeys(a, b));
    assert NewDiagnostics(a, b, t, entries) == MapSeq(named, describe);
    MapPermuted(named, AmbiguousKeys(a, b), describe);
    forall key | key in AmbiguousKeys(a, b) ensures Describes(a, b, t, key, describe(key)) {
      MessageDescribes(a, b, t, entries, key);
    }
  }

  /**
    In the finished report the diagnostics of a type are exactly one for each
    ambiguous key, naming the key and its candidates.
   */
  lemma DiagnosticsAreExact(o: ParsedProject, n: ParsedProject, entries: seq<DiffEntry>,
                            diagnostics: seq<DiffDiagnostic>, t: ElementType)
    returns (describe: string -> DiffDiagnostic)
    requires IsDiff(o, n, entries, diagnostics)
    ensures var a, b := ProjectIndex(o, t), ProjectIndex(n, t);
      && multiset(Filter(diagnostics, ForType(t))) == multiset(MapSeq(AmbiguousKeys(a, b), describe))
      && forall key <- AmbiguousKeys(a, b) :: Describes(a, b, t, key, describe(key))
  {
    var all := MovedDiagnostics(o, n, |TYPES|);
    assert multiset(diagnostics) == multiset(all);
    hide ProjectIndex, Describes, AmbiguousKeys, MovedDiagnostics, MovedEntries, NewDiagnostics, ForType, IsDiff;
    describe := StageDiagnostics(o, n, t);
    DiagnosticsByType(o, n, |TYPES|, t);
    FilterPermuted(diagnostics, all, ForType(t));
  }

  /** A type has a diagnostic in the report exactly when some key of it is ambiguous. */
  lemma DiagnosticIffAmbiguous(o: ParsedProject, n: ParsedProject, entries: seq<DiffEntry>,
                               diagnostics: seq<DiffDiagnostic>, k: nat)
    requires IsDiff(o, n, entries, diagnostics) && k < |TYPES|
    ensures (exists d <- diagnostics :: d.elementType == TYPES[k])
      <==> exists key :: AmbiguousKey(ProjectIndex(o, TYPES[k]), ProjectIndex(n, TYPES[k]), key)
  {
    hide ProjectIndex, AmbiguousKey, IsDiff;
    var t := TYPES[k];
    var describe := DiagnosticsAreExact(o, n, entries, diagnostics, t);
    var kept, keys := Filter(diagnostics, ForType(t)), AmbiguousKeys(ProjectIndex(o, t), ProjectIndex(n, t));
    FilterMembers(diagnostics, ForType(t));
    assert |kept| == |multiset(kept)| == |multiset(MapSeq(keys, describe))| == |keys|;
    if d :| d in diagnostics && d.elementType == t {
      assert d in kept;
      assert keys[0] in keys;
    }
    if key :| AmbiguousKey(ProjectIndex(o, t), ProjectIndex(n, t), key) {
      assert key in keys;
      assert kept[0] in kept;
    }
  }

  lemma SameKeysBack(a: Index, b: Index)
    ensures forall key :: key in AmbiguousKeys(a, b) <==> key in AmbiguousKeys(b, a)
    ensures multiset(AmbiguousKeys(a, b)) == multiset(AmbiguousKeys(b, a))
  {
    hide AmbiguousKeys, Contenders;
    forall key ensures AmbiguousKey(a, b, key) == AmbiguousKey(b, a, key) {}
    SameListing(AmbiguousKeys(a, b), AmbiguousKeys(b, a));
  }

  /**
    Either way round a type's diagnostics stand for the same keys, one each;
    the two for a key list the same candidates with the sides exchanged.
   */
  lemma DiagnosticsMirror(o: ParsedProject, n: ParsedProject, there: seq<DiffEntry>, d1: seq<DiffDiagnostic>,
                          back: seq<DiffEntry>, d2: seq<DiffDiagnostic>, t: ElementType)
    returns (thither: string -> DiffDiagnostic, hither: string -> DiffDiagnostic)
    requires IsDiff(o, n, there, d1) && IsDiff(n, o, back, d2)
    ensures var a, b := ProjectIndex(o, t), ProjectIndex(n, t);
      var keys := AmbiguousKeys(a, b);
      && multiset(Filter(d1, ForType(t))) == multiset(MapSeq(keys, thither))
      && multiset(Filter(d2, ForType(t))) == multiset(MapSeq(keys, hither))
      && forall key <- keys :: Describes(a, b, t, key, thither(key)) && Describes(b, a, t, key, hither(key))
  {
    hide IsDiff, ProjectIndex, Describes, AmbiguousKeys, ForType;
    var a, b := ProjectIndex(o, t), ProjectIndex(n, t);
    thither := DiagnosticsAreExact(o, n, there, d1, t);
    hither := DiagnosticsAreExact(n, o, back, d2, t);
    SameKeysBack(a, b);
    MapPermuted(AmbiguousKeys(b, a), AmbiguousKeys(a, b), hither);
  }
}
