/**
  What a diff report contains, stage by stage: each stage's entries are listed
  without repetition and are exactly those a declarative condition on the two
  path indexes describes.
 */
module DiffListing {
  import opened Wrappers
  import opened Model
  import opened DiffReport
  import opened DiffMatch
  import opened DiffFields
  import opened DiffMoves
  import opened DiffEngine
  import opened Sorting
  import opened Text

  // ----- conditions on the two indexes -----

  /** The paths only the first index has whose elements carry the key. */
  function Contenders(a: Index, b: Index, key: string): set<string> {
    set p <- a.Keys | p !in b && SecondaryKey(a[p]) == Some(key)
  }

  /** p is the only removed and q the only added element with their key. */
  predicate Pair(a: Index, b: Index, p: string, q: string) {
    && p in a
    && SecondaryKey(a[p]).Some?
    && Contenders(a, b, SecondaryKey(a[p]).value) == {p}
    && Contenders(b, a, SecondaryKey(a[p]).value) == {q}
  }

  ghost predicate MovesAway(a: Index, b: Index, p: string) {
    exists q :: Pair(a, b, p, q)
  }

  ghost predicate MovesHere(a: Index, b: Index, q: string) {
    exists p :: Pair(a, b, p, q)
  }

  /** The entries of one type before moves are detected. */
  predicate MatchedBy(a: Index, b: Index, e: DiffEntry) {
    && e.fieldDiffs == []
    && match e.kind
       case Removed => e.newPath == "" && e.oldPath in a && e.oldPath !in b
       case Added => e.oldPath == "" && e.newPath in b && e.newPath !in a
       case Modified => e.oldPath == e.newPath && e.oldPath in a && e.oldPath in b
       case Moved => false
  }

  /** The entries of one type after. */
  ghost predicate MovedBy(a: Index, b: Index, e: DiffEntry) {
    if e.kind == Moved then e.fieldDiffs == [] && Pair(a, b, e.oldPath, e.newPath)
    else
      && MatchedBy(a, b, e)
      && (e.kind == Removed ==> !MovesAway(a, b, e.oldPath))
      && (e.kind == Added ==> !MovesHere(a, b, e.newPath))
  }

  /** The entries once the moves of the types ranked below k are detected. */
  ghost predicate StageHas(o: ParsedProject, n: ParsedProject, k: nat, e: DiffEntry) {
    var a, b := ProjectIndex(o, e.elementType), ProjectIndex(n, e.elementType);
    if Rank(e.elementType) < k then MovedBy(a, b, e) else MatchedBy(a, b, e)
  }

  /** The entries of the finished report. */
  ghost predicate Reported(o: ParsedProject, n: ParsedProject, e: DiffEntry) {
    && MovedBy(ProjectIndex(o, e.elementType), ProjectIndex(n, e.elementType), e.(fieldDiffs := []))
    && e.fieldDiffs == (if e.kind == Modified || e.kind == Moved then DiffPair(o, n, e) else [])
    && (e.kind == Modified ==> e.fieldDiffs != [])
  }

  // ----- matching -----

  lemma {:induction false} PassLists(kind: DiffKind, t: ElementType, keys: seq<string>, other: Index)
    requires NoDuplicates(keys) && kind != Moved
    ensures NoDuplicates(Pass(kind, t, keys, other))
    ensures forall e :: e in Pass(kind, t, keys, other) <==>
      exists key <- keys :: Reports(kind, key, other) && e == EntryFor(kind, t, key)
  {
    hide Reports;
    if keys != [] {
      var front, last := keys[..|keys| - 1], keys[|keys| - 1];
      PassLists(kind, t, front, other);
      assert keys == front + [last];
      assert last !in front;
      assert forall key :: key in keys <==> key in front || key == last;
      assert EntryFor(kind, t, last) !in Pass(kind, t, front, other);
    }
  }

  /** One type's matched entries: of that type, listed once, exactly those matching describes. */
  lemma MatchLists(a: Index, b: Index, t: ElementType)
    ensures NoDuplicates(MatchEntries(a, b, t))
    ensures forall e :: e in MatchEntries(a, b, t) <==> e.elementType == t && MatchedBy(a, b, e)
  {
    hide Pass, Ascending;
    PassLists(Removed, t, Ascending(a.Keys), b);
    PassLists(Added, t, Ascending(b.Keys), a);
    PassLists(Modified, t, Ascending(a.Keys), b);
    var r, d, m := Pass(Removed, t, Ascending(a.Keys), b), Pass(Added, t, Ascending(b.Keys), a),
      Pass(Modified, t, Ascending(a.Keys), b);
    forall e ensures e in r <==> e.elementType == t && e.kind == Removed && MatchedBy(a, b, e) {
      if e.elementType == t && e.kind == Removed && MatchedBy(a, b, e) {
        assert e == EntryFor(Removed, t, e.oldPath) && Reports(Removed, e.oldPath, b);
      }
    }
    forall e ensures e in d <==> e.elementType == t && e.kind == Added && MatchedBy(a, b, e) {
      if e.elementType == t && e.kind == Added && MatchedBy(a, b, e) {
        assert e == EntryFor(Added, t, e.newPath) && Reports(Added, e.newPath, a);
      }
    }
    forall e ensures e in m <==> e.elementType == t && e.kind == Modified && MatchedBy(a, b, e) {
      if e.elementType == t && e.kind == Modified && MatchedBy(a, b, e) {
        assert e == EntryFor(Modified, t, e.oldPath) && Reports(Modified, e.oldPath, b);
      }
    }
    hide MatchedBy;
    JoinListings(r, d);
    JoinListings(r + d, m);
  }

  lemma JoinListings<T>(a: seq<T>, b: seq<T>)
    requires NoDuplicates(a) && NoDuplicates(b) && forall x :: !(x in a && x in b)
    ensures NoDuplicates(a + b)
    ensures forall x :: x in a + b <==> x in a || x in b
  {
    forall i, j | 0 <= i < j < |a + b| ensures (a + b)[i] != (a + b)[j] {
      if i < |a| <= j {
        assert a[i] in a && b[j - |a|] in b;
      }
    }
  }

  lemma {:induction false} MatchedTypesList(o: ParsedProject, n: ParsedProject, k: nat)
    requires k <= |TYPES|
    ensures NoDuplicates(MatchedTypes(o, n, k))
    ensures forall e :: e in MatchedTypes(o, n, k) <==>
      Rank(e.elementType) < k && MatchedBy(ProjectIndex(o, e.elementType), ProjectIndex(n, e.elementType), e)
  {
    hide MatchEntries, ProjectIndex, MatchedBy;
    if k > 0 {
      var t := TYPES[k - 1];
      assert forall u: ElementType :: Rank(u) == k - 1 <==> u == t;
      MatchedTypesList(o, n, k - 1);
      MatchLists(ProjectIndex(o, t), ProjectIndex(n, t), t);
      JoinListings(MatchedTypes(o, n, k - 1), MatchEntries(ProjectIndex(o, t), ProjectIndex(n, t), t));
    }
  }

  // ----- moves -----

  lemma {:induction false} KeptMembers(entries: seq<DiffEntry>, slots: seq<Slot>, limit: nat)
    requires limit <= |entries| == |slots|
    requires forall i, j :: 0 <= i < j < |entries| && !Erased(slots, i) && !Erased(slots, j) ==>
      Rewritten(entries, slots, i) != Rewritten(entries, slots, j)
    ensures NoDuplicates(KeptBelow(entries, slots, limit))
    ensures forall e :: e in KeptBelow(entries, slots, limit) <==>
      exists i :: 0 <= i < limit && !Erased(slots, i) && Rewritten(entries, slots, i) == e
  {
    hide Erased, Rewritten;
    if limit > 0 {
      var front := KeptBelow(entries, slots, limit - 1);
      KeptMembers(entries, slots, limit - 1);
      if !Erased(slots, limit - 1) {
        var last := Rewritten(entries, slots, limit - 1);
        assert last !in front;
        assert KeptBelow(entries, slots, limit) == front + [last];
        assert forall e :: e in front + [last] <==> e in front || e == last;
      }
    }
  }

  /** What the listing says about one type: the removed and added entries are the unmatched paths, once each. */
  ghost predicate TypeListed(a: Index, b: Index, t: ElementType, entries: seq<DiffEntry>) {
    && NoDuplicates(entries)
    && forall e: DiffEntry :: e.elementType == t ==> (e in entries <==> MatchedBy(a, b, e))
  }

  /** The paths the entries of one slot stand for. */
  function SlotPaths(entries: seq<DiffEntry>, at: seq<nat>, removed: bool): (r: seq<string>)
    requires forall i <- at :: i < |entries|
    ensures |r| == |at|
  {
    seq(|at|, k requires 0 <= k < |at| =>
      assert at[k] in at;
      if removed then entries[at[k]].oldPath else entries[at[k]].newPath)
  }

  function SetOf<T>(s: seq<T>): set<T> {
    set x <- s
  }

  lemma {:induction false} SizeOfListing<T>(s: seq<T>)
    requires NoDuplicates(s)
    ensures |SetOf(s)| == |s|
  {
    if s != [] {
      var front, last := s[..|s| - 1], s[|s| - 1];
      assert s == front + [last];
      SizeOfListing(front);
      assert SetOf(s) == SetOf(front) + {last};
      assert last !in front;
    }
  }

  /** An entry in a slot is the matched entry of a contender for the slot's key. */
  lemma SlotEntry(a: Index, b: Index, t: ElementType, entries: seq<DiffEntry>, i: nat)
    requires TypeListed(a, b, t, entries) && i < |entries|
    ensures match Slots(a, b, t, entries)[i]
      case Outside => true
      case RemovedSlot(key) =>
        entries[i] == EntryFor(Removed, t, entries[i].oldPath) && entries[i].oldPath in Contenders(a, b, key)
      case AddedSlot(key) =>
        entries[i] == EntryFor(Added, t, entries[i].newPath) && entries[i].newPath in Contenders(b, a, key)
  {
    hide SecondaryKey;
    assert entries[i] in entries;
    assert Slots(a, b, t, entries)[i] == SlotOf(a, b, t, entries[i]);
  }

  /** Every contender has its entry in the slot of its key. */
  lemma ContenderSlot(a: Index, b: Index, t: ElementType, entries: seq<DiffEntry>, key: string, removed: bool,
                      p: string) returns (i: nat)
    requires TypeListed(a, b, t, entries) && p in if removed then Contenders(a, b, key) else Contenders(b, a, key)
    ensures i < |entries| && entries[i] == EntryFor(if removed then Removed else Added, t, p)
    ensures Slots(a, b, t, entries)[i] == if removed then RemovedSlot(key) else AddedSlot(key)
  {
    hide SecondaryKey;
    var e := EntryFor(if removed then Removed else Added, t, p);
    assert MatchedBy(a, b, e);
    assert e in entries;
    i :| 0 <= i < |entries| && entries[i] == e;
  }

  /** The positions of a key's slot on one side are its contenders there, once each. */
  lemma SlotContenders(a: Index, b: Index, t: ElementType, entries: seq<DiffEntry>, key: string, removed: bool)
    requires TypeListed(a, b, t, entries)
    ensures var at := Positions(Slots(a, b, t, entries), if removed then RemovedSlot(key) else AddedSlot(key));
      && NoDuplicates(SlotPaths(entries, at, removed))
      && SetOf(SlotPaths(entries, at, removed)) == if removed then Contenders(a, b, key) else Contenders(b, a, key)
  {
    hide SlotOf, Positions, Contenders;
    var slots := Slots(a, b, t, entries);
    var slot := if removed then RemovedSlot(key) else AddedSlot(key);
    var all := if removed then Contenders(a, b, key) else Contenders(b, a, key);
    var at := Positions(slots, slot);
    var paths := SlotPaths(entries, at, removed);
    PositionsExact(slots, slot);
    forall k | 0 <= k < |at|
      ensures at[k] < |entries| && entries[at[k]] == EntryFor(if removed then Removed else Added, t, paths[k])
        && paths[k] in all
    {
      assert at[k] in at;
      SlotEntry(a, b, t, entries, at[k]);
    }
    forall j, k | 0 <= j < k < |at| ensures paths[j] != paths[k] {
      assert at[j] < at[k];
      assert entries[at[j]] != entries[at[k]];
    }
    forall p | p in all ensures p in paths {
      var i := ContenderSlot(a, b, t, entries, key, removed, p);
      assert i in at;
      var k :| 0 <= k < |at| && at[k] == i;
      assert paths[k] == p;
    }
  }

  /** A key's groups have the sizes of its contender sets. */
  lemma GroupSizes(a: Index, b: Index, t: ElementType, entries: seq<DiffEntry>, key: string)
    requires TypeListed(a, b, t, entries)
    ensures var slots := Slots(a, b, t, entries);
      && |RemovedAt(slots, key)| == |Contenders(a, b, key)|
      && |AddedAt(slots, key)| == |Contenders(b, a, key)|
  {
    hide Contenders, Positions, TypeListed;
    var slots := Slots(a, b, t, entries);
    SlotContenders(a, b, t, entries, key, true);
    SlotContenders(a, b, t, entries, key, false);
    SizeOfListing(SlotPaths(entries, RemovedAt(slots, key), true));
    SizeOfListing(SlotPaths(entries, AddedAt(slots, key), false));
  }

  /** A pairing key joins exactly the pair its two sole contenders form. */
  lemma PairedKey(a: Index, b: Index, t: ElementType, entries: seq<DiffEntry>, key: string)
    requires TypeListed(a, b, t, entries) && Paired(Slots(a, b, t, entries), key)
    ensures var slots := Slots(a, b, t, entries);
      var r, q := RemovedAt(slots, key)[0], Partner(slots, key);
      && r < |entries|
      && Contenders(a, b, key) == {entries[r].oldPath}
      && Contenders(b, a, key) == {entries[q].newPath}
  {
    hide Contenders, TypeListed, Positions;
    var slots := Slots(a, b, t, entries);
    SlotContenders(a, b, t, entries, key, true);
    SlotContenders(a, b, t, entries, key, false);
    var rs, qs := RemovedAt(slots, key), AddedAt(slots, key);
    assert rs[0] in rs && qs[0] in qs;
    assert SlotPaths(entries, rs, true) == [entries[rs[0]].oldPath];
    assert SlotPaths(entries, qs, false) == [entries[qs[0]].newPath];
  }

  /** A removed entry pairs exactly when its path moves away, and to where it is rewritten. */
  lemma RemovedPairs(a: Index, b: Index, t: ElementType, entries: seq<DiffEntry>, i: nat)
    requires TypeListed(a, b, t, entries) && i < |entries| && Slots(a, b, t, entries)[i].RemovedSlot?
    ensures var slots := Slots(a, b, t, entries);
      var e := entries[i];
      && e == EntryFor(Removed, t, e.oldPath) && MatchedBy(a, b, e)
      && SecondaryKey(a[e.oldPath]) == Some(slots[i].key)
      && (Paired(slots, slots[i].key) <==> MovesAway(a, b, e.oldPath))
      && (Paired(slots, slots[i].key) ==>
            Pair(a, b, e.oldPath, Rewritten(entries, slots, i).newPath)
            && Rewritten(entries, slots, i) == DiffEntry(Moved, t, e.oldPath, Rewritten(entries, slots, i).newPath, []))
  {
    hide SecondaryKey, Positions;
    var slots := Slots(a, b, t, entries);
    var e, key := entries[i], slots[i].key;
    assert e in entries && slots[i] == SlotOf(a, b, t, e);
    assert e.oldPath in Contenders(a, b, key);
    GroupSizes(a, b, t, entries, key);
    forall q | Pair(a, b, e.oldPath, q) ensures |Contenders(a, b, key)| == 1 && |Contenders(b, a, key)| == 1 {}
    if Paired(slots, key) {
      PairedKey(a, b, t, entries, key);
      assert Pair(a, b, e.oldPath, Rewritten(entries, slots, i).newPath);
    }
  }

  /** An added entry is erased exactly when something moves to its path. */
  lemma AddedPairs(a: Index, b: Index, t: ElementType, entries: seq<DiffEntry>, i: nat)
    requires TypeListed(a, b, t, entries) && i < |entries| && Slots(a, b, t, entries)[i].AddedSlot?
    ensures var slots := Slots(a, b, t, entries);
      var e := entries[i];
      && e == EntryFor(Added, t, e.newPath) && MatchedBy(a, b, e)
      && (Erased(slots, i) <==> MovesHere(a, b, e.newPath))
  {
    hide SecondaryKey, Positions;
    var slots := Slots(a, b, t, entries);
    var e, key := entries[i], slots[i].key;
    assert e in entries && slots[i] == SlotOf(a, b, t, e);
    assert e.newPath in Contenders(b, a, key);
    GroupSizes(a, b, t, entries, key);
    forall p | Pair(a, b, p, e.newPath) ensures |Contenders(a, b, key)| == 1 && |Contenders(b, a, key)| == 1 {
      assert e.newPath in Contenders(b, a, SecondaryKey(a[p]).value);
    }
    if Paired(slots, key) {
      PairedKey(a, b, t, entries, key);
      var p := entries[RemovedAt(slots, key)[0]].oldPath;
      assert p in Contenders(a, b, key);
      assert Pair(a, b, p, e.newPath);
    }
  }

  /** What becomes of entry i, as a condition on the indexes. */
  lemma EntryOutcome(a: Index, b: Index, t: ElementType, entries: seq<DiffEntry>, i: nat)
    requires TypeListed(a, b, t, entries) && i < |entries|
    ensures var slots := Slots(a, b, t, entries);
      var e, r := entries[i], Rewritten(entries, slots, i);
      && r.elementType == e.elementType
      && (e.elementType != t ==> !Erased(slots, i) && r == e)
      && (e.elementType == t && !Erased(slots, i) ==> MovedBy(a, b, r) && r.oldPath == e.oldPath)
      && (e.elementType == t && MovedBy(a, b, e) ==> !Erased(slots, i) && r == e)
      && (e.elementType == t && e.kind == Removed && MovesAway(a, b, e.oldPath) ==>
            r.kind == Moved && Pair(a, b, e.oldPath, r.newPath))
      && (r.kind == Moved && e.elementType == t ==> e == EntryFor(Removed, t, r.oldPath))
  {
    hide SecondaryKey, Contenders, Paired, Partner;
    var slots := Slots(a, b, t, entries);
    var e := entries[i];
    assert e in entries;
    assert slots[i] == SlotOf(a, b, t, e);
    if e.elementType == t {
      assert MatchedBy(a, b, e);
      match slots[i]
      case RemovedSlot(_) => RemovedPairs(a, b, t, entries, i);
      case AddedSlot(_) => AddedPairs(a, b, t, entries, i);
      case Outside => UnslottedIsModified(a, b, t, e);
    }
  }

  /** Every type has a secondary key, so only matched elements stay out of the groups. */
  lemma UnslottedIsModified(a: Index, b: Index, t: ElementType, e: DiffEntry)
    requires e.elementType == t && MatchedBy(a, b, e) && SlotOf(a, b, t, e).Outside?
    ensures e.kind == Modified
  {}

  lemma OutcomesDiffer(a: Index, b: Index, t: ElementType, entries: seq<DiffEntry>, i: nat, j: nat)
    requires TypeListed(a, b, t, entries) && i < j < |entries|
    ensures var slots := Slots(a, b, t, entries);
      !Erased(slots, i) && !Erased(slots, j) ==> Rewritten(entries, slots, i) != Rewritten(entries, slots, j)
  {
    var slots := Slots(a, b, t, entries);
    EntryOutcome(a, b, t, entries, i);
    EntryOutcome(a, b, t, entries, j);
    assert entries[i] != entries[j];
    assert entries[i] in entries && entries[j] in entries;
    hide Slots, Erased;
    RewrittenOrNot(entries, slots, i);
    RewrittenOrNot(entries, slots, j);
    hide Rewritten, MovedBy, MovesAway, Pair;
  }

  lemma RewrittenOrNot(entries: seq<DiffEntry>, slots: seq<Slot>, i: nat)
    requires i < |entries| == |slots|
    ensures Rewritten(entries, slots, i) == entries[i] || Rewritten(entries, slots, i).kind == Moved
  {}

  /** Detecting the moves of the type ranked k turns one stage's listing into the next's. */
  lemma OutcomeLists(o: ParsedProject, n: ParsedProject, k: nat, entries: seq<DiffEntry>)
    requires k < |TYPES| && NoDuplicates(entries) && forall e :: e in entries <==> StageHas(o, n, k, e)
    ensures var t := TYPES[k];
      var after := Outcome(ProjectIndex(o, t), ProjectIndex(n, t), t, entries);
      NoDuplicates(after) && forall e :: e in after <==> StageHas(o, n, k + 1, e)
  {
    hide ProjectIndex, Erased, Rewritten, MovedBy, MatchedBy, Slots, KeptBelow, Pair;
    var t := TYPES[k];
    assert forall u: ElementType :: Rank(u) == k <==> u == t;
    var a, b := ProjectIndex(o, t), ProjectIndex(n, t);
    var slots := Slots(a, b, t, entries);
    assert TypeListed(a, b, t, entries);
    assert |slots| == |entries|;
    forall i, j | 0 <= i < j < |entries| && !Erased(slots, i) && !Erased(slots, j)
      ensures Rewritten(entries, slots, i) != Rewritten(entries, slots, j)
    {
      OutcomesDiffer(a, b, t, entries, i, j);
    }
    KeptMembers(entries, slots, |entries|);
    var after := Outcome(a, b, t, entries);
    assert after == KeptBelow(entries, slots, |entries|);
    forall e | e in after ensures StageHas(o, n, k + 1, e) {
      var i :| 0 <= i < |entries| && !Erased(slots, i) && Rewritten(entries, slots, i) == e;
      EntryOutcome(a, b, t, entries, i);
      assert entries[i] in entries;
    }
    forall e | StageHas(o, n, k + 1, e) ensures e in after {
      var i := SourceOf(o, n, k, entries, e);
    }
  }

  /** The entry of one stage that an entry of the next comes from. */
  lemma SourceOf(o: ParsedProject, n: ParsedProject, k: nat, entries: seq<DiffEntry>, e: DiffEntry) returns (i: nat)
    requires k < |TYPES| && NoDuplicates(entries) && forall e :: e in entries <==> StageHas(o, n, k, e)
    requires StageHas(o, n, k + 1, e)
    ensures var slots := Slots(ProjectIndex(o, TYPES[k]), ProjectIndex(n, TYPES[k]), TYPES[k], entries);
      i < |entries| && !Erased(slots, i) && Rewritten(entries, slots, i) == e
  {
    hide ProjectIndex, Erased, Rewritten, Slots, Contenders, SecondaryKey;
    var t := TYPES[k];
    assert forall u: ElementType :: Rank(u) == k <==> u == t;
    var a, b := ProjectIndex(o, t), ProjectIndex(n, t);
    assert TypeListed(a, b, t, entries);
    if e.elementType == t && e.kind == Moved {
      var source := EntryFor(Removed, t, e.oldPath);
      PairEnds(a, b, e.oldPath, e.newPath);
      assert MatchedBy(a, b, source);
      assert source in entries;
      i :| 0 <= i < |entries| && entries[i] == source;
      EntryOutcome(a, b, t, entries, i);
      var r := Rewritten(entries, Slots(a, b, t, entries), i);
      assert MovesAway(a, b, e.oldPath);
      OnePartner(a, b, e.oldPath, e.newPath, r.newPath);
      MovedSource(a, b, t, entries, i);
    } else {
      assert StageHas(o, n, k, e);
      i :| 0 <= i < |entries| && entries[i] == e;
      EntryOutcome(a, b, t, entries, i);
    }
  }

  lemma PairEnds(a: Index, b: Index, p: string, q: string)
    requires Pair(a, b, p, q)
    ensures p in a && p !in b && q in b && q !in a
    ensures SecondaryKey(b[q]) == SecondaryKey(a[p])
  {
    assert p in Contenders(a, b, SecondaryKey(a[p]).value);
    assert q in Contenders(b, a, SecondaryKey(a[p]).value);
  }

  lemma OnePartner(a: Index, b: Index, p: string, q: string, q': string)
    requires Pair(a, b, p, q) && Pair(a, b, p, q')
    ensures q == q'
  {
    assert q in Contenders(b, a, SecondaryKey(a[p]).value);
  }

  lemma MovedSource(a: Index, b: Index, t: ElementType, entries: seq<DiffEntry>, i: nat)
    requires TypeListed(a, b, t, entries) && i < |entries|
    requires entries[i].elementType == t && entries[i].kind == Removed && MovesAway(a, b, entries[i].oldPath)
    ensures var slots := Slots(a, b, t, entries);
      var r := Rewritten(entries, slots, i);
      !Erased(slots, i) && r == DiffEntry(Moved, t, entries[i].oldPath, r.newPath, [])
  {
    hide SecondaryKey, Contenders, Paired, Partner;
    var slots := Slots(a, b, t, entries);
    assert entries[i] in entries;
    assert slots[i] == SlotOf(a, b, t, entries[i]);
    RemovedIsSlotted(a, b, t, entries[i]);
    RemovedPairs(a, b, t, entries, i);
  }

  lemma RemovedIsSlotted(a: Index, b: Index, t: ElementType, e: DiffEntry)
    requires e.elementType == t && MatchedBy(a, b, e) && e.kind == Removed
    ensures SlotOf(a, b, t, e).RemovedSlot?
  {}

  lemma {:induction false} MovedEntriesList(o: ParsedProject, n: ParsedProject, k: nat)
    requires k <= |TYPES|
    ensures NoDuplicates(MovedEntries(o, n, k))
    ensures forall e :: e in MovedEntries(o, n, k) <==> StageHas(o, n, k, e)
  {
    hide ProjectIndex, MovedBy, MatchedBy, Outcome, MatchedTypes;
    if k == 0 {
      MatchedTypesList(o, n, |TYPES|);
    } else {
      MovedEntriesList(o, n, k - 1);
      OutcomeLists(o, n, k - 1, MovedEntries(o, n, k - 1));
    }
  }

  // ----- field diffs -----

  lemma {:induction false} PopulatedLists(o: ParsedProject, n: ParsedProject, entries: seq<DiffEntry>)
    requires NoDuplicates(entries) && forall e <- entries :: e.fieldDiffs == []
    ensures NoDuplicates(Populated(o, n, entries))
    ensures forall e :: e in Populated(o, n, entries) <==>
      exists source <- entries :: PopulatedEntry(o, n, source) == [e]
  {
    hide PopulatedEntry;
    if entries != [] {
      var front, last := entries[..|entries| - 1], entries[|entries| - 1];
      assert entries == front + [last];
      assert last in entries && last !in front;
      PopulatedLists(o, n, front);
      var own := PopulatedEntry(o, n, last);
      PopulatedOne(o, n, last);
      assert forall e <- front :: e in entries;
      forall e | e in Populated(o, n, front) ensures e.(fieldDiffs := []) in front {
        var source :| source in front && PopulatedEntry(o, n, source) == [e];
        PopulatedOne(o, n, source);
        assert e in PopulatedEntry(o, n, source);
      }
      assert forall e <- own :: e.(fieldDiffs := []) == last;
      JoinListings(Populated(o, n, front), own);
    }
  }

  /** At most one entry comes out, and it still tells which entry went in. */
  lemma PopulatedOne(o: ParsedProject, n: ParsedProject, e: DiffEntry)
    requires e.fieldDiffs == []
    ensures |PopulatedEntry(o, n, e)| <= 1
    ensures forall r <- PopulatedEntry(o, n, e) :: r.(fieldDiffs := []) == e && PopulatedEntry(o, n, e) == [r]
  {
    hide DiffPair;
  }

  lemma PopulatedIsReported(o: ParsedProject, n: ParsedProject, source: DiffEntry, e: DiffEntry)
    requires source == e.(fieldDiffs := [])
    ensures PopulatedEntry(o, n, source) == [e] <==>
      && e.fieldDiffs == (if e.kind == Modified || e.kind == Moved then DiffPair(o, n, e) else [])
      && (e.kind == Modified ==> e.fieldDiffs != [])
  {
    hide ElementDiffs, ProjectIndex;
    assert DiffPair(o, n, source) == DiffPair(o, n, e);
  }

  /**
    The finished report lists, once each, exactly the entries the two path
    indexes call for.
   */
  lemma ReportIsExact(o: ParsedProject, n: ParsedProject, entries: seq<DiffEntry>, diagnostics: seq<DiffDiagnostic>)
    requires IsDiff(o, n, entries, diagnostics)
    ensures NoDuplicates(entries)
    ensures forall e :: e in entries <==> Reported(o, n, e)
  {
    hide EntryLeq, DiagnosticLeq, MovedDiagnostics, Populated, PopulatedEntry, MovedBy, MatchedBy, DiffPair,
      ProjectIndex;
    var moved := MovedEntries(o, n, |TYPES|);
    var populated := Populated(o, n, moved);
    MovedEntriesList(o, n, |TYPES|);
    forall e | e in moved ensures e.fieldDiffs == [] {
      StagesAreBare(o, n, |TYPES|, e);
    }
    PopulatedLists(o, n, moved);
    forall e ensures e in entries <==> Reported(o, n, e) {
      InMultiset(entries, e);
      InMultiset(populated, e);
      var source := e.(fieldDiffs := []);
      PopulatedIsReported(o, n, source, e);
      assert StageHas(o, n, |TYPES|, source)
        <==> MovedBy(ProjectIndex(o, e.elementType), ProjectIndex(n, e.elementType), source);
      if e in populated {
        var s :| s in moved && PopulatedEntry(o, n, s) == [e];
        PopulatedOne(o, n, s);
        assert e in PopulatedEntry(o, n, s);
      }
    }
    SortedListing(entries, populated);
  }

  lemma StagesAreBare(o: ParsedProject, n: ParsedProject, k: nat, e: DiffEntry)
    requires StageHas(o, n, k, e)
    ensures e.fieldDiffs == []
  {
    hide ProjectIndex, Pair;
  }

  lemma SortedListing<T>(a: seq<T>, b: seq<T>)
    requires multiset(a) == multiset(b) && NoDuplicates(b)
    ensures NoDuplicates(a)
  {
    forall i, j | 0 <= i < j < |a| && a[i] == a[j] ensures false {
      CountTwice(a, i, j);
      CountOnce(b, a[i]);
    }
  }
}
