/** Reference sites of parsed files, the names files define, and what is still missing. */
module References {
  import opened Model

  /** Only PDUs, signals and control units are targets of cross-file references. */
  datatype Kind = PduKind | SignalKind | EcuKind

  datatype Ref = Ref(kind: Kind, name: string)

  // ----- reference sites, in the order they are visited -----

  function Named(kind: Kind, names: seq<string>): (r: seq<Ref>)
    ensures forall x :: x in r <==> x.kind == kind && x.name in names
  {
    if names == [] then []
    else
      var last := names[|names| - 1];
      assert names == names[..|names| - 1] + [last];
      Named(kind, names[..|names| - 1]) + [Ref(kind, last)]
  }

  function PduRefNames(ms: seq<FramePduMapping>): (r: seq<string>)
    ensures forall x :: x in r <==> exists m <- ms :: m.pduShortNameRef == x
  {
    if ms == [] then []
    else
      assert ms == ms[..|ms| - 1] + [ms[|ms| - 1]];
      PduRefNames(ms[..|ms| - 1]) + [ms[|ms| - 1].pduShortNameRef]
  }

  function SignalRefNames(ms: seq<PduSignalMapping>): (r: seq<string>)
    ensures forall x :: x in r <==> exists m <- ms :: m.signalShortNameRef == x
  {
    if ms == [] then []
    else
      assert ms == ms[..|ms| - 1] + [ms[|ms| - 1]];
      SignalRefNames(ms[..|ms| - 1]) + [ms[|ms| - 1].signalShortNameRef]
  }

  function FrameRefs(f: Frame): seq<Ref> {
    Named(EcuKind, f.transmitters) + Named(PduKind, PduRefNames(f.pdus))
  }

  function FramesRefs(frames: seq<Frame>): seq<Ref> {
    if frames == [] then [] else FramesRefs(frames[..|frames| - 1]) + FrameRefs(frames[|frames| - 1])
  }

  function PdusRefs(pdus: seq<Pdu>): seq<Ref> {
    if pdus == [] then []
    else PdusRefs(pdus[..|pdus| - 1]) + Named(SignalKind, SignalRefNames(pdus[|pdus| - 1].signalMappings))
  }

  function SignalsRefs(signals: seq<Signal>): seq<Ref> {
    if signals == [] then []
    else SignalsRefs(signals[..|signals| - 1]) + Named(EcuKind, signals[|signals| - 1].receivers)
  }

  function GroupsRefs(groups: seq<SignalGroup>): seq<Ref> {
    if groups == [] then []
    else GroupsRefs(groups[..|groups| - 1]) + Named(SignalKind, groups[|groups| - 1].members)
  }

  function FileRefs(file: ParsedFile): seq<Ref> {
    FramesRefs(file.frames) + PdusRefs(file.pdus) + SignalsRefs(file.signals) + GroupsRefs(file.signalGroups)
  }

  function AllRefs(files: seq<ParsedFile>): seq<Ref> {
    if files == [] then [] else AllRefs(files[..|files| - 1]) + FileRefs(files[|files| - 1])
  }

  // ----- defined names -----

  function PduDefs(pdus: seq<Pdu>): (r: seq<Ref>)
    ensures forall x :: x in r <==> x.kind == PduKind && exists p <- pdus :: p.common.shortName == x.name
  {
    if pdus == [] then []
    else
      assert pdus == pdus[..|pdus| - 1] + [pdus[|pdus| - 1]];
      PduDefs(pdus[..|pdus| - 1]) + [Ref(PduKind, pdus[|pdus| - 1].common.shortName)]
  }

  function SignalDefs(signals: seq<Signal>): (r: seq<Ref>)
    ensures forall x :: x in r <==> x.kind == SignalKind && exists s <- signals :: s.common.shortName == x.name
  {
    if signals == [] then []
    else
      assert signals == signals[..|signals| - 1] + [signals[|signals| - 1]];
      SignalDefs(signals[..|signals| - 1]) + [Ref(SignalKind, signals[|signals| - 1].common.shortName)]
  }

  function EcuDefs(ecus: seq<EcuInstance>): (r: seq<Ref>)
    ensures forall x :: x in r <==> x.kind == EcuKind && exists u <- ecus :: u.common.shortName == x.name
  {
    if ecus == [] then []
    else
      assert ecus == ecus[..|ecus| - 1] + [ecus[|ecus| - 1]];
      EcuDefs(ecus[..|ecus| - 1]) + [Ref(EcuKind, ecus[|ecus| - 1].common.shortName)]
  }

  function FileDefs(file: ParsedFile): seq<Ref> {
    PduDefs(file.pdus) + SignalDefs(file.signals) + EcuDefs(file.ecuInstances)
  }

  function AllDefs(files: seq<ParsedFile>): seq<Ref> {
    if files == [] then [] else AllDefs(files[..|files| - 1]) + FileDefs(files[|files| - 1])
  }

  function Known(files: seq<ParsedFile>): set<Ref> {
    set x | x in AllDefs(files)
  }

  // ----- missing names -----

  /** The sites that name something nobody defines, in order. */
  function Unresolved(refs: seq<Ref>, known: set<Ref>): seq<Ref> {
    if refs == [] then []
    else
      var last := refs[|refs| - 1];
      Unresolved(refs[..|refs| - 1], known) + if last.name != "" && last !in known then [last] else []
  }

  lemma {:induction false} UnresolvedMembers(refs: seq<Ref>, known: set<Ref>, x: Ref)
    ensures x in Unresolved(refs, known) <==> x in refs && x.name != "" && x !in known
  {
    if refs != [] {
      UnresolvedMembers(refs[..|refs| - 1], known, x);
      assert refs == refs[..|refs| - 1] + [refs[|refs| - 1]];
    }
  }

  function Wanted(files: seq<ParsedFile>): set<Ref> {
    set x | x in Unresolved(AllRefs(files), Known(files))
  }

  // ----- the walks -----

  method PushNamed(kind: Kind, names: seq<string>, refs: seq<Ref>) returns (grown: seq<Ref>)
    ensures grown == refs + Named(kind, names)
  {
    grown := refs;
    for i := 0 to |names|
      invariant grown == refs + Named(kind, names[..i])
    {
      assert names[..i + 1][..i] == names[..i];
      grown := grown + [Ref(kind, names[i])];
    }
    assert names[..|names|] == names;
  }

  method PushFrames(frames: seq<Frame>, refs: seq<Ref>) returns (grown: seq<Ref>)
    ensures grown == refs + FramesRefs(frames)
  {
    hide Named, PduRefNames;
    grown := refs;
    for i := 0 to |frames|
      invariant grown == refs + FramesRefs(frames[..i])
    {
      assert frames[..i + 1][..i] == frames[..i];
      grown := PushNamed(EcuKind, frames[i].transmitters, grown);
      grown := PushNamed(PduKind, PduRefNames(frames[i].pdus), grown);
    }
    assert frames[..|frames|] == frames;
  }

  method PushPdus(pdus: seq<Pdu>, refs: seq<Ref>) returns (grown: seq<Ref>)
    ensures grown == refs + PdusRefs(pdus)
  {
    hide Named, SignalRefNames;
    grown := refs;
    for i := 0 to |pdus|
      invariant grown == refs + PdusRefs(pdus[..i])
    {
      assert pdus[..i + 1][..i] == pdus[..i];
      grown := PushNamed(SignalKind, SignalRefNames(pdus[i].signalMappings), grown);
    }
    assert pdus[..|pdus|] == pdus;
  }

  method PushSignals(signals: seq<Signal>, refs: seq<Ref>) returns (grown: seq<Ref>)
    ensures grown == refs + SignalsRefs(signals)
  {
    hide Named;
    grown := refs;
    for i := 0 to |signals|
      invariant grown == refs + SignalsRefs(signals[..i])
    {
      assert signals[..i + 1][..i] == signals[..i];
      grown := PushNamed(EcuKind, signals[i].receivers, grown);
    }
    assert signals[..|signals|] == signals;
  }

  method PushGroups(groups: seq<SignalGroup>, refs: seq<Ref>) returns (grown: seq<Ref>)
    ensures grown == refs + GroupsRefs(groups)
  {
    hide Named;
    grown := refs;
    for i := 0 to |groups|
      invariant grown == refs + GroupsRefs(groups[..i])
    {
      assert groups[..i + 1][..i] == groups[..i];
      grown := PushNamed(SignalKind, groups[i].members, grown);
    }
    assert groups[..|groups|] == groups;
  }

  method FileReferences(file: ParsedFile) returns (refs: seq<Ref>)
    ensures refs == FileRefs(file)
  {
    hide FramesRefs, PdusRefs, SignalsRefs, GroupsRefs;
    refs := PushFrames(file.frames, []);
    refs := PushPdus(file.pdus, refs);
    refs := PushSignals(file.signals, refs);
    refs := PushGroups(file.signalGroups, refs);
  }

  method CollectKnownRefs(files: seq<ParsedFile>) returns (known: set<Ref>)
    ensures known == Known(files)
  {
    hide FileDefs;
    known := {};
    for i := 0 to |files|
      invariant known == Known(files[..i])
    {
      assert files[..i + 1][..i] == files[..i];
      known := known + set x | x in FileDefs(files[i]);
    }
    assert files[..|files|] == files;
  }

  lemma {:induction false} UnresolvedConcat(a: seq<Ref>, b: seq<Ref>, known: set<Ref>)
    ensures Unresolved(a + b, known) == Unresolved(a, known) + Unresolved(b, known)
  {
    if b == [] {
      assert a + b == a;
    } else {
      var r := a + b;
      assert r[..|r| - 1] == a + b[..|b| - 1];
      UnresolvedConcat(a, b[..|b| - 1], known);
    }
  }

  method PushUnresolved(refs: seq<Ref>, known: set<Ref>, sites: seq<Ref>) returns (grown: seq<Ref>)
    ensures grown == sites + Unresolved(refs, known)
  {
    grown := sites;
    for i := 0 to |refs|
      invariant grown == sites + Unresolved(refs[..i], known)
    {
      assert refs[..i + 1][..i] == refs[..i];
      if refs[i].name == "" {
        continue;
      }
      if refs[i] !in known {
        grown := grown + [refs[i]];
      }
    }
    assert refs[..|refs|] == refs;
  }

  /** The sites no file resolves; the final check throws when there is one. */
  method UnresolvedSites(files: seq<ParsedFile>) returns (sites: seq<Ref>)
    ensures sites == Unresolved(AllRefs(files), Known(files))
  {
    hide Unresolved, FileRefs, Known;
    var known := CollectKnownRefs(files);
    sites := [];
    UnresolvedNothing(known);
    for i := 0 to |files|
      invariant sites == Unresolved(AllRefs(files[..i]), known)
    {
      assert files[..i + 1][..i] == files[..i];
      var refs := FileReferences(files[i]);
      UnresolvedConcat(AllRefs(files[..i]), refs, known);
      sites := PushUnresolved(refs, known, sites);
    }
    assert files[..|files|] == files;
  }

  lemma UnresolvedNothing(known: set<Ref>)
    ensures Unresolved(AllRefs([]), known) == []
  {}

  method CollectWantedRefs(files: seq<ParsedFile>) returns (wanted: set<Ref>)
    ensures wanted == Wanted(files)
  {
    var sites := UnresolvedSites(files);
    wanted := set x | x in sites;
  }

  // ----- what the sets mean -----

  lemma {:induction false} AllRefsMembers(files: seq<ParsedFile>, x: Ref)
    ensures x in AllRefs(files) <==> exists file <- files :: x in FileRefs(file)
  {
    hide FileRefs;
    if files != [] {
      AllRefsMembers(files[..|files| - 1], x);
      assert files == files[..|files| - 1] + [files[|files| - 1]];
    }
  }

  lemma {:induction false} AllDefsMembers(files: seq<ParsedFile>, x: Ref)
    ensures x in AllDefs(files) <==> exists file <- files :: x in FileDefs(file)
  {
    hide FileDefs;
    if files != [] {
      AllDefsMembers(files[..|files| - 1], x);
      assert files == files[..|files| - 1] + [files[|files| - 1]];
    }
  }

  /** Some file defines a record of that kind and name. */
  ghost predicate DefinedIn(files: seq<ParsedFile>, kind: Kind, name: string) {
    exists file <- files ::
      match kind
      case PduKind => exists p <- file.pdus :: p.common.shortName == name
      case SignalKind => exists s <- file.signals :: s.common.shortName == name
      case EcuKind => exists u <- file.ecuInstances :: u.common.shortName == name
  }

  ghost predicate Resolves(files: seq<ParsedFile>, kind: Kind, name: string) {
    name == "" || DefinedIn(files, kind, name)
  }

  /** Every reference of the five families that names something has a target. */
  ghost predicate AllResolve(files: seq<ParsedFile>) {
    forall file <- files ::
      && (forall f <- file.frames :: forall t <- f.transmitters :: Resolves(files, EcuKind, t))
      && (forall f <- file.frames :: forall m <- f.pdus :: Resolves(files, PduKind, m.pduShortNameRef))
      && (forall p <- file.pdus :: forall m <- p.signalMappings :: Resolves(files, SignalKind, m.signalShortNameRef))
      && (forall s <- file.signals :: forall u <- s.receivers :: Resolves(files, EcuKind, u))
      && (forall g <- file.signalGroups :: forall s <- g.members :: Resolves(files, SignalKind, s))
  }

  lemma KnownMeans(files: seq<ParsedFile>, x: Ref)
    ensures x in Known(files) <==> DefinedIn(files, x.kind, x.name)
  {
    hide PduDefs, SignalDefs, EcuDefs, AllDefs;
    AllDefsMembers(files, x);
  }

  lemma {:induction false} FramesRefsMembers(frames: seq<Frame>, x: Ref)
    ensures x in FramesRefs(frames) <==>
      || (x.kind == EcuKind && exists f <- frames :: x.name in f.transmitters)
      || (x.kind == PduKind && exists f <- frames :: exists m <- f.pdus :: m.pduShortNameRef == x.name)
  {
    hide Named, PduRefNames;
    if frames != [] {
      var front, last := frames[..|frames| - 1], frames[|frames| - 1];
      FramesRefsMembers(front, x);
      assert frames == front + [last];
    }
  }

  lemma {:induction false} PdusRefsMembers(pdus: seq<Pdu>, x: Ref)
    ensures x in PdusRefs(pdus) <==> x.kind == SignalKind && exists p <- pdus :: exists m <- p.signalMappings ::
      m.signalShortNameRef == x.name
  {
    hide Named, SignalRefNames;
    if pdus != [] {
      var front, last := pdus[..|pdus| - 1], pdus[|pdus| - 1];
      PdusRefsMembers(front, x);
      assert pdus == front + [last];
    }
  }

  lemma {:induction false} SignalsRefsMembers(signals: seq<Signal>, x: Ref)
    ensures x in SignalsRefs(signals) <==> x.kind == EcuKind && exists s <- signals :: x.name in s.receivers
  {
    hide Named;
    if signals != [] {
      var front, last := signals[..|signals| - 1], signals[|signals| - 1];
      SignalsRefsMembers(front, x);
      assert signals == front + [last];
    }
  }

  lemma {:induction false} GroupsRefsMembers(groups: seq<SignalGroup>, x: Ref)
    ensures x in GroupsRefs(groups) <==> x.kind == SignalKind && exists g <- groups :: x.name in g.members
  {
    hide Named;
    if groups != [] {
      var front, last := groups[..|groups| - 1], groups[|groups| - 1];
      GroupsRefsMembers(front, x);
      assert groups == front + [last];
    }
  }

  lemma FileRefsMembers(file: ParsedFile, x: Ref)
    ensures x in FileRefs(file) <==>
      || (x.kind == EcuKind && exists f <- file.frames :: x.name in f.transmitters)
      || (x.kind == PduKind && exists f <- file.frames :: exists m <- f.pdus :: m.pduShortNameRef == x.name)
      || (x.kind == SignalKind && exists p <- file.pdus :: exists m <- p.signalMappings ::
        m.signalShortNameRef == x.name)
      || (x.kind == EcuKind && exists s <- file.signals :: x.name in s.receivers)
      || (x.kind == SignalKind && exists g <- file.signalGroups :: x.name in g.members)
  {
    hide FramesRefs, PdusRefs, SignalsRefs, GroupsRefs;
    FramesRefsMembers(file.frames, x);
    PdusRefsMembers(file.pdus, x);
    SignalsRefsMembers(file.signals, x);
    GroupsRefsMembers(file.signalGroups, x);
  }

  /** Nothing is wanted exactly when all five families resolve. */
  lemma NothingWanted(files: seq<ParsedFile>)
    ensures Wanted(files) == {} <==> AllResolve(files)
  {
    hide Unresolved, AllRefs, Known, DefinedIn, FileRefs;
    if Wanted(files) == {} {
      forall file, x | file in files && x in FileRefs(file) ensures Resolves(files, x.kind, x.name) {
        AllRefsMembers(files, x);
        KnownMeans(files, x);
        UnresolvedMembers(AllRefs(files), Known(files), x);
        assert x !in Wanted(files);
      }
      forall file | file in files
        ensures (forall f <- file.frames :: forall t <- f.transmitters :: Resolves(files, EcuKind, t))
        ensures (forall f <- file.frames :: forall m <- f.pdus :: Resolves(files, PduKind, m.pduShortNameRef))
        ensures (forall p <- file.pdus :: forall m <- p.signalMappings ::
          Resolves(files, SignalKind, m.signalShortNameRef))
        ensures (forall s <- file.signals :: forall u <- s.receivers :: Resolves(files, EcuKind, u))
        ensures (forall g <- file.signalGroups :: forall s <- g.members :: Resolves(files, SignalKind, s))
      {
        FileResolves(files, file);
      }
    }
    if AllResolve(files) {
      forall x ensures x !in Wanted(files) {
        WantedUnresolved(files, x);
      }
    }
  }

  lemma FileResolves(files: seq<ParsedFile>, file: ParsedFile)
    requires forall x :: x in FileRefs(file) ==> Resolves(files, x.kind, x.name)
    ensures (forall f <- file.frames :: forall t <- f.transmitters :: Resolves(files, EcuKind, t))
    ensures (forall f <- file.frames :: forall m <- f.pdus :: Resolves(files, PduKind, m.pduShortNameRef))
    ensures (forall p <- file.pdus :: forall m <- p.signalMappings :: Resolves(files, SignalKind, m.signalShortNameRef))
    ensures (forall s <- file.signals :: forall u <- s.receivers :: Resolves(files, EcuKind, u))
    ensures (forall g <- file.signalGroups :: forall s <- g.members :: Resolves(files, SignalKind, s))
  {
    hide FileRefs, Resolves;
    forall f, t | f in file.frames && t in f.transmitters ensures Resolves(files, EcuKind, t) {
      FileRefsMembers(file, Ref(EcuKind, t));
    }
    forall f, m | f in file.frames && m in f.pdus ensures Resolves(files, PduKind, m.pduShortNameRef) {
      FileRefsMembers(file, Ref(PduKind, m.pduShortNameRef));
    }
    forall p, m | p in file.pdus && m in p.signalMappings ensures Resolves(files, SignalKind, m.signalShortNameRef) {
      FileRefsMembers(file, Ref(SignalKind, m.signalShortNameRef));
    }
    forall s, u | s in file.signals && u in s.receivers ensures Resolves(files, EcuKind, u) {
      FileRefsMembers(file, Ref(EcuKind, u));
    }
    forall g, s | g in file.signalGroups && s in g.members ensures Resolves(files, SignalKind, s) {
      FileRefsMembers(file, Ref(SignalKind, s));
    }
  }

  lemma WantedUnresolved(files: seq<ParsedFile>, x: Ref)
    requires AllResolve(files)
    ensures x !in Wanted(files)
  {
    hide AllRefs, Known, DefinedIn, FileRefs, Unresolved;
    AllRefsMembers(files, x);
    KnownMeans(files, x);
    UnresolvedMembers(AllRefs(files), Known(files), x);
    if x in AllRefs(files) {
      var file :| file in files && x in FileRefs(file);
      FileRefsMembers(file, x);
    }
  }
}
