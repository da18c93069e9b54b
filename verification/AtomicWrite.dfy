/**
  Atomic cache writes: every writer fills its own temporary file, syncs it and
  renames it over the target. Any number of writers interleave, fail and crash
  between any two system calls.
 */
module AtomicWrite {
  import opened Text
  import opened Wrappers

  // ----- the system calls as steps -----

  /** Where a writer stands. */
  datatype Progress =
    | Idle
    | Refused                  // the directory could not be created
    | Opened(done: nat)        // that many bytes are in the temporary file
    | Synced
    | Renamed
    | Failing                  // an exception is on its way to the cleanup
    | Threw(cleaned: bool)
    | Crashed

  datatype Action =
    | DirectoryFails
    | Open(ok: bool)
    | Wrote(n: nat)            // a possibly short write
    | Interrupted              // EINTR: nothing written, tried again
    | WriteFails
    | Sync(ok: bool)
    | Rename(ok: bool)
    | CleanUp(ok: bool)
    | Crash

  /** One writer acts, or the power goes: each unsynced file named keeps only a prefix of so many bytes. */
  datatype Event = Act(writer: nat, action: Action) | PowerLoss(kept: map<string, nat>)

  /** The target all writers replace, and each writer's temporary name and payload. */
  datatype Writers = Writers(target: string, temps: seq<string>, payloads: seq<string>)

  type Files = map<string, string>

  /** Files, progress per writer, and the writers whose rename took effect, in order. */
  datatype System = System(files: Files, progress: seq<Progress>, renamed: seq<nat>)

  ghost predicate WellFormed(w: Writers) {
    |w.temps| == |w.payloads| && NoDuplicates(w.temps) && w.target !in w.temps
  }

  function Start(w: Writers, files: Files): System {
    System(files, seq(|w.temps|, _ => Idle), [])
  }

  function At(s: System, i: nat, p: Progress): System
    requires i < |s.progress|
  {
    s.(progress := s.progress[i := p])
  }

  predicate Ended(p: Progress) {
    p.Refused? || p.Renamed? || p.Threw? || p.Crashed?
  }

  /** An action that does not fit the writer's progress does nothing. */
  function ActOf(w: Writers, s: System, i: nat, action: Action): System
    requires |w.temps| == |w.payloads| == |s.progress| && i < |w.temps|
  {
    var tmp, data, p := w.temps[i], w.payloads[i], s.progress[i];
    if action == Crash then if Ended(p) then s else At(s, i, Crashed)
    else
      match p
      case Idle =>
        (match action
         case DirectoryFails => At(s, i, Refused)
         case Open(ok) => if ok then At(s.(files := s.files[tmp := ""]), i, Opened(0)) else At(s, i, Failing)
         case _ => s)
      case Opened(done) =>
        (match action
         case Wrote(n) => if done + n <= |data|
           then At(s.(files := s.files[tmp := data[..done + n]]), i, Opened(done + n)) else s
         case WriteFails => if done < |data| then At(s, i, Failing) else s
         case Sync(ok) => if done < |data| then s else if ok then At(s, i, Synced) else At(s, i, Failing)
         case _ => s)
      case Synced =>
        (match action
         case Rename(ok) =>
           if !ok then At(s, i, Failing)
           else if tmp !in s.files then s
           else At(System((s.files - {tmp})[w.target := s.files[tmp]], s.progress, s.renamed + [i]), i, Renamed)
         case _ => s)
      case Failing =>
        (match action
         case CleanUp(ok) => if ok then At(s.(files := s.files - {tmp}), i, Threw(true)) else At(s, i, Threw(false))
         case _ => s)
      case _ => s
  }

  /** Some writer's temporary file whose content is not known to have reached the disk. */
  predicate Unsynced(w: Writers, s: System, path: string)
    requires |w.temps| == |s.progress|
  {
    exists i :: 0 <= i < |w.temps| && w.temps[i] == path && !s.progress[i].Synced? && !s.progress[i].Renamed?
  }

  /** What a power loss leaves of a file: all of it when synced, else a prefix of its own. */
  function Kept(w: Writers, s: System, path: string, kept: map<string, nat>): string
    requires path in s.files && |w.temps| == |s.progress|
  {
    if path in kept && Unsynced(w, s, path) then s.files[path][..Min(kept[path], |s.files[path]|)] else s.files[path]
  }

  function Lose(w: Writers, s: System, kept: map<string, nat>): System
    requires |w.temps| == |s.progress|
  {
    System(map path | path in s.files :: Kept(w, s, path, kept),
           seq(|s.progress|, i requires 0 <= i < |s.progress| => if Ended(s.progress[i]) then s.progress[i]
             else Crashed),
           s.renamed)
  }

  function Step(w: Writers, s: System, e: Event): (r: System)
    requires |w.temps| == |w.payloads| == |s.progress|
    ensures |r.progress| == |s.progress|
  {
    match e
    case Act(i, action) => if i < |w.temps| then ActOf(w, s, i, action) else s
    case PowerLoss(kept) => Lose(w, s, kept)
  }

  function Run(w: Writers, s: System, events: seq<Event>): (r: System)
    requires |w.temps| == |w.payloads| == |s.progress|
    ensures |r.progress| == |s.progress|
  {
    if events == [] then s else Step(w, Run(w, s, events[..|events| - 1]), events[|events| - 1])
  }

  // ----- one writer's code -----

  /** What the environment answers to each call; write results come one by one. */
  datatype Environment = Environment(
    directoryOk: bool, openOk: bool, writes: seq<Action>, syncOk: bool, renameOk: bool, removeOk: bool)

  datatype Outcome = Done | Failed | StillWriting

  predicate WriteAnswers(writes: seq<Action>) {
    forall a <- writes :: a.Wrote? || a.Interrupted? || a.WriteFails?
  }

  /** What a write loop makes of its answers: all out, failed, or still waiting for more. */
  function WriteResult(size: nat, done: nat, writes: seq<Action>): Option<bool>
    requires done <= size
    decreases |writes|
  {
    if done == size then Some(true)
    else if writes == [] then None
    else
      match writes[0]
      case WriteFails => Some(false)
      case Wrote(n) => WriteResult(size, done + Min(n, size - done), writes[1..])
      case _ => WriteResult(size, done, writes[1..])
  }

  /** How a call ends, given the environment's answers. */
  function OutcomeOf(env: Environment, size: nat): Outcome {
    if !env.directoryOk || !env.openOk then Failed
    else
      match WriteResult(size, 0, env.writes)
      case None => StillWriting
      case Some(ok) => if ok && env.syncOk && env.renameOk then Done else Failed
  }

  function Accepted(writes: seq<Action>): nat {
    if writes == [] then 0 else (if writes[0].Wrote? then writes[0].n else 0) + Accepted(writes[1..])
  }

  /**
    Short writes and interruptions only delay: without a failing write the loop
    is through once enough was accepted.
   */
  lemma {:induction false} ShortWritesOnlyDelay(size: nat, done: nat, writes: seq<Action>)
    requires done <= size && forall a <- writes :: !a.WriteFails?
    ensures WriteResult(size, done, writes) == if done + Accepted(writes) >= size then Some(true) else None
    decreases |writes|
  {
    if done < size && writes != [] {
      var next := if writes[0].Wrote? then done + Min(writes[0].n, size - done) else done;
      ShortWritesOnlyDelay(size, next, writes[1..]);
    }
  }

  /** A call whose every answer is a success ends with the target replaced, once its bytes are accepted. */
  lemma CallsSucceed(env: Environment, size: nat)
    requires env.directoryOk && env.openOk && env.syncOk && env.renameOk
    requires (forall a <- env.writes :: !a.WriteFails?) && Accepted(env.writes) >= size
    ensures OutcomeOf(env, size) == Done
  {
    ShortWritesOnlyDelay(size, 0, env.writes);
  }

  /** One writer running alone; the ghost fields record the steps of the machine it makes. */
  class Process {
    var files: Files
    const writers: Writers
    const me: nat
    ghost const start: System
    ghost var system: System
    ghost var trace: seq<Event>

    ghost predicate Recorded()
      reads this
    {
      && WellFormed(writers) && me < |writers.temps| == |start.progress| == |system.progress|
      && system == Run(writers, start, trace)
    }

    ghost predicate Valid()
      reads this
    {
      Recorded() && files == system.files
    }

    constructor (w: Writers, i: nat, s: System)
      requires WellFormed(w) && i < |w.temps| == |s.progress|
      ensures Valid() && files == s.files && system == s && writers == w && me == i && start == s
    {
      files, writers, me := s.files, w, i;
      start, system, trace := s, s, [];
    }

    function Temp(): string
      requires me < |writers.temps|
    {
      writers.temps[me]
    }

    function Payload(): string
      requires me < |writers.payloads|
    {
      writers.payloads[me]
    }

    /** Record the step a system call makes. */
    ghost method Note(action: Action)
      requires Recorded()
      modifies this`system, this`trace
      ensures Recorded() && system == Step(writers, old(system), Act(me, action))
    {
      RunMore(writers, start, trace, Act(me, action));
      system := Step(writers, system, Act(me, action));
      trace := trace + [Act(me, action)];
    }

    /** Writes until everything is out; None when the answers run out first. */
    method WriteFull(writes: seq<Action>) returns (ok: Option<bool>)
      requires Valid() && system.progress[me] == Opened(0) && Temp() in files && files[Temp()] == ""
        && WriteAnswers(writes)
      modifies this
      ensures Valid() && files - {Temp()} == old(files) - {Temp()} && Temp() in files
      ensures ok == WriteResult(|Payload()|, 0, writes)
      ensures ok.Some? && ok.value ==> system.progress[me] == Opened(|Payload()|) && files[Temp()] == Payload()
      ensures ok.Some? && !ok.value ==> system.progress[me] == Failing
    {
      hide Run;
      var data := Payload();
      var done: nat := 0;
      for i := 0 to |writes|
        invariant Valid() && done <= |data| && system.progress[me] == Opened(done)
        invariant files - {Temp()} == old(files) - {Temp()} && Temp() in files && files[Temp()] == data[..done]
        invariant WriteResult(|data|, 0, writes) == WriteResult(|data|, done, writes[i..])
      {
        assert writes[i..][1..] == writes[i + 1..];
        if done == |data| {
          return Some(true);
        }
        assert writes[i] in writes;
        match writes[i]
        case Interrupted =>
          continue;
        case WriteFails =>
          Note(WriteFails);
          return Some(false);
        case Wrote(n) =>
          var count := Min(n, |data| - done);
          files := files[Temp() := data[..done + count]];
          done := done + count;
          Note(Wrote(count));
      }
      ok := if done == |data| then Some(true) else None;
    }

    /** The cleanup object's destructor while it is armed. */
    method Destroy(removeOk: bool)
      requires Valid() && system.progress[me] == Failing
      modifies this
      ensures Valid() && system.progress[me] == Threw(removeOk)
      ensures files - {Temp()} == old(files) - {Temp()} && (removeOk ==> Temp() !in files)
    {
      hide Run;
      if removeOk {
        files := files - {Temp()};
      }
      Note(CleanUp(removeOk));
    }

    /** Sync and rename a completely written temporary file. */
    method Publish(syncOk: bool, renameOk: bool) returns (ok: bool)
      requires Valid() && system.progress[me] == Opened(|Payload()|) && Temp() in files && files[Temp()] == Payload()
      modifies this
      ensures Valid() && ok == (syncOk && renameOk)
      ensures ok ==> system.progress[me] == Renamed && files == (old(files) - {Temp()})[writers.target := Payload()]
      ensures !ok ==> system.progress[me] == Failing && files == old(files)
    {
      hide Run;
      Note(Sync(syncOk));
      if !syncOk {
        return false;
      }
      Note(Rename(renameOk));
      if !renameOk {
        return false;
      }
      files := (files - {Temp()})[writers.target := files[Temp()]];
      return true;
    }

    /** Create the temporary file. */
    method OpenTemp(openOk: bool)
      requires Valid() && system.progress[me] == Idle
      modifies this
      ensures Valid() && system.progress[me] == if openOk then Opened(0) else Failing
      ensures files == if openOk then old(files)[Temp() := ""] else old(files)
    {
      hide Run;
      if openOk {
        files := files[Temp() := ""];
      }
      Note(Open(openOk));
    }

    method WriteCacheAtomically(env: Environment) returns (outcome: Outcome)
      requires Valid() && system.progress[me] == Idle && WriteAnswers(env.writes)
      modifies this
      ensures Valid()
      ensures outcome == Done ==>
        system.progress[me] == Renamed && files == (old(files) - {Temp()})[writers.target := Payload()]
      ensures outcome == OutcomeOf(env, |Payload()|)
      ensures outcome != Done ==> files - {Temp()} == old(files) - {Temp()}
      ensures outcome == Failed && env.directoryOk && env.removeOk ==> Temp() !in files
    {
      hide Run, ActOf;
      if !env.directoryOk {
        Refuse();
        return Failed;
      }
      OpenTemp(env.openOk);
      if !env.openOk {
        Destroy(env.removeOk);
        return Failed;
      }
      var ok := WriteFull(env.writes);
      if ok.None? {
        return StillWriting;
      }
      if !ok.value {
        Destroy(env.removeOk);
        return Failed;
      }
      var published := Publish(env.syncOk, env.renameOk);
      if !published {
        Destroy(env.removeOk);
        return Failed;
      }
      return Done;
    }

    ghost method Refuse()
      requires Valid() && system.progress[me] == Idle
      modifies this`system, this`trace
      ensures Valid() && system.progress[me] == Refused
    {
      hide Run;
      Note(DirectoryFails);
    }
  }

  lemma RunMore(w: Writers, s: System, trace: seq<Event>, e: Event)
    requires |w.temps| == |w.payloads| == |s.progress|
    ensures Run(w, s, trace + [e]) == Step(w, Run(w, s, trace), e)
  {
    assert (trace + [e])[..|trace|] == trace;
  }

  // ----- every run -----

  /** Apart from target and temporary files nothing changes; the target has what the last rename brought. */
  ghost predicate FilesRight(w: Writers, before: Files, s: System) {
    && (forall path :: path != w.target && path !in w.temps ==> (path in s.files <==> path in before))
    && (forall path ::
      path != w.target && path !in w.temps && path in before && path in s.files ==> s.files[path] == before[path])
    && (forall i <- s.renamed :: i < |w.payloads|)
    && (if s.renamed == [] then
          (w.target in s.files <==> w.target in before)
            && (w.target in before && w.target in s.files ==> s.files[w.target] == before[w.target])
        else
          w.target in s.files && s.renamed[|s.renamed| - 1] < |w.payloads|
            && s.files[w.target] == w.payloads[s.renamed[|s.renamed| - 1]])
  }

  /** What a writer's progress says about its temporary file. */
  ghost predicate TempRight(w: Writers, s: System, i: nat)
    requires i < |w.temps| == |w.payloads| == |s.progress|
  {
    match s.progress[i]
    case Opened(done) => done <= |w.payloads[i]| && w.temps[i] in s.files
      && s.files[w.temps[i]] == w.payloads[i][..done]
    case Synced => w.temps[i] in s.files && s.files[w.temps[i]] == w.payloads[i]
    case Renamed => w.temps[i] !in s.files && i in s.renamed
    case Threw(cleaned) => (cleaned ==> w.temps[i] !in s.files) && i !in s.renamed
    case _ => i !in s.renamed
  }

  ghost predicate Inv(w: Writers, before: Files, s: System) {
    && WellFormed(w) && |s.progress| == |w.temps|
    && FilesRight(w, before, s)
    && (forall i :: 0 <= i < |w.temps| ==> TempRight(w, s, i))
    && (forall i :: 0 <= i < |w.temps| && (s.progress[i].Opened? || s.progress[i].Synced?) ==> i !in s.renamed)
  }

  lemma StartInv(w: Writers, files: Files)
    requires WellFormed(w)
    ensures Inv(w, files, Start(w, files))
  {}

  /** Distinct names: one writer's temporary file is not another's, nor the target. */
  lemma DistinctTemps(w: Writers, i: nat, j: nat)
    requires WellFormed(w) && i < |w.temps| && j < |w.temps| && i != j
    ensures w.temps[i] != w.temps[j] && w.temps[i] != w.target && w.temps[j] != w.target
  {
    assert w.temps[i] in w.temps && w.temps[j] in w.temps;
  }

  /** A writer's step leaves another writer's temporary file alone. */
  lemma ActKeepsOthers(w: Writers, before: Files, s: System, i: nat, action: Action, j: nat)
    requires Inv(w, before, s) && i < |w.temps| && j < |w.temps| && i != j
    ensures TempRight(w, ActOf(w, s, i, action), j)
    ensures ActOf(w, s, i, action).progress[j] == s.progress[j]
    ensures j in ActOf(w, s, i, action).renamed <==> j in s.renamed
  {
    hide FilesRight;
    DistinctTemps(w, i, j);
    assert TempRight(w, s, j);
    hide WellFormed;
    assert j in s.renamed + [i] <==> j in s.renamed;
  }

  lemma ActKeepsOwn(w: Writers, before: Files, s: System, i: nat, action: Action)
    requires Inv(w, before, s) && i < |w.temps|
    ensures var r := ActOf(w, s, i, action);
      TempRight(w, r, i) && (r.progress[i].Opened? || r.progress[i].Synced? ==> i !in r.renamed)
  {
    hide FilesRight;
    assert w.temps[i] in w.temps;
    assert TempRight(w, s, i);
    hide WellFormed;
  }

  lemma ActKeepsFiles(w: Writers, before: Files, s: System, i: nat, action: Action)
    requires Inv(w, before, s) && i < |w.temps|
    ensures FilesRight(w, before, ActOf(w, s, i, action))
  {
    assert w.temps[i] in w.temps;
    assert TempRight(w, s, i);
    hide NoDuplicates, TempRight;
  }

  lemma ActKeepsInv(w: Writers, before: Files, s: System, i: nat, action: Action)
    requires Inv(w, before, s) && i < |w.temps|
    ensures Inv(w, before, ActOf(w, s, i, action))
  {
    var r := ActOf(w, s, i, action);
    ActKeepsOwn(w, before, s, i, action);
    ActKeepsFiles(w, before, s, i, action);
    forall j | 0 <= j < |w.temps| && j != i
      ensures TempRight(w, r, j) && (r.progress[j].Opened? || r.progress[j].Synced? ==> j !in r.renamed)
    {
      ActKeepsOthers(w, before, s, i, action, j);
    }
    SameSize(w, s, i, action);
    hide ActOf, TempRight, FilesRight;
  }

  lemma SameSize(w: Writers, s: System, i: nat, action: Action)
    requires |w.temps| == |w.payloads| == |s.progress| && i < |w.temps|
    ensures |ActOf(w, s, i, action).progress| == |s.progress|
  {}

  lemma LoseKeepsInv(w: Writers, before: Files, s: System, kept: map<string, nat>)
    requires Inv(w, before, s)
    ensures Inv(w, before, Lose(w, s, kept))
  {
    var r := Lose(w, s, kept);
    forall j | 0 <= j < |w.temps| ensures TempRight(w, r, j) {
      assert TempRight(w, s, j);
    }
    forall path | path in s.files && path !in w.temps ensures r.files[path] == s.files[path] {}
  }

  lemma {:induction false} RunKeepsInv(w: Writers, before: Files, events: seq<Event>)
    requires WellFormed(w)
    ensures Inv(w, before, Run(w, Start(w, before), events))
  {
    hide Inv, ActOf, Lose;
    StartInv(w, before);
    if events != [] {
      var front, e := events[..|events| - 1], events[|events| - 1];
      RunKeepsInv(w, before, front);
      var s := Run(w, Start(w, before), front);
      match e
      case Act(i, action) =>
        if i < |w.temps| {
          ActKeepsInv(w, before, s, i, action);
        }
      case PowerLoss(kept) => LoseKeepsInv(w, before, s, kept);
    }
  }

  /**
    Whatever the interleaving, the failures and the crashes: the target holds
    what it held before, or one writer's complete payload.
   */
  lemma TargetIsWhole(w: Writers, before: Files, events: seq<Event>)
    requires WellFormed(w)
    ensures var s := Run(w, Start(w, before), events);
      || (s.renamed == [] && (w.target in s.files <==> w.target in before)
          && (w.target in s.files && w.target in before ==> s.files[w.target] == before[w.target]))
      || (s.renamed != [] && w.target in s.files && s.renamed[|s.renamed| - 1] < |w.payloads|
          && s.files[w.target] == w.payloads[s.renamed[|s.renamed| - 1]])
  {
    hide Run;
    RunKeepsInv(w, before, events);
  }

  /** A writer that threw never replaced the target, and its temporary file is gone unless removing it failed. */
  lemma ThrowingLeavesNothing(w: Writers, before: Files, events: seq<Event>, i: nat)
    requires WellFormed(w) && i < |w.temps|
    requires Run(w, Start(w, before), events).progress[i].Threw?
    ensures var s := Run(w, Start(w, before), events);
      i !in s.renamed && (s.progress[i].cleaned ==> w.temps[i] !in s.files)
  {
    hide Run;
    RunKeepsInv(w, before, events);
    assert TempRight(w, Run(w, Start(w, before), events), i);
  }

  /** Renames are never undone. */
  lemma {:induction false} RenamesOnlyGrow(w: Writers, s: System, events: seq<Event>)
    requires |w.temps| == |w.payloads| == |s.progress|
    ensures |s.renamed| <= |Run(w, s, events).renamed| && Run(w, s, events).renamed[..|s.renamed|] == s.renamed
  {
    hide Lose;
    if events != [] {
      RenamesOnlyGrow(w, s, events[..|events| - 1]);
      LoseRenames(w, Run(w, s, events[..|events| - 1]), events[|events| - 1]);
    }
  }

  lemma {:induction false} RunTwice(w: Writers, s: System, a: seq<Event>, b: seq<Event>)
    requires |w.temps| == |w.payloads| == |s.progress|
    ensures Run(w, s, a + b) == Run(w, Run(w, s, a), b)
  {
    hide Step;
    if b == [] {
      assert a + b == a;
    } else {
      assert (a + b)[..|a + b| - 1] == a + b[..|b| - 1];
      RunTwice(w, s, a, b[..|b| - 1]);
    }
  }

  /**
    The order of renames decides what a reader sees: between two points of a
    run the target changes only if a rename lies between them, and then it
    holds the payload of the last.
   */
  lemma LastRenameDecides(w: Writers, before: Files, a: seq<Event>, b: seq<Event>)
    requires WellFormed(w)
    ensures var s, t := Run(w, Start(w, before), a), Run(w, Start(w, before), a + b);
      && s.renamed <= t.renamed
      && (s.renamed == t.renamed ==> Content(s, w.target) == Content(t, w.target))
      && (s.renamed < t.renamed ==>
        t.renamed[|t.renamed| - 1] < |w.payloads|
          && Content(t, w.target) == Some(w.payloads[t.renamed[|t.renamed| - 1]]))
  {
    hide Run;
    RunTwice(w, Start(w, before), a, b);
    RenamesOnlyGrow(w, Run(w, Start(w, before), a), b);
    TargetIsWhole(w, before, a);
    TargetIsWhole(w, before, a + b);
  }

  function Content(s: System, path: string): Option<string> {
    if path in s.files then Some(s.files[path]) else None
  }

  lemma LoseRenames(w: Writers, s: System, e: Event)
    requires |w.temps| == |w.payloads| == |s.progress|
    ensures e.PowerLoss? ==> Step(w, s, e).renamed == s.renamed
  {}
}
