/**
  Telemetry spans on several threads: one id counter, one stack of open spans
  per thread, one trace. Spans may close out of order.
 */
module SpanStacks {
  import opened Text
  import opened Wrappers

  datatype OpenSpan = OpenSpan(thread: nat, parent: Option<nat>, start: nat)

  datatype Span = Span(id: nat, parent: Option<nat>, start: nat, end: nat, thread: nat)

  /**
    A thread takes an id, then enters the span; later it closes one of its
    spans. Other threads may act in between.
   */
  datatype Event = TakeId(thread: nat) | Enter(thread: nat) | Close(thread: nat, id: nat)

  /** The clock counts the events that read it, so later readings are larger. */
  datatype State = State(
    counter: nat,
    clock: nat,
    pending: seq<Option<nat>>,
    stacks: seq<seq<nat>>,
    spans: map<nat, OpenSpan>,
    trace: seq<Span>)

  function Start(threads: nat): State {
    State(1, 0, seq(threads, _ => None), seq(threads, _ => []), map[], [])
  }

  function Top(stack: seq<nat>): Option<nat> {
    if stack == [] then None else Some(stack[|stack| - 1])
  }

  /** The stack without the topmost occurrence of an id. */
  function Erased(stack: seq<nat>, id: nat): seq<nat> {
    if stack == [] then []
    else
      var top := |stack| - 1;
      if stack[top] == id then stack[..top] else Erased(stack[..top], id) + [stack[top]]
  }

  predicate CanTake(s: State, t: nat) {
    t < |s.pending| && s.pending[t] == None
  }

  predicate CanEnter(s: State, t: nat) {
    t < |s.pending| == |s.stacks| && s.pending[t].Some?
  }

  /** A span closes once, on its own thread. */
  predicate CanClose(s: State, t: nat, id: nat) {
    t < |s.pending| == |s.stacks| && s.pending[t] == None && id in s.spans && s.spans[id].thread == t
  }

  /** Events out of turn do nothing. */
  function Step(s: State, e: Event): State {
    match e
    case TakeId(t) =>
      if !CanTake(s, t) then s else s.(counter := s.counter + 1, pending := s.pending[t := Some(s.counter)])
    case Enter(t) =>
      if !CanEnter(s, t) then s
      else
        var id := s.pending[t].value;
        State(s.counter, s.clock + 1, s.pending[t := None], s.stacks[t := s.stacks[t] + [id]],
              s.spans[id := OpenSpan(t, Top(s.stacks[t]), s.clock)], s.trace)
    case Close(t, id) =>
      if !CanClose(s, t, id) then s
      else
        var o := s.spans[id];
        State(s.counter, s.clock + 1, s.pending, s.stacks[t := Erased(s.stacks[t], id)], s.spans - {id},
              s.trace + [Span(id, o.parent, o.start, s.clock, t)])
  }

  function Run(threads: nat, events: seq<Event>): State {
    if events == [] then Start(threads) else Step(Run(threads, events[..|events| - 1]), events[|events| - 1])
  }

  // ----- the code of one thread -----

  class Tracer {
    var state: State

    constructor (threads: nat)
      ensures state == Start(threads)
    {
      state := Start(threads);
    }

    /** Construction of a scoped span, alone on its thread: the id, the parent, the push. */
    method Construct(t: nat) returns (id: nat)
      requires t < |state.pending| == |state.stacks| && state.pending[t] == None
      modifies this
      ensures state == Step(Step(old(state), TakeId(t)), Enter(t))
      ensures id == old(state.counter)
    {
      id := state.counter;
      state := state.(counter := state.counter + 1);
      var stack := state.stacks[t];
      var parentId := None;
      if stack != [] {
        parentId := Some(stack[|stack| - 1]);
      }
      var startPoint := state.clock;
      assert state.pending[t := Some(id)][t := None] == state.pending;
      state := State(state.counter, startPoint + 1, state.pending, state.stacks[t := stack + [id]],
                     state.spans[id := OpenSpan(t, parentId, startPoint)], state.trace);
    }

    /** Destruction: pop the id, or erase it further down when spans close out of order. */
    method Finalize(t: nat, id: nat)
      requires CanClose(state, t, id)
      modifies this
      ensures state == Step(old(state), Close(t, id))
    {
      var endPoint := state.clock;
      var stack := state.stacks[t];
      if stack != [] && stack[|stack| - 1] == id {
        stack := stack[..|stack| - 1];
      } else {
        stack := EraseFromTop(stack, id);
      }
      var o := state.spans[id];
      state := State(state.counter, endPoint + 1, state.pending, state.stacks[t := stack], state.spans - {id},
                     state.trace + [Span(id, o.parent, o.start, endPoint, t)]);
    }
  }

  method EraseFromTop(stack: seq<nat>, id: nat) returns (r: seq<nat>)
    ensures r == Erased(stack, id)
  {
    var i := |stack|;
    assert stack[..i] == stack && stack[i..] == [];
    while i > 0
      invariant 0 <= i <= |stack| && Erased(stack, id) == Erased(stack[..i], id) + stack[i..]
    {
      assert stack[..i][..i - 1] == stack[..i - 1];
      assert [stack[i - 1]] + stack[i..] == stack[i - 1..];
      if stack[i - 1] == id {
        return stack[..i - 1] + stack[i..];
      }
      i := i - 1;
    }
    assert stack[..0] == [] && stack[0..] == stack && [] + stack == stack;
    return stack;
  }

  // ----- invariant of every run -----

  ghost predicate Increasing(stack: seq<nat>) {
    forall i, j :: 0 <= i < j < |stack| ==> stack[i] < stack[j]
  }

  ghost predicate StacksRight(s: State) {
    && |s.pending| == |s.stacks|
    && (forall t :: 0 <= t < |s.stacks| ==> Increasing(s.stacks[t]))
    && (forall t, id :: 0 <= t < |s.stacks| && id in s.stacks[t] ==> id in s.spans && s.spans[id].thread == t)
    && (forall id :: id in s.spans ==> s.spans[id].thread < |s.stacks| && id in s.stacks[s.spans[id].thread])
  }

  ghost predicate IdsRight(s: State) {
    && (forall id :: id in s.spans ==> id < s.counter)
    && (forall t :: 0 <= t < |s.pending| && s.pending[t].Some? ==> FreshId(s, t, s.pending[t].value))
    && (forall t, u ::
      0 <= t < u < |s.pending| && s.pending[t].Some? && s.pending[u].Some? ==> s.pending[t] != s.pending[u])
    && (forall x <- s.trace :: x.id < s.counter && x.id !in s.spans)
    && (forall i, j :: 0 <= i < j < |s.trace| ==> s.trace[i].id != s.trace[j].id)
  }

  /** An id taken but not entered: unused, and above everything on its thread's stack. */
  ghost predicate FreshId(s: State, t: nat, id: nat) {
    && id < s.counter && id !in s.spans
    && (forall x <- s.trace :: x.id != id)
    && (t < |s.stacks| ==> forall o <- s.stacks[t] :: o < id)
  }

  /** The id belongs to a span of the thread, open or closed, that started no later than a moment. */
  ghost predicate StartedBy(s: State, id: nat, thread: nat, moment: nat) {
    || (id in s.spans && s.spans[id].thread == thread && s.spans[id].start < moment)
    || exists x <- s.trace :: x.id == id && x.thread == thread && x.start < moment < x.end
  }

  ghost predicate ParentRight(s: State, id: nat, parent: Option<nat>, thread: nat, start: nat) {
    parent.Some? ==> parent.value < id && StartedBy(s, parent.value, thread, start)
  }

  ghost predicate FamilyRight(s: State) {
    && (forall id ::
      id in s.spans ==>
        s.spans[id].start < s.clock && ParentRight(s, id, s.spans[id].parent, s.spans[id].thread, s.spans[id].start))
    && (forall x <- s.trace :: x.start < x.end < s.clock && ParentRight(s, x.id, x.parent, x.thread, x.start))
  }

  ghost predicate Inv(s: State) {
    StacksRight(s) && IdsRight(s) && FamilyRight(s)
  }

  lemma PushLarger(stack: seq<nat>, top: nat)
    requires Increasing(stack) && forall x <- stack :: x < top
    ensures Increasing(stack + [top])
  {
    forall i | 0 <= i < |stack| ensures stack[i] < top {
      assert stack[i] in stack;
    }
  }

  lemma {:induction false} ErasedMembers(stack: seq<nat>, id: nat)
    requires Increasing(stack)
    ensures Increasing(Erased(stack, id))
    ensures forall x :: x in Erased(stack, id) <==> x in stack && x != id
  {
    if stack != [] {
      var front, top := stack[..|stack| - 1], stack[|stack| - 1];
      assert stack == front + [top];
      forall x | x in front ensures x < top {}
      assert Increasing(front);
      hide Increasing;
      ErasedMembers(front, id);
      if top != id {
        PushLarger(Erased(front, id), top);
      }
    }
  }

  /** Pushing a fresh id keeps a stack increasing. */
  lemma PushFresh(s: State, t: nat, id: nat)
    requires Inv(s) && t < |s.stacks| && FreshId(s, t, id)
    ensures Increasing(s.stacks[t] + [id])
    ensures forall u :: 0 <= u < |s.stacks| ==> id !in s.stacks[u]
  {
    hide FamilyRight;
    var stack := s.stacks[t];
    forall i | 0 <= i < |stack| ensures stack[i] < id {
      assert stack[i] in stack;
    }
  }

  lemma StackStep(s: State, e: Event)
    requires Inv(s)
    ensures StacksRight(Step(s, e))
  {
    hide FamilyRight;
    if e.Close? && CanClose(s, e.thread, e.id) {
      ErasedMembers(s.stacks[e.thread], e.id);
      hide Increasing, Erased;
    }
    if e.Enter? && CanEnter(s, e.thread) {
      PushFresh(s, e.thread, s.pending[e.thread].value);
      hide Increasing;
      var id := s.pending[e.thread].value;
      forall x ensures x in s.stacks[e.thread] + [id] <==> x in s.stacks[e.thread] || x == id {}
    }
  }

  /** Pending ids of other threads stay fresh. */
  lemma PendingStep(s: State, e: Event, t: nat)
    requires Inv(s) && t < |Step(s, e).pending| && Step(s, e).pending[t].Some?
    ensures FreshId(Step(s, e), t, Step(s, e).pending[t].value)
  {
    hide FamilyRight;
    var r := Step(s, e);
    if s.pending[t].Some? {
      assert FreshId(s, t, s.pending[t].value);
    }
    match e
    case TakeId(u) =>
      if t == u && CanTake(s, u) {
        forall o: nat | o in s.stacks[t] ensures o < s.counter {
          assert o in s.spans;
        }
      }
    case Enter(u) =>
      if CanEnter(s, u) {
        assert t != u && s.pending[t] != s.pending[u] by {
          if t < u {
            assert s.pending[t].Some? && s.pending[u].Some?;
          }
        }
      }
    case Close(u, id) =>
      if CanClose(s, u, id) {
        ErasedMembers(s.stacks[u], id);
      }
  }

  lemma IdStep(s: State, e: Event)
    requires Inv(s)
    ensures IdsRight(Step(s, e))
  {
    hide FamilyRight;
    var r := Step(s, e);
    forall t | 0 <= t < |r.pending| && r.pending[t].Some? ensures FreshId(r, t, r.pending[t].value) {
      PendingStep(s, e, t);
    }
    if e.Enter? && CanEnter(s, e.thread) {
      assert FreshId(s, e.thread, s.pending[e.thread].value);
    }
    forall t | 0 <= t < |s.pending| && s.pending[t].Some? ensures s.pending[t].value < s.counter {
      assert FreshId(s, t, s.pending[t].value);
    }
    hide StacksRight, Erased, FreshId;
  }

  /** What has started stays started. */
  lemma StillStarted(s: State, e: Event, id: nat, thread: nat, moment: nat)
    requires Inv(s) && StartedBy(s, id, thread, moment) && moment < s.clock
    ensures StartedBy(Step(s, e), id, thread, moment)
  {
    var r := Step(s, e);
    if e.Close? && CanClose(s, e.thread, e.id) {
      var x := r.trace[|r.trace| - 1];
      assert x in r.trace;
      forall y | y in s.trace ensures y in r.trace {}
    }
    if e.Enter? && CanEnter(s, e.thread) {
      assert FreshId(s, e.thread, s.pending[e.thread].value);
    }
  }

  /** The parent a span is given is the innermost open span of its thread. */
  lemma ParentIsInnermost(s: State, t: nat)
    requires Inv(s) && CanEnter(s, t)
    ensures var id, stack := s.pending[t].value, s.stacks[t];
      var parent := Step(s, Enter(t)).spans[id].parent;
      && (parent == None <==> stack == [])
      && (parent.Some? ==> parent.value < id && parent.value in s.spans && s.spans[parent.value].thread == t
                           && s.spans[parent.value].start < s.clock && forall o <- stack :: o <= parent.value)
  {
    assert FreshId(s, t, s.pending[t].value);
    var stack := s.stacks[t];
    if stack != [] {
      assert stack[|stack| - 1] in stack;
    }
  }

  lemma FamilyStep(s: State, e: Event)
    requires Inv(s)
    ensures FamilyRight(Step(s, e))
  {
    var r := Step(s, e);
    if e.Enter? && CanEnter(s, e.thread) {
      ParentIsInnermost(s, e.thread);
      assert FreshId(s, e.thread, s.pending[e.thread].value);
    }
    hide StacksRight, IdsRight;
    forall id | id in s.spans ensures ParentRight(r, id, s.spans[id].parent, s.spans[id].thread, s.spans[id].start) {
      if s.spans[id].parent.Some? {
        StillStarted(s, e, s.spans[id].parent.value, s.spans[id].thread, s.spans[id].start);
      }
    }
    forall x | x in s.trace ensures ParentRight(r, x.id, x.parent, x.thread, x.start) {
      if x.parent.Some? {
        StillStarted(s, e, x.parent.value, x.thread, x.start);
      }
    }
  }

  lemma {:induction false} RunKeepsInv(threads: nat, events: seq<Event>)
    ensures Inv(Run(threads, events))
  {
    hide Step, StacksRight, IdsRight, FamilyRight;
    if events == [] {
      StartInv(threads);
    } else {
      var s := Run(threads, events[..|events| - 1]);
      RunKeepsInv(threads, events[..|events| - 1]);
      StackStep(s, events[|events| - 1]);
      IdStep(s, events[|events| - 1]);
      FamilyStep(s, events[|events| - 1]);
    }
  }

  lemma StartInv(threads: nat)
    ensures Inv(Start(threads))
  {}

  /**
    After any interleaving, closings out of order included: stacks increase,
    trace ids are unique, and every recorded parent has a smaller id, belongs to
    the same thread, started earlier and had not ended when the child started.
   */
  lemma EveryRunIsConsistent(threads: nat, events: seq<Event>)
    ensures var s := Run(threads, events);
      && (forall t :: 0 <= t < |s.stacks| ==> Increasing(s.stacks[t]))
      && (forall i, j :: 0 <= i < j < |s.trace| ==> s.trace[i].id != s.trace[j].id)
      && (forall x <- s.trace :: x.start < x.end && ParentRight(s, x.id, x.parent, x.thread, x.start))
  {
    hide Run;
    RunKeepsInv(threads, events);
  }

  // ----- scope-nested runs -----

  /** The event closes nothing but the innermost span of its thread. */
  predicate Scoped(s: State, e: Event) {
    e.Close? && CanClose(s, e.thread, e.id) ==> Top(s.stacks[e.thread]) == Some(e.id)
  }

  ghost predicate ScopedRun(threads: nat, events: seq<Event>) {
    forall k :: 0 <= k < |events| ==> Scoped(Run(threads, events[..k]), events[k])
  }

  predicate Inside(x: Span, start: nat, end: nat) {
    start < x.start && x.end < end
  }

  /** Post-order: an earlier record lies inside a later one or ended before it started. */
  ghost predicate PostOrder(trace: seq<Span>) {
    forall i, j :: 0 <= i < j < |trace| && trace[i].thread == trace[j].thread ==>
      Inside(trace[i], trace[j].start, trace[j].end) || trace[i].end < trace[j].start
  }

  /** Open spans of a thread are nested, each the child of the one below it. */
  ghost predicate Chained(s: State) {
    forall t, k :: 0 <= t < |s.stacks| && 0 <= k < |s.stacks[t]| ==> ChildOfBelow(s, t, k)
  }

  ghost predicate ChildOfBelow(s: State, t: nat, k: nat)
    requires t < |s.stacks| && k < |s.stacks[t]|
  {
    s.stacks[t][k] in s.spans ==> s.spans[s.stacks[t][k]].parent == Top(s.stacks[t][..k])
  }

  ghost predicate StartsIncrease(s: State) {
    forall t, j, k ::
      0 <= t < |s.stacks| && 0 <= j < k < |s.stacks[t]| && s.stacks[t][j] in s.spans && s.stacks[t][k] in s.spans ==>
        s.spans[s.stacks[t][j]].start < s.spans[s.stacks[t][k]].start
  }

  /** A closed span lies inside each open one of its thread that it has not preceded. */
  ghost predicate ClosedVersusOpen(s: State) {
    forall x, id :: x in s.trace && id in s.spans && s.spans[id].thread == x.thread
      ==> s.spans[id].start < x.start || x.end < s.spans[id].start
  }

  /** A closed span's parent is still open, or closed around it. */
  ghost predicate ParentsEnclose(s: State) {
    forall x <- s.trace :: x.parent.Some? ==>
      || (x.parent.value in s.spans && s.spans[x.parent.value].thread == x.thread
        && s.spans[x.parent.value].start < x.start)
      || exists p <- s.trace :: p.id == x.parent.value && p.thread == x.thread && Inside(x, p.start, p.end)
  }

  ghost predicate NestedInv(s: State) {
    Inv(s) && PostOrder(s.trace) && Chained(s) && StartsIncrease(s) && ClosedVersusOpen(s) && ParentsEnclose(s)
  }

  lemma TopErased(stack: seq<nat>, id: nat)
    requires Top(stack) == Some(id)
    ensures Erased(stack, id) == stack[..|stack| - 1]
  {}

  lemma NestedTrace(s: State, e: Event)
    requires NestedInv(s) && Scoped(s, e)
    ensures PostOrder(Step(s, e).trace) && ClosedVersusOpen(Step(s, e))
  {
    hide Erased, Chained, ParentsEnclose;
    var r := Step(s, e);
    if e.Close? && CanClose(s, e.thread, e.id) {
      var stack := s.stacks[e.thread];
      var y := r.trace[|s.trace|];
      forall i | 0 <= i < |s.trace| && s.trace[i].thread == e.thread
        ensures Inside(s.trace[i], y.start, y.end) || s.trace[i].end < y.start {
        assert s.trace[i] in s.trace;
      }
      forall id | id in r.spans && r.spans[id].thread == e.thread ensures r.spans[id].start < y.start {
        assert id in stack;
        var k :| 0 <= k < |stack| && stack[k] == id;
      }
    }
  }

  lemma ClosedStacks(s: State, t: nat, id: nat)
    requires NestedInv(s) && Scoped(s, Close(t, id)) && CanClose(s, t, id)
    ensures Chained(Step(s, Close(t, id))) && StartsIncrease(Step(s, Close(t, id)))
  {
    hide PostOrder, ClosedVersusOpen, ParentsEnclose, Inv;
    TopErased(s.stacks[t], id);
    hide Erased;
    var r := Step(s, Close(t, id));
    assert |r.stacks| == |s.stacks| && r.stacks[t] == s.stacks[t][..|s.stacks[t]| - 1];
    forall u, k | 0 <= u < |r.stacks| && 0 <= k < |r.stacks[u]|
      ensures k < |s.stacks[u]| && r.stacks[u][k] == s.stacks[u][k] {}
    forall x | x in r.spans ensures x in s.spans && r.spans[x] == s.spans[x] {}
    hide Step;
    forall u, k | 0 <= u < |r.stacks| && 0 <= k < |r.stacks[u]| ensures ChildOfBelow(r, u, k) {
      assert ChildOfBelow(s, u, k);
      assert r.stacks[u][..k] == s.stacks[u][..k];
    }
    forall u, j, k | 0 <= u < |r.stacks| && 0 <= j < k < |r.stacks[u]| && r.stacks[u][j] in r.spans
      && r.stacks[u][k] in r.spans
      ensures r.spans[r.stacks[u][j]].start < r.spans[r.stacks[u][k]].start
    {
      assert s.stacks[u][j] in s.spans && s.stacks[u][k] in s.spans;
    }
  }

  /** Entering leaves every stacked span as it is. */
  lemma EnterKeeps(s: State, t: nat, u: nat, k: nat)
    requires Inv(s) && CanEnter(s, t) && u < |s.stacks| && k < |s.stacks[u]|
    ensures var r, o := Step(s, Enter(t)), s.stacks[u][k];
      && o in s.spans && o in r.spans && r.spans[o] == s.spans[o] && s.spans[o].start < s.clock
        && o != s.pending[t].value
      && k < |r.stacks[u]| && r.stacks[u][k] == o
  {
    assert FreshId(s, t, s.pending[t].value);
    assert s.stacks[u][k] in s.stacks[u];
  }

  lemma EnteredStacks(s: State, t: nat)
    requires NestedInv(s) && CanEnter(s, t)
    ensures Chained(Step(s, Enter(t))) && StartsIncrease(Step(s, Enter(t)))
  {
    hide PostOrder, ClosedVersusOpen, ParentsEnclose, Inv;
    var r, id := Step(s, Enter(t)), s.pending[t].value;
    forall u, k | 0 <= u < |s.stacks| && 0 <= k < |s.stacks[u]|
      ensures s.stacks[u][k] in s.spans && k < |r.stacks[u]| && r.stacks[u][k] == s.stacks[u][k]
      ensures s.stacks[u][k] in r.spans && r.spans[s.stacks[u][k]] == s.spans[s.stacks[u][k]]
      ensures s.spans[s.stacks[u][k]].start < s.clock
    {
      EnterKeeps(s, t, u, k);
    }
    var top := |s.stacks[t]|;
    assert r.stacks[t][top] == id && r.spans[id] == OpenSpan(t, Top(s.stacks[t]), s.clock);
    assert |r.stacks| == |s.stacks| && |r.stacks[t]| == top + 1;
    forall u | 0 <= u < |s.stacks| && u != t ensures r.stacks[u] == s.stacks[u] {}
    hide Step;
    forall u, k | 0 <= u < |r.stacks| && 0 <= k < |r.stacks[u]| ensures ChildOfBelow(r, u, k) {
      if k < |s.stacks[u]| {
        assert ChildOfBelow(s, u, k);
        assert r.stacks[u][..k] == s.stacks[u][..k];
      } else {
        assert r.stacks[u][..k] == s.stacks[u];
      }
    }
    forall u, j, k | 0 <= u < |r.stacks| && 0 <= j < k < |r.stacks[u]| && r.stacks[u][j] in r.spans
      && r.stacks[u][k] in r.spans
      ensures r.spans[r.stacks[u][j]].start < r.spans[r.stacks[u][k]].start
    {
      assert s.stacks[u][j] in s.spans;
      if k < |s.stacks[u]| {
        assert s.stacks[u][k] in s.spans;
      }
    }
  }

  lemma NestedStacks(s: State, e: Event)
    requires NestedInv(s) && Scoped(s, e)
    ensures Chained(Step(s, e)) && StartsIncrease(Step(s, e))
  {
    match e
    case TakeId(t) =>
      var r := Step(s, e);
      assert r.stacks == s.stacks && r.spans == s.spans;
      forall u, k | 0 <= u < |r.stacks| && 0 <= k < |r.stacks[u]| ensures ChildOfBelow(r, u, k) {
        assert ChildOfBelow(s, u, k);
      }
    case Enter(t) =>
      if CanEnter(s, t) {
        EnteredStacks(s, t);
      }
    case Close(t, id) =>
      if CanClose(s, t, id) {
        ClosedStacks(s, t, id);
      }
  }

  lemma NestedParents(s: State, e: Event)
    requires NestedInv(s) && Scoped(s, e)
    ensures ParentsEnclose(Step(s, e))
  {
    hide Erased, PostOrder, ClosedVersusOpen, StartsIncrease;
    var r := Step(s, e);
    forall p | p in s.trace ensures p in r.trace {}
    if e.Enter? && CanEnter(s, e.thread) {
      assert FreshId(s, e.thread, s.pending[e.thread].value);
    }
    if e.Close? && CanClose(s, e.thread, e.id) {
      var y := r.trace[|s.trace|];
      assert y in r.trace;
      OwnParentOpen(s, e.thread, e.id);
      forall x | x in s.trace && x.parent == Some(e.id) && e.id in s.spans && s.spans[e.id].thread == x.thread
        && s.spans[e.id].start < x.start
        ensures Inside(x, y.start, y.end) {}
    }
  }

  /** The span being closed has its parent right below it, open. */
  lemma OwnParentOpen(s: State, t: nat, id: nat)
    requires NestedInv(s) && CanClose(s, t, id) && Top(s.stacks[t]) == Some(id)
    ensures s.spans[id].parent.Some? ==>
      s.spans[id].parent.value in s.spans && s.spans[id].parent.value != id
      && s.spans[s.spans[id].parent.value].thread == t && s.spans[s.spans[id].parent.value].start < s.spans[id].start
  {
    var stack := s.stacks[t];
    var k := |stack| - 1;
    assert stack[k] == id && ChildOfBelow(s, t, k);
    if k > 0 {
      assert stack[k - 1] in stack && stack[k] in stack;
    }
  }

  lemma {:induction false} ScopedKeepsNested(threads: nat, events: seq<Event>)
    requires ScopedRun(threads, events)
    ensures NestedInv(Run(threads, events))
  {
    RunKeepsInv(threads, events);
    if events != [] {
      var front, e := events[..|events| - 1], events[|events| - 1];
      assert forall k :: 0 <= k < |front| ==> front[..k] == events[..k] && front[k] == events[k];
      assert Scoped(Run(threads, events[..|events| - 1]), events[|events| - 1]);
      ScopedKeepsNested(threads, front);
      hide Step, Scoped, Inv, PostOrder, Chained, StartsIncrease, ClosedVersusOpen, ParentsEnclose;
      NestedTrace(Run(threads, front), e);
      NestedStacks(Run(threads, front), e);
      NestedParents(Run(threads, front), e);
    }
  }

  /** In scope-nested runs each thread's trace is a post-order, children inside their parents. */
  lemma ScopedRunIsPostOrder(threads: nat, events: seq<Event>)
    requires ScopedRun(threads, events)
    ensures PostOrder(Run(threads, events).trace) && ParentsEnclose(Run(threads, events))
  {
    hide ScopedRun, Run, PostOrder, ParentsEnclose;
    ScopedKeepsNested(threads, events);
  }
}
