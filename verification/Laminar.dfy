/**
  Whatever the bytes are, the spans the loader records nest: either a scan
  fails, or children lie strictly inside their parent, siblings are disjoint
  and in order, and every line number is the line of the span's start.
 */
module Laminar {
  import opened Wrappers
  import opened RawBytes
  import opened Scanner
  import opened RawTree
  import opened Loader

  /** Siblings in order, each strictly inside the offsets (lo, hi). */
  ghost predicate Ordered(nodes: seq<RawNode>, lo: nat, hi: nat) {
    && (forall k :: 0 <= k < |nodes| ==> lo < nodes[k].span.startOffset < nodes[k].span.endOffset < hi)
    && (forall j, k :: 0 <= j < k < |nodes| ==> nodes[j].span.endOffset <= nodes[k].span.startOffset)
  }

  ghost predicate LineExact(bytes: seq<byte>, enc: Encoding, node: RawNode) {
    node.span.lineNumber == LineOf(bytes, enc, node.span.startOffset)
  }

  ghost predicate IsLaminar(bytes: seq<byte>, enc: Encoding, node: RawNode) {
    && node.span.startOffset < node.span.endOffset <= |bytes|
    && LineExact(bytes, enc, node)
    && Ordered(node.children, node.span.startOffset, node.span.endOffset)
    && forall child <- node.children :: IsLaminar(bytes, enc, child)
  }

  /** An open node: its children so far are laminar, in order, and behind the cursor. */
  ghost predicate OpenFrame(bytes: seq<byte>, enc: Encoding, node: RawNode, limit: nat) {
    && node.span.startOffset < limit
    && LineExact(bytes, enc, node)
    && Ordered(node.children, node.span.startOffset, limit + 1)
    && (forall child <- node.children :: IsLaminar(bytes, enc, child))
  }

  ghost predicate SelfClosed(node: RawNode) {
    node.span.startOffset < node.span.endOffset && node.children == []
  }

  /** Frame k of the stack is bounded by the frame above it, and the top one by the cursor. */
  ghost predicate FramesNested(bytes: seq<byte>, enc: Encoding, s: State) {
    && (forall k :: 0 <= k < |s.stack| - 1 ==>
          IsOpen(s.stack[k]) && OpenFrame(bytes, enc, s.stack[k], s.stack[k + 1].span.startOffset))
    && (s.stack != [] ==>
          var top := s.stack[|s.stack| - 1];
          && OpenFrame(bytes, enc, top, s.cursor)
          && (IsOpen(top) || (SelfClosed(top) && top.span.endOffset == s.cursor && s.cursor <= |bytes|)))
  }

  ghost predicate Inv(bytes: seq<byte>, enc: Encoding, s: State) {
    && Aligned(enc, s.cursor)
    && FramesNested(bytes, enc, s)
    && (s.root.Some? ==> IsLaminar(bytes, enc, s.root.value))
  }

  /** What an XML parser never does: report anything but its end after a self-closed tag. */
  ghost predicate Allowed(s: State, event: SaxEvent) {
    s.stack != [] && !IsOpen(s.stack[|s.stack| - 1]) ==> event.EndElement?
  }

  /** Every event is allowed in the state it arrives in. */
  ghost predicate AllowedRun(bytes: seq<byte>, enc: Encoding, s: State, events: seq<SaxEvent>)
    decreases |events|
  {
    events != [] ==>
      && Allowed(s, events[0])
      && match Step(bytes, enc, s, events[0])
         case Err(_) => true
         case Ok(next) => AllowedRun(bytes, enc, next, events[1..])
  }

  /** A unit that holds '>' is complete, so the offset past it is inside the file. */
  lemma PastUnitInFile(bytes: seq<byte>, enc: Encoding, i: nat)
    requires 0 < i <= |Units(bytes, enc)| && Units(bytes, enc)[i - 1] == '>' as int
    ensures Offset(enc, i) <= |bytes|
  {}

  lemma OffsetMonotone(enc: Encoding, i: nat, j: nat)
    ensures i <= j <==> Offset(enc, i) <= Offset(enc, j)
    ensures i < j <==> Offset(enc, i) < Offset(enc, j)
    ensures Aligned(enc, Offset(enc, i))
  {}

  lemma CursorIndex(enc: Encoding, pos: nat)
    requires Aligned(enc, pos)
    ensures Offset(enc, Index(enc, pos)) == pos
  {}

  /** Where a successful start scan leaves things, in bytes. */
  lemma StartBounds(bytes: seq<byte>, enc: Encoding, cursor: nat, name: string)
    requires Aligned(enc, cursor)
    ensures
      match ScaledBounds(enc, StartTagAt(Units(bytes, enc), Index(enc, cursor), name))
      case Err(_) => true
      case Ok(b) => cursor <= b.openPos < b.tagEndPos <= |bytes| && Aligned(enc, b.tagEndPos)
  {
    var r := StartTagAt(Units(bytes, enc), Index(enc, cursor), name);
    if r.Ok? {
      var b := r.value;
      hide StartTagAt, Units, Offset, Index, Aligned;
      CursorIndex(enc, cursor);
      OffsetMonotone(enc, Index(enc, cursor), b.openPos);
      OffsetMonotone(enc, b.openPos, b.tagEndPos);
      OffsetMonotone(enc, b.tagEndPos, b.tagEndPos);
      PastUnitInFile(bytes, enc, b.tagEndPos);
    }
  }

  lemma EndBound(bytes: seq<byte>, enc: Encoding, cursor: nat, name: string)
    requires Aligned(enc, cursor)
    ensures
      match Scaled(enc, EndTagAt(Units(bytes, enc), Index(enc, cursor), name))
      case Err(_) => true
      case Ok(end) => cursor < end <= |bytes| && Aligned(enc, end)
  {
    var r := EndTagAt(Units(bytes, enc), Index(enc, cursor), name);
    if r.Ok? {
      hide EndTagAt, Units, Offset, Index, Aligned;
      CursorIndex(enc, cursor);
      OffsetMonotone(enc, Index(enc, cursor), r.value);
      OffsetMonotone(enc, r.value, r.value);
      PastUnitInFile(bytes, enc, r.value);
    }
  }

  lemma StartKeepsInv(bytes: seq<byte>, enc: Encoding, s: State, event: SaxEvent)
    requires Inv(bytes, enc, s) && event.StartElement? && Allowed(s, event)
    ensures Start(bytes, enc, s, event).Ok? ==> Inv(bytes, enc, Start(bytes, enc, s, event).value)
  {
    hide StartTagAt, Units, LineOf, IsLaminar;
    StartBounds(bytes, enc, s.cursor, event.name);
    if Start(bytes, enc, s, event).Ok? {
      var next := Start(bytes, enc, s, event).value;
      if next.stack != s.stack {
        var n := |s.stack|;
        hide Start;
        forall k | 0 <= k < n
          ensures IsOpen(next.stack[k]) && OpenFrame(bytes, enc, next.stack[k], next.stack[k + 1].span.startOffset)
        {
          assert next.stack[k] == s.stack[k];
          if k < n - 1 {
            assert next.stack[k + 1] == s.stack[k + 1];
          }
        }
      } else {
        assert s.stack == [];
      }
    }
  }

  /** Where the markup above frame k starts. */
  function LimitOf(stack: seq<RawNode>, k: nat, above: nat): nat
    requires k < |stack|
  {
    if k + 1 < |stack| then stack[k + 1].span.startOffset else above
  }

  /** Closing the top frame hands a laminar node to its parent. */
  lemma AttachKeepsInv(bytes: seq<byte>, enc: Encoding, s: State, node: RawNode)
    requires Aligned(enc, s.cursor) && IsLaminar(bytes, enc, node) && node.span.endOffset <= s.cursor
    requires s.root.Some? ==> IsLaminar(bytes, enc, s.root.value)
    requires forall k :: 0 <= k < |s.stack| ==>
      (IsOpen(s.stack[k]) && OpenFrame(bytes, enc, s.stack[k], LimitOf(s.stack, k, node.span.startOffset)))
    ensures Inv(bytes, enc, Attach(s, node))
  {
    hide LineOf;
    assert node.span.startOffset < node.span.endOffset;
    if s.stack != [] {
      var n := |s.stack| - 1;
      var top := s.stack[n];
      assert OpenFrame(bytes, enc, top, node.span.startOffset);
      hide IsLaminar;
      var grown := top.(children := top.children + [node]);
      assert Ordered(grown.children, top.span.startOffset, s.cursor + 1);
      assert OpenFrame(bytes, enc, grown, s.cursor);
      var next := Attach(s, node);
      assert next.stack[n] == grown && IsOpen(grown);
      forall k | 0 <= k < n
        ensures OpenFrame(bytes, enc, next.stack[k], next.stack[k + 1].span.startOffset)
      {
        assert next.stack[k] == s.stack[k];
        assert next.stack[k + 1].span == s.stack[k + 1].span;
      }
    }
  }

  lemma EndKeepsInv(bytes: seq<byte>, enc: Encoding, s: State)
    requires Inv(bytes, enc, s)
    ensures End(bytes, enc, s).Ok? ==> Inv(bytes, enc, End(bytes, enc, s).value)
  {
    hide EndTagAt, Units, LineOf;
    if s.stack != [] && End(bytes, enc, s).Ok? {
      var n := |s.stack| - 1;
      var node := s.stack[n];
      var popped := s.(stack := s.stack[..n]);
      EndBound(bytes, enc, s.cursor, node.tagName);
      assert OpenFrame(bytes, enc, node, s.cursor);
      if IsOpen(node) {
        var end := Scaled(enc, EndTagAt(Units(bytes, enc), Index(enc, s.cursor), node.tagName)).value;
        var closed := node.(span := node.span.(endOffset := end));
        assert IsLaminar(bytes, enc, closed);
        AttachKeepsInv(bytes, enc, popped.(cursor := end), closed);
      } else {
        assert IsLaminar(bytes, enc, node);
        AttachKeepsInv(bytes, enc, popped, node);
      }
    }
  }

  lemma TextKeepsInv(bytes: seq<byte>, enc: Encoding, s: State, chars: string)
    requires Inv(bytes, enc, s)
    ensures Inv(bytes, enc, Text(s, chars))
  {
    hide LineOf, IsLaminar;
    if s.stack != [] && chars != "" {
      var n := |s.stack| - 1;
      var next := Text(s, chars);
      assert next.stack[n].span == s.stack[n].span && next.stack[n].children == s.stack[n].children;
      forall k | 0 <= k < n
        ensures OpenFrame(bytes, enc, next.stack[k], next.stack[k + 1].span.startOffset)
      {
        assert next.stack[k] == s.stack[k];
        assert next.stack[k + 1].span == s.stack[k + 1].span;
      }
    }
  }

  lemma StepKeepsInv(bytes: seq<byte>, enc: Encoding, s: State, event: SaxEvent)
    requires Inv(bytes, enc, s) && Allowed(s, event)
    ensures Step(bytes, enc, s, event).Ok? ==> Inv(bytes, enc, Step(bytes, enc, s, event).value)
  {
    hide Start, End, Text, Inv;
    match event
    case StartElement(_, _) => StartKeepsInv(bytes, enc, s, event);
    case Characters(chars) => TextKeepsInv(bytes, enc, s, chars);
    case EndElement => EndKeepsInv(bytes, enc, s);
  }

  lemma {:induction false} RunKeepsInv(bytes: seq<byte>, enc: Encoding, s: State, events: seq<SaxEvent>)
    requires Inv(bytes, enc, s) && AllowedRun(bytes, enc, s, events)
    ensures Run(bytes, enc, s, events).Ok? ==> Inv(bytes, enc, Run(bytes, enc, s, events).value)
    decreases |events|
  {
    hide Step, Inv;
    if events != [] {
      StepKeepsInv(bytes, enc, s, events[0]);
      if Step(bytes, enc, s, events[0]).Ok? {
        RunKeepsInv(bytes, enc, Step(bytes, enc, s, events[0]).value, events[1..]);
      }
    }
  }

  /** For any bytes and any event run, a load that does not fail yields a laminar tree. */
  lemma SpansAreLaminar(bytes: seq<byte>, enc: Encoding, events: seq<SaxEvent>)
    requires AllowedRun(bytes, enc, INITIAL, events)
    ensures match Run(bytes, enc, INITIAL, events)
      case Err(_) => true
      case Ok(s) => s.root.Some? ==> IsLaminar(bytes, enc, s.root.value)
  {
    hide IsLaminar;
    RunKeepsInv(bytes, enc, INITIAL, events);
  }
}
