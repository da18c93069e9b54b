/**
  The SAX callbacks of the span-tracking loader.

  The parser reports each element start, text run and element end in document
  order; the callbacks drive the byte scanner to find where that markup lies.
  A node is kept on the stack while it is open and joins its parent's children
  when it closes.
 */
module Loader {
  import opened Wrappers
  import opened RawBytes
  import opened Scanner
  import opened RawTree

  datatype SaxEvent =
    | StartElement(name: string, attributes: seq<(string, string)>)
    | Characters(chars: string)
    | EndElement

  /** What the callbacks know between two events. */
  datatype State = State(cursor: nat, stack: seq<RawNode>, root: Option<RawNode>, rootSeen: bool)

  const INITIAL := State(0, [], None, false)

  /** endOffset == startOffset means "end not yet seen". */
  predicate IsOpen(node: RawNode) {
    node.span.endOffset == node.span.startOffset
  }

  function NewNode(bytes: seq<byte>, enc: Encoding, event: SaxEvent, bounds: TagBounds): RawNode
    requires event.StartElement?
  {
    RawNode(event.name, event.attributes, "",
            RawSpan(bounds.openPos,
                    if bounds.selfClosed then bounds.tagEndPos else bounds.openPos,
                    LineOf(bytes, enc, bounds.openPos)),
            [])
  }

  /** The finished node joins the children of the innermost open node, or becomes the root. */
  function Attach(s: State, node: RawNode): State {
    if s.stack == [] then s.(root := Some(node))
    else
      var top := s.stack[|s.stack| - 1];
      s.(stack := s.stack[..|s.stack| - 1] + [top.(children := top.children + [node])])
  }

  function Start(bytes: seq<byte>, enc: Encoding, s: State, event: SaxEvent): Result<State, ScanError>
    requires event.StartElement?
  {
    match ScaledBounds(enc, StartTagAt(Units(bytes, enc), Index(enc, s.cursor), event.name))
    case Err(e) => Err(e)
    case Ok(bounds) =>
      // A second top-level element is consumed but never entered.
      var entered := s.stack != [] || !s.rootSeen;
      Ok(State(bounds.tagEndPos,
               if entered then s.stack + [NewNode(bytes, enc, event, bounds)] else s.stack,
               s.root, true))
  }

  function Text(s: State, chars: string): State {
    if s.stack == [] || chars == "" then s
    else
      var top := s.stack[|s.stack| - 1];
      s.(stack := s.stack[..|s.stack| - 1] + [top.(text := top.text + chars)])
  }

  function End(bytes: seq<byte>, enc: Encoding, s: State): Result<State, ScanError> {
    if s.stack == [] then Ok(s)
    else
      var node := s.stack[|s.stack| - 1];
      var popped := s.(stack := s.stack[..|s.stack| - 1]);
      if !IsOpen(node) then Ok(Attach(popped, node))
      else
        match Scaled(enc, EndTagAt(Units(bytes, enc), Index(enc, s.cursor), node.tagName))
        case Err(e) => Err(e)
        case Ok(end) => Ok(Attach(popped.(cursor := end), node.(span := node.span.(endOffset := end))))
  }

  function Step(bytes: seq<byte>, enc: Encoding, s: State, event: SaxEvent): Result<State, ScanError> {
    match event
    case StartElement(_, _) => Start(bytes, enc, s, event)
    case Characters(chars) => Ok(Text(s, chars))
    case EndElement => End(bytes, enc, s)
  }

  /** A whole event run; the first scan error ends it. */
  function Run(bytes: seq<byte>, enc: Encoding, s: State, events: seq<SaxEvent>): Result<State, ScanError>
    decreases |events|
  {
    if events == [] then Ok(s)
    else
      match Step(bytes, enc, s, events[0])
      case Err(e) => Err(e)
      case Ok(next) => Run(bytes, enc, next, events[1..])
  }

  lemma {:induction false} RunConcat(bytes: seq<byte>, enc: Encoding, s: State, a: seq<SaxEvent>, b: seq<SaxEvent>)
    ensures Run(bytes, enc, s, a + b) ==
      match Run(bytes, enc, s, a)
      case Err(e) => Err(e)
      case Ok(mid) => Run(bytes, enc, mid, b)
    decreases |a|
  {
    hide Start, End, Text;
    if a == [] {
      assert a + b == b;
    } else {
      assert (a + b)[1..] == a[1..] + b;
      if Step(bytes, enc, s, a[0]).Ok? {
        RunConcat(bytes, enc, Step(bytes, enc, s, a[0]).value, a[1..], b);
      }
    }
  }

  lemma RunStep(bytes: seq<byte>, enc: Encoding, s: State, events: seq<SaxEvent>, next: State)
    requires events != [] && Step(bytes, enc, s, events[0]) == Ok(next)
    ensures Run(bytes, enc, s, events) == Run(bytes, enc, next, events[1..])
  {
    hide Start, End, Text;
  }

  lemma RunOne(bytes: seq<byte>, enc: Encoding, s: State, event: SaxEvent)
    ensures Run(bytes, enc, s, [event]) == Step(bytes, enc, s, event)
  {
    hide Start, End, Text;
    if Step(bytes, enc, s, event).Ok? {
      var next := Step(bytes, enc, s, event).value;
      assert [event][1..] == [];
      assert Run(bytes, enc, next, []) == Ok(next);
    }
  }

  /** The state the callbacks share, updated in place. */
  class LoaderState {
    const fileBytes: seq<byte>
    const encoding: Encoding
    var cursor: nat           // always past the last consumed token
    var stack: seq<RawNode>   // the chain of open nodes, outermost first
    var root: Option<RawNode>
    var rootSeen: bool

    ghost predicate Valid()
      reads this
    {
      Aligned(encoding, cursor)
    }

    function Now(): State
      reads this
    {
      State(cursor, stack, root, rootSeen)
    }

    constructor (bytes: seq<byte>, enc: Encoding)
      ensures Valid() && fileBytes == bytes && encoding == enc
      ensures Now() == INITIAL
    {
      fileBytes, encoding := bytes, enc;
      cursor, stack, root, rootSeen := 0, [], None, false;
    }

    method OnStartElement(name: string, attributes: seq<(string, string)>) returns (thrown: Option<ScanError>)
      requires Valid()
      modifies this
      ensures Valid()
      ensures match Start(fileBytes, encoding, old(Now()), StartElement(name, attributes))
        case Ok(next) => thrown == None && Now() == next
        case Err(e) => thrown == Some(e) && Now() == old(Now())
    {
      hide StartTagAt, Units, LineOf;
      var scanned := ScanStartTag(fileBytes, encoding, cursor, name);
      if scanned.Err? {
        return Some(scanned.error);
      }
      var bounds := scanned.value;
      BoundsAligned(encoding, StartTagAt(Units(fileBytes, encoding), Index(encoding, cursor), name));
      var line := LineNumberAt(fileBytes, encoding, bounds.openPos);
      var endOffset := if bounds.selfClosed then bounds.tagEndPos else bounds.openPos;
      var node := RawNode(name, attributes, "", RawSpan(bounds.openPos, endOffset, line), []);
      cursor := bounds.tagEndPos;
      if stack == [] {
        if !rootSeen {
          stack := [node];
        }
      } else {
        stack := stack + [node];
      }
      rootSeen := true;
      thrown := None;
    }

    method OnCharacters(chars: string)
      requires Valid()
      modifies this
      ensures Valid() && Now() == Text(old(Now()), chars)
    {
      if stack == [] || |chars| == 0 {
        return;
      }
      var last := |stack| - 1;
      stack := stack[..last] + [stack[last].(text := stack[last].text + chars)];
    }

    method OnEndElement() returns (thrown: Option<ScanError>)
      requires Valid()
      modifies this
      ensures match End(fileBytes, encoding, old(Now()))
        case Ok(next) => thrown == None && Now() == next && Valid()
        case Err(e) => thrown == Some(e)
    {
      hide EndTagAt, Units;
      if stack == [] {
        return None;
      }
      var node := stack[|stack| - 1];
      stack := stack[..|stack| - 1];
      if node.span.endOffset == node.span.startOffset {
        var scanned := ScanEndTag(fileBytes, encoding, cursor, node.tagName);
        if scanned.Err? {
          return Some(scanned.error);
        }
        EndAligned(encoding, EndTagAt(Units(fileBytes, encoding), Index(encoding, cursor), node.tagName));
        node := node.(span := node.span.(endOffset := scanned.value));
        cursor := scanned.value;
      }
      if stack == [] {
        root := Some(node);
      } else {
        var last := |stack| - 1;
        stack := stack[..last] + [stack[last].(children := stack[last].children + [node])];
      }
      thrown := None;
    }

    /** The callbacks in the order the parser makes them; the first scan error stops the load. */
    method Replay(events: seq<SaxEvent>) returns (thrown: Option<ScanError>)
      requires Valid()
      modifies this
      ensures match Run(fileBytes, encoding, old(Now()), events)
        case Ok(final) => thrown == None && Now() == final && Valid()
        case Err(e) => thrown == Some(e)
    {
      hide Start, Text, End;
      for i := 0 to |events|
        invariant Valid() && Run(fileBytes, encoding, old(Now()), events) ==
          Run(fileBytes, encoding, Now(), events[i..])
      {
        assert events[i..][1..] == events[i + 1..] && events[i..][0] == events[i];
        ghost var before := Now();
        match events[i] {
          case StartElement(name, attributes) =>
            thrown := OnStartElement(name, attributes);
          case Characters(chars) =>
            OnCharacters(chars);
            thrown := None;
          case EndElement =>
            thrown := OnEndElement();
        }
        if thrown.Some? {
          return;
        }
        RunStep(fileBytes, encoding, before, events[i..], Now());
      }
      thrown := None;
    }
  }

  lemma BoundsAligned(enc: Encoding, r: Result<TagBounds, ScanError>)
    ensures var scaled := ScaledBounds(enc, r);
      scaled.Ok? ==> Aligned(enc, scaled.value.openPos) && Aligned(enc, scaled.value.tagEndPos)
  {}

  lemma EndAligned(enc: Encoding, r: Result<nat, ScanError>)
    ensures var scaled := Scaled(enc, r); scaled.Ok? ==> Aligned(enc, scaled.value)
  {}
}
