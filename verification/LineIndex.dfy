/**
  The line index of the schema validator: every element's line and span,
  sorted, with the nearest element looked up by binary search.
 */
module LineIndex {
  import opened Wrappers
  import opened RawBytes
  import opened RawTree
  import opened Sorting
  import Laminar
  import Loader

  datatype LineEntry = LineEntry(line: nat, span: RawSpan)

  predicate EntryLeq(a: LineEntry, b: LineEntry) {
    a.line < b.line || (a.line == b.line && a.span.startOffset <= b.span.startOffset)
  }

  /** The entry a node contributes itself. */
  function Own(node: RawNode): seq<LineEntry> {
    if node.span.lineNumber > 0 then [LineEntry(node.span.lineNumber, node.span)] else []
  }

  /** The entries of a tree in document order. */
  function Entries(node: RawNode): seq<LineEntry>
    decreases node, 1
  {
    Own(node) + EntriesOf(node.children)
  }

  function EntriesOf(nodes: seq<RawNode>): seq<LineEntry>
    decreases nodes, 0
  {
    if nodes == [] then []
    else EntriesOf(nodes[..|nodes| - 1]) + Entries(nodes[|nodes| - 1])
  }

  lemma NoEntries()
    ensures EntriesOf([]) == []
  {}

  lemma EntriesOfSnoc(nodes: seq<RawNode>, i: nat)
    requires i < |nodes|
    ensures EntriesOf(nodes[..i + 1]) == EntriesOf(nodes[..i]) + Entries(nodes[i])
  {
    assert nodes[..i + 1][..i] == nodes[..i];
  }

  lemma AppendAssociates<T>(a: seq<T>, b: seq<T>, c: seq<T>, d: seq<T>)
    ensures (a + (b + c)) + d == a + (b + (c + d))
  {}

  method CollectLineEntries(node: RawNode, out: seq<LineEntry>) returns (grown: seq<LineEntry>)
    ensures grown == out + Entries(node)
    decreases node
  {
    hide EntriesOf;
    grown := out;
    assert EntriesOf(node.children[..0]) == [] by { NoEntries(); }
    if node.span.lineNumber > 0 {
      grown := grown + [LineEntry(node.span.lineNumber, node.span)];
    }
    for i := 0 to |node.children|
      invariant grown == out + (Own(node) + EntriesOf(node.children[..i]))
    {
      grown := CollectLineEntries(node.children[i], grown);
      EntriesOfSnoc(node.children, i);
      AppendAssociates(out, Own(node), EntriesOf(node.children[..i]), Entries(node.children[i]));
    }
    assert node.children[..|node.children|] == node.children;
  }

  method BuildLineIndex(root: RawNode) returns (index: seq<LineEntry>)
    ensures SortOf(index, Entries(root), EntryLeq)
  {
    index := CollectLineEntries(root, []);
    EntryOrder();
    index := UnstableSort(index, EntryLeq);
  }

  lemma EntryOrder()
    ensures TotalPreorder(EntryLeq)
  {}

  // ----- a laminar tree is already in index order -----

  /** Entries with strictly increasing starts inside [lo, hi), each on the line of its start. */
  ghost predicate Rising(bytes: seq<byte>, enc: Encoding, entries: seq<LineEntry>, lo: nat, hi: nat) {
    && (forall k :: 0 <= k < |entries| ==>
          && lo <= entries[k].span.startOffset < hi
          && entries[k].line == LineOf(bytes, enc, entries[k].span.startOffset))
    && (forall j, k :: 0 <= j < k < |entries| ==>
          entries[j].span.startOffset < entries[k].span.startOffset)
  }

  lemma RisingConcat(bytes: seq<byte>, enc: Encoding, a: seq<LineEntry>, b: seq<LineEntry>, lo: nat, mid: nat, hi: nat)
    requires Rising(bytes, enc, a, lo, mid) && Rising(bytes, enc, b, mid, hi) && lo <= mid <= hi
    ensures Rising(bytes, enc, a + b, lo, hi)
  {
    hide LineOf;
  }

  /** Disjoint siblings in order inside [lo, hi). */
  ghost predicate Row(nodes: seq<RawNode>, lo: nat, hi: nat) {
    && lo <= hi
    && (forall k :: 0 <= k < |nodes| ==> lo <= nodes[k].span.startOffset && nodes[k].span.endOffset <= hi)
    && (forall j, k :: 0 <= j < k < |nodes| ==> nodes[j].span.endOffset <= nodes[k].span.startOffset)
  }

  lemma {:induction false} EntriesRise(bytes: seq<byte>, enc: Encoding, node: RawNode)
    requires Laminar.IsLaminar(bytes, enc, node)
    ensures Rising(bytes, enc, Entries(node), node.span.startOffset, node.span.endOffset)
    decreases node, 1
  {
    hide LineOf;
    var start, end := node.span.startOffset, node.span.endOffset;
    assert node.span.lineNumber > 0 by {
      assert LineOf(bytes, enc, start) > 0 by { LineOfPositive(bytes, enc, start); }
    }
    assert Rising(bytes, enc, Own(node), start, start + 1);
    assert Row(node.children, start + 1, end);
    EntriesOfRise(bytes, enc, node.children, start + 1, end);
    RisingConcat(bytes, enc, Own(node), EntriesOf(node.children), start, start + 1, end);
  }

  lemma LineOfPositive(bytes: seq<byte>, enc: Encoding, offset: nat)
    ensures LineOf(bytes, enc, offset) > 0
  {}

  lemma {:induction false} EntriesOfRise(bytes: seq<byte>, enc: Encoding, nodes: seq<RawNode>, lo: nat, hi: nat)
    requires Row(nodes, lo, hi)
    requires forall n <- nodes :: Laminar.IsLaminar(bytes, enc, n)
    ensures Rising(bytes, enc, EntriesOf(nodes), lo, hi)
    decreases nodes, 0
  {
    hide LineOf;
    if nodes != [] {
      var front, last := nodes[..|nodes| - 1], nodes[|nodes| - 1];
      assert last in nodes;
      EntriesRise(bytes, enc, last);
      assert Row(front, lo, last.span.startOffset);
      EntriesOfRise(bytes, enc, front, lo, last.span.startOffset);
      assert Rising(bytes, enc, Entries(last), last.span.startOffset, hi);
      RisingConcat(bytes, enc, EntriesOf(front), Entries(last), lo, last.span.startOffset, hi);
    }
  }

  lemma RisingIsSorted(bytes: seq<byte>, enc: Encoding, entries: seq<LineEntry>, lo: nat, hi: nat)
    requires Rising(bytes, enc, entries, lo, hi)
    ensures SortedBy(entries, EntryLeq)
    ensures forall x, y :: x in entries && y in entries && EntryLeq(x, y) && EntryLeq(y, x) ==> x == y
  {
    hide LineOf;
    forall i, j | 0 <= i < j < |entries| ensures EntryLeq(entries[i], entries[j]) {
      LineOfMonotone(bytes, enc, entries[i].span.startOffset, entries[j].span.startOffset);
    }
    forall x, y | x in entries && y in entries && EntryLeq(x, y) && EntryLeq(y, x) ensures x == y {
      var i :| 0 <= i < |entries| && entries[i] == x;
      var j :| 0 <= j < |entries| && entries[j] == y;
    }
  }

  /** For a laminar tree the unstable sort has nothing to decide: the index is document order. */
  lemma IndexIsDocumentOrder(bytes: seq<byte>, enc: Encoding, root: RawNode, index: seq<LineEntry>)
    requires Laminar.IsLaminar(bytes, enc, root)
    requires SortOf(index, Entries(root), EntryLeq)
    ensures index == Entries(root)
  {
    hide Laminar.IsLaminar;
    EntriesRise(bytes, enc, root);
    var entries := Entries(root);
    RisingIsSorted(bytes, enc, entries, root.span.startOffset, root.span.endOffset);
    SortedUnique(entries, index, EntryLeq);
  }

  /** The tree of any successful load, indexed: lines never decrease in document order. */
  lemma LoadedTreeIndex(bytes: seq<byte>, enc: Encoding, events: seq<Loader.SaxEvent>, index: seq<LineEntry>)
    requires Laminar.AllowedRun(bytes, enc, Loader.INITIAL, events)
    requires Loader.Run(bytes, enc, Loader.INITIAL, events).Ok?
    requires Loader.Run(bytes, enc, Loader.INITIAL, events).value.root.Some?
    requires SortOf(index, Entries(Loader.Run(bytes, enc, Loader.INITIAL, events).value.root.value), EntryLeq)
    ensures index == Entries(Loader.Run(bytes, enc, Loader.INITIAL, events).value.root.value)
    ensures forall j, k :: 0 <= j < k < |index| ==>
      index[j].line <= index[k].line && index[j].span.startOffset < index[k].span.startOffset
  {
    hide Laminar.IsLaminar, Laminar.AllowedRun, Loader.Run, LineOf, Entries;
    var root := Loader.Run(bytes, enc, Loader.INITIAL, events).value.root.value;
    Laminar.SpansAreLaminar(bytes, enc, events);
    IndexIsDocumentOrder(bytes, enc, root, index);
    EntriesRise(bytes, enc, root);
    RisingIsSorted(bytes, enc, index, root.span.startOffset, root.span.endOffset);
    assert forall j, k :: 0 <= j < k < |index| ==> EntryLeq(index[j], index[k]);
  }

  // ----- nearest element by line -----

  /** Position of the first entry on or after line, by binary search. */
  method LowerBound(index: seq<LineEntry>, line: nat) returns (at: nat)
    requires SortedBy(index, EntryLeq)
    ensures at <= |index|
    ensures forall k :: 0 <= k < at ==> index[k].line < line
    ensures forall k :: at <= k < |index| ==> index[k].line >= line
  {
    var lo, hi := 0, |index|;
    while lo < hi
      invariant 0 <= lo <= hi <= |index|
      invariant forall k :: 0 <= k < lo ==> index[k].line < line
      invariant forall k :: hi <= k < |index| ==> index[k].line >= line
    {
      var mid := (lo + hi) / 2;
      if index[mid].line < line {
        assert forall k :: 0 <= k < mid ==> EntryLeq(index[k], index[mid]);
        lo := mid + 1;
      } else {
        assert forall k :: mid < k < |index| ==> EntryLeq(index[mid], index[k]);
        hi := mid;
      }
    }
    at := lo;
  }

  function Distance(a: nat, b: nat): nat {
    if a <= b then b - a else a - b
  }

  /**
    The span of a nearest line: no entry is nearer, a tie goes to the lower
    line, and on the line itself the first element wins.
   */
  ghost predicate Nearest(index: seq<LineEntry>, line: nat, found: nat) {
    && found < |index|
    && (forall k :: 0 <= k < |index| ==>
          var here, there := Distance(index[found].line, line), Distance(index[k].line, line);
          here < there || (here == there && index[found].line <= index[k].line))
    && (index[found].line == line ==> forall k :: 0 <= k < found ==> index[k].line < line)
  }

  method SpanForLine(index: seq<LineEntry>, line: int) returns (span: Option<RawSpan>)
    requires SortedBy(index, EntryLeq)
    ensures span == None <==> index == [] || line <= 0
    ensures span.Some? ==> line > 0 && exists found: nat ::
      Nearest(index, line, found) && span.value == index[found].span
  {
    if |index| == 0 || line <= 0 {
      return None;
    }
    var at := LowerBound(index, line);
    if at == |index| {
      LastIsNearest(index, line);
      return Some(index[|index| - 1].span);
    }
    if index[at].line == line {
      assert Nearest(index, line, at);
      return Some(index[at].span);
    }
    if at == 0 {
      FirstIsNearest(index, line);
      return Some(index[0].span);
    }
    NeighbourIsNearest(index, line, at);
    var loDist := line - index[at - 1].line;
    var hiDist := index[at].line - line;
    span := Some(if hiDist < loDist then index[at].span else index[at - 1].span);
  }

  lemma LastIsNearest(index: seq<LineEntry>, line: nat)
    requires SortedBy(index, EntryLeq) && index != []
    requires forall k :: 0 <= k < |index| ==> index[k].line < line
    ensures Nearest(index, line, |index| - 1)
  {
    assert forall k :: 0 <= k < |index| - 1 ==> EntryLeq(index[k], index[|index| - 1]);
  }

  lemma FirstIsNearest(index: seq<LineEntry>, line: nat)
    requires SortedBy(index, EntryLeq) && index != []
    requires forall k :: 0 <= k < |index| ==> index[k].line > line
    ensures Nearest(index, line, 0)
  {
    assert forall k :: 0 < k < |index| ==> EntryLeq(index[0], index[k]);
  }

  lemma NeighbourIsNearest(index: seq<LineEntry>, line: nat, at: nat)
    requires SortedBy(index, EntryLeq) && 0 < at < |index| && index[at].line > line
    requires forall k :: 0 <= k < at ==> index[k].line < line
    ensures Nearest(index, line, if index[at].line - line < line - index[at - 1].line then at else at - 1)
  {
    assert forall k :: 0 <= k < at - 1 ==> EntryLeq(index[k], index[at - 1]);
    assert forall k :: at < k < |index| ==> EntryLeq(index[at], index[k]);
  }
}
