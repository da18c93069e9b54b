/**
  The element trees the writer produces and the model builder reads, with the
  two searches the builder uses: a direct child and all descendants of a tag.
 */
module XmlTree {
  import opened RawTree
  import opened Wrappers

  /** The tags the reader and the writer know. */
  datatype Tag =
    | AUTOSAR | AR_PACKAGES | AR_PACKAGE | ELEMENTS | SHORT_NAME | CATEGORY
    | CLUSTER | CAN_CLUSTER | CAN_CLUSTER_VARIANTS | CAN_CLUSTER_CONDITIONAL | BAUDRATE
    | PHYSICAL_CHANNELS | PHYSICAL_CHANNEL | CAN_PHYSICAL_CHANNEL
    | ECU_INSTANCE | CHANNEL_REF | COMM_CONTROLLERS | CAN_CONTROLLER | CAN_COMMUNICATION_CONTROLLER
    | FRAME | CAN_FRAME | LENGTH | FRAME_LENGTH | TRANSMITTER_REF | FRAME_PDU
    | PDU_TO_FRAME_MAPPINGS | PDU_TO_FRAME_MAPPING | PDU_REF | START_POSITION
    | PDU | I_SIGNAL_I_PDU | PDU_SIGNAL_MAPPING | I_SIGNAL_TO_PDU_MAPPINGS | I_SIGNAL_TO_I_PDU_MAPPING
    | SIGNAL_REF | I_SIGNAL_REF | BYTE_ORDER | PACKING_BYTE_ORDER
    | SYSTEM_SIGNAL | I_SIGNAL | START_BIT | BIT_LENGTH | INIT_VALUE | NUMERICAL_VALUE_SPECIFICATION | VALUE
    | NETWORK_REPRESENTATION_PROPS | SW_DATA_DEF_PROPS_VARIANTS | SW_DATA_DEF_PROPS_CONDITIONAL | BASE_TYPE_REF
    | RECEIVER_REF | VALUE_TABLE | VALUE_TABLE_ENTRY | LABEL
    | SIGNAL_GROUP | I_SIGNAL_GROUP | I_SIGNAL_REFS | SYSTEM_SIGNAL_REF
    | OTHER(name: string)

  datatype Node = Node(tag: Tag, attributes: seq<(string, string)>, text: string, children: seq<Node>, span: RawSpan)

  /** The span of a node that was never in a file. */
  const NOWHERE := RawSpan(0, 0, 0)

  function Leaf(tag: Tag, text: string): Node {
    Node(tag, [], text, [], NOWHERE)
  }

  function Branch(tag: Tag, children: seq<Node>): Node {
    Node(tag, [], "", children, NOWHERE)
  }

  // ----- searches -----

  function FindIn(nodes: seq<Node>, tag: Tag): Option<Node> {
    if nodes == [] then None
    else if nodes[0].tag == tag then Some(nodes[0])
    else FindIn(nodes[1..], tag)
  }

  function FindChild(node: Node, tag: Tag): Option<Node> {
    FindIn(node.children, tag)
  }

  /** A node if it has the tag, then what lies below it, in document order. */
  function Matches(node: Node, tag: Tag): seq<Node>
    decreases node
  {
    (if node.tag == tag then [node] else []) + MatchesIn(node.children, tag)
  }

  function MatchesIn(nodes: seq<Node>, tag: Tag): seq<Node>
    decreases nodes
  {
    if nodes == [] then [] else Matches(nodes[0], tag) + MatchesIn(nodes[1..], tag)
  }

  function Descendants(node: Node, tag: Tag): seq<Node> {
    MatchesIn(node.children, tag)
  }

  lemma MatchesStep(nodes: seq<Node>, tag: Tag, i: nat)
    requires i < |nodes|
    ensures MatchesIn(nodes[i..], tag) ==
      (if nodes[i].tag == tag then [nodes[i]] else []) + Descendants(nodes[i], tag) + MatchesIn(nodes[i + 1..], tag)
  {
    assert nodes[i..][1..] == nodes[i + 1..];
  }

  method FindChildNode(node: Node, tag: Tag) returns (found: Option<Node>)
    ensures found == FindChild(node, tag)
  {
    for i := 0 to |node.children|
      invariant FindChild(node, tag) == FindIn(node.children[i..], tag)
    {
      assert node.children[i..][1..] == node.children[i + 1..];
      if node.children[i].tag == tag {
        return Some(node.children[i]);
      }
    }
    return None;
  }

  method CollectDescendants(node: Node, tag: Tag, found: seq<Node>) returns (grown: seq<Node>)
    ensures grown == found + Descendants(node, tag)
    decreases node
  {
    hide Matches;
    var children := node.children;
    grown := found;
    for i := 0 to |children|
      invariant found + MatchesIn(children, tag) == grown + MatchesIn(children[i..], tag)
    {
      MatchesStep(children, tag, i);
      hide MatchesIn;
      if children[i].tag == tag {
        grown := grown + [children[i]];
      }
      grown := CollectDescendants(children[i], tag, grown);
    }
  }

  method FindDescendants(node: Node, tag: Tag) returns (found: seq<Node>)
    ensures found == Descendants(node, tag)
  {
    found := CollectDescendants(node, tag, []);
  }

  // ----- searches in pieces -----

  lemma {:induction false} FindInConcat(a: seq<Node>, b: seq<Node>, tag: Tag)
    ensures FindIn(a + b, tag) == if FindIn(a, tag).Some? then FindIn(a, tag) else FindIn(b, tag)
  {
    if a == [] {
      assert a + b == b;
    } else {
      assert (a + b)[1..] == a[1..] + b;
      FindInConcat(a[1..], b, tag);
    }
  }

  lemma {:induction false} MatchesInConcat(a: seq<Node>, b: seq<Node>, tag: Tag)
    ensures MatchesIn(a + b, tag) == MatchesIn(a, tag) + MatchesIn(b, tag)
  {
    if a == [] {
      assert a + b == b;
    } else {
      assert (a + b)[1..] == a[1..] + b;
      MatchesInConcat(a[1..], b, tag);
    }
  }

  lemma SearchOne(node: Node, tag: Tag)
    ensures FindIn([node], tag) == if node.tag == tag then Some(node) else None
    ensures MatchesIn([node], tag) == Matches(node, tag)
  {
    assert [node][1..] == [];
    assert FindIn([], tag) == None;
    assert MatchesIn([], tag) == [];
  }

  // ----- loading -----

  /**
    What loading a written tree back gives: the same elements with the same
    leaf texts; text between children is indentation, spans are new, and
    attributes, which records are not read from, are whatever they are.
   */
  predicate Loaded(written: Node, node: Node)
    decreases written
  {
    && node.tag == written.tag
    && (written.children == [] ==> node.text == written.text)
    && AllLoaded(written.children, node.children)
  }

  predicate AllLoaded(written: seq<Node>, nodes: seq<Node>)
    decreases written
  {
    if written == [] then nodes == []
    else nodes != [] && Loaded(written[0], nodes[0]) && AllLoaded(written[1..], nodes[1..])
  }

  lemma {:induction false} LoadedEach(written: seq<Node>, nodes: seq<Node>)
    requires AllLoaded(written, nodes)
    ensures |nodes| == |written| && forall i :: 0 <= i < |written| ==> Loaded(written[i], nodes[i])
  {
    if written != [] {
      LoadedEach(written[1..], nodes[1..]);
      forall i | 0 <= i < |written| ensures Loaded(written[i], nodes[i]) {
        if i > 0 {
          assert Loaded(written[1..][i - 1], nodes[1..][i - 1]);
        }
      }
    }
  }

  lemma {:induction false} LoadedConcat(a: seq<Node>, b: seq<Node>, c: seq<Node>, d: seq<Node>)
    requires AllLoaded(a, c) && AllLoaded(b, d)
    ensures AllLoaded(a + b, c + d)
  {
    if a == [] {
      assert a + b == b && c + d == d;
    } else {
      assert (a + b)[1..] == a[1..] + b && (c + d)[1..] == c[1..] + d;
      LoadedConcat(a[1..], b, c[1..], d);
    }
  }

  /** Searches find the loaded copies of what they would have found in the written tree. */
  lemma {:induction false} LoadedFind(written: seq<Node>, nodes: seq<Node>, tag: Tag)
    requires AllLoaded(written, nodes)
    ensures FindIn(nodes, tag).Some? == FindIn(written, tag).Some?
    ensures FindIn(nodes, tag).Some? ==> Loaded(FindIn(written, tag).value, FindIn(nodes, tag).value)
  {
    if written != [] {
      LoadedFind(written[1..], nodes[1..], tag);
    }
  }

  lemma {:induction false} LoadedMatches(written: Node, node: Node, tag: Tag)
    requires Loaded(written, node)
    ensures AllLoaded(Matches(written, tag), Matches(node, tag))
    decreases written
  {
    LoadedMatchesIn(written.children, node.children, tag);
    if node.tag == tag {
      assert [written][1..] == [] && [node][1..] == [];
      assert AllLoaded([], []);
      LoadedConcat([written], MatchesIn(written.children, tag), [node], MatchesIn(node.children, tag));
    } else {
      assert [] + MatchesIn(written.children, tag) == MatchesIn(written.children, tag);
      assert [] + MatchesIn(node.children, tag) == MatchesIn(node.children, tag);
    }
  }

  lemma {:induction false} LoadedMatchesIn(written: seq<Node>, nodes: seq<Node>, tag: Tag)
    requires AllLoaded(written, nodes)
    ensures AllLoaded(MatchesIn(written, tag), MatchesIn(nodes, tag))
    decreases written
  {
    if written != [] {
      LoadedMatches(written[0], nodes[0], tag);
      LoadedMatchesIn(written[1..], nodes[1..], tag);
      LoadedConcat(Matches(written[0], tag), MatchesIn(written[1..], tag), Matches(nodes[0], tag),
                   MatchesIn(nodes[1..], tag));
    }
  }

  // ----- which tags occur -----

  /** No node of the list or below it has the tag. */
  predicate Lacks(nodes: seq<Node>, tag: Tag) {
    MatchesIn(nodes, tag) == []
  }

  lemma {:induction false} LacksMeansNotFound(nodes: seq<Node>, tag: Tag)
    requires Lacks(nodes, tag)
    ensures FindIn(nodes, tag) == None
  {
    if nodes != [] {
      assert Matches(nodes[0], tag) == [] && Lacks(nodes[1..], tag);
      LacksMeansNotFound(nodes[1..], tag);
    }
  }
}
