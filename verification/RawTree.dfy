/** The raw document tree: one node per element, with the span of bytes it came from. */
module RawTree {
  /** Byte offsets [startOffset, endOffset) of an element and the 1-based line of its '<'. */
  datatype RawSpan = RawSpan(startOffset: nat, endOffset: nat, lineNumber: nat)

  datatype RawNode = RawNode(
    tagName: string,
    attributes: seq<(string, string)>,
    text: string,
    span: RawSpan,
    children: seq<RawNode>)
}
