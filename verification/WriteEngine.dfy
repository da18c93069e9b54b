/** Writing a project: validation, merging of all files, canonical order, whitespace check. */
module WriteEngine {
  import opened Wrappers
  import opened DiffMatch
  import opened Model
  import opened Numbers
  import opened Sorting
  import opened Text
  import opened WriteElements
  import opened XmlTree

  // ----- validation -----

  /** A record without a short name: its type, its file, its place in the file's list. */
  datatype Problem = Problem(elementType: ElementType, fileIndex: nat, idx: nat)

  datatype WriteError = MissingShortNames(problems: seq<Problem>) | BlankText

  function NamelessIn(elements: seq<Element>, t: ElementType, fileIndex: nat): seq<Problem> {
    if elements == [] then []
    else
      var idx := |elements| - 1;
      NamelessIn(elements[..idx], t, fileIndex)
      + if elements[idx].Common().shortName == "" then [Problem(t, fileIndex, idx)] else []
  }

  /** Problems of one file's first k types. */
  function FileProblems(file: ParsedFile, fileIndex: nat, k: nat): seq<Problem>
    requires k <= |TYPES|
  {
    if k == 0 then []
    else FileProblems(file, fileIndex, k - 1) + NamelessIn(FileElements(file, TYPES[k - 1]), TYPES[k - 1], fileIndex)
  }

  function Problems(files: seq<ParsedFile>): seq<Problem> {
    if files == [] then []
    else Problems(files[..|files| - 1]) + FileProblems(files[|files| - 1], |files| - 1, |TYPES|)
  }

  method CheckShortNames(elements: seq<Element>, t: ElementType, fileIndex: nat, found: seq<Problem>)
      returns (grown: seq<Problem>)
    ensures grown == found + NamelessIn(elements, t, fileIndex)
  {
    grown := found;
    for idx := 0 to |elements|
      invariant grown == found + NamelessIn(elements[..idx], t, fileIndex)
    {
      assert elements[..idx + 1][..idx] == elements[..idx];
      if elements[idx].Common().shortName != "" {
        continue;
      }
      grown := grown + [Problem(t, fileIndex, idx)];
    }
    assert elements[..|elements|] == elements;
  }

  method CheckFile(file: ParsedFile, fileIndex: nat, found: seq<Problem>) returns (grown: seq<Problem>)
    ensures grown == found + FileProblems(file, fileIndex, |TYPES|)
  {
    hide NamelessIn, FileElements;
    grown := found;
    for k := 0 to |TYPES|
      invariant grown == found + FileProblems(file, fileIndex, k)
    {
      grown := CheckShortNames(FileElements(file, TYPES[k]), TYPES[k], fileIndex, grown);
    }
  }

  method Validate(project: ParsedProject) returns (problems: seq<Problem>)
    ensures problems == Problems(project.files)
  {
    hide FileProblems;
    var files := project.files;
    problems := [];
    for i := 0 to |files|
      invariant problems == Problems(files[..i])
    {
      assert files[..i + 1][..i] == files[..i];
      problems := CheckFile(files[i], i, problems);
    }
    assert files[..|files|] == files;
  }

  // ----- the tree -----

  predicate NameLeq(a: Element, b: Element) {
    StrLeq(a.Common().shortName, b.Common().shortName)
  }

  function ElementNode(e: Element): Node {
    match e
    case ClusterElement(c) => ClusterNode(c)
    case EcuElement(u) => EcuInstanceNode(u)
    case FrameElement(f) => FrameNode(f)
    case PduElement(p) => PduNode(p)
    case SignalElement(s) => SignalNode(s)
    case GroupElement(g) => SignalGroupNode(g)
  }

  function ElementNodes(elements: seq<Element>): (r: seq<Node>)
    ensures |r| == |elements|
  {
    if elements == [] then [] else ElementNodes(elements[..|elements| - 1]) + [ElementNode(elements[|elements| - 1])]
  }

  /** The records of one type from all files, by short name; equal names keep their order. */
  function SortedGroup(project: ParsedProject, t: ElementType): seq<Element> {
    StableSort(CollectAll(project, t), NameLeq)
  }

  /** The first k type groups, one after the other. */
  function GroupNodes(project: ParsedProject, k: nat): seq<Node>
    requires k <= |TYPES|
  {
    if k == 0 then [] else GroupNodes(project, k - 1) + ElementNodes(SortedGroup(project, TYPES[k - 1]))
  }

  function Document(project: ParsedProject): Node {
    Branch(AUTOSAR,
           [Branch(AR_PACKAGES,
                   [Branch(AR_PACKAGE, [Leaf(SHORT_NAME, "Sys"), Branch(ELEMENTS, GroupNodes(project, |TYPES|))])])])
  }

  predicate AllBlank(text: string) {
    text == "" || (IsBlank(text[0]) && AllBlank(text[1..]))
  }

  /** Some text node of the tree holds white space only; empty text makes no text node. */
  predicate HasBlankText(node: Node)
    decreases node
  {
    (node.text != "" && AllBlank(node.text)) || HasBlankTextIn(node.children)
  }

  predicate HasBlankTextIn(nodes: seq<Node>)
    decreases nodes
  {
    nodes != [] && (HasBlankText(nodes[0]) || HasBlankTextIn(nodes[1..]))
  }

  function Written(project: ParsedProject): Result<Node, WriteError> {
    if Problems(project.files) != [] then Err(MissingShortNames(Problems(project.files)))
    else if HasBlankText(Document(project)) then Err(BlankText)
    else Ok(Document(project))
  }

  method BuildElement(e: Element) returns (node: Node)
    ensures node == ElementNode(e)
  {
    hide ClusterNode, EcuInstanceNode, FrameNode, PduNode, SignalNode, SignalGroupNode;
    match e
    case ClusterElement(c) => node := BuildClusterElement(c);
    case EcuElement(u) => node := BuildEcuInstanceElement(u);
    case FrameElement(f) => node := BuildFrameElement(f);
    case PduElement(p) => node := BuildPduElement(p);
    case SignalElement(s) => node := BuildSignalElement(s);
    case GroupElement(g) => node := BuildSignalGroupElement(g);
  }

  method AppendGroup(project: ParsedProject, t: ElementType, children: seq<Node>) returns (grown: seq<Node>)
    ensures grown == children + ElementNodes(SortedGroup(project, t))
  {
    hide ElementNode, CollectAll, NameLeq, StableSort;
    var merged := CollectElements(project, t);
    var sorted := StableSort(merged, NameLeq);
    grown := children;
    for i := 0 to |sorted|
      invariant grown == children + ElementNodes(sorted[..i])
    {
      assert sorted[..i + 1][..i] == sorted[..i];
      var node := BuildElement(sorted[i]);
      grown := grown + [node];
    }
    assert sorted[..|sorted|] == sorted;
  }

  method Write(project: ParsedProject) returns (result: Result<Node, WriteError>)
    ensures result == Written(project)
  {
    hide Problems, HasBlankText, ElementNodes, SortedGroup;
    var problems := Validate(project);
    if problems != [] {
      return Err(MissingShortNames(problems));
    }
    var elements := [];
    for k := 0 to |TYPES|
      invariant elements == GroupNodes(project, k)
    {
      elements := AppendGroup(project, TYPES[k], elements);
    }
    var root := Branch(AUTOSAR,
                       [Branch(AR_PACKAGES, [Branch(AR_PACKAGE,
                                                    [Leaf(SHORT_NAME, "Sys"), Branch(ELEMENTS, elements)])])]);
    if HasBlankText(root) {
      return Err(BlankText);
    }
    return Ok(root);
  }

  // ----- into place -----

  /** What a path holds: a whole written document, or anything else. */
  datatype Content = Whole(root: Node) | Other(text: string)

  /** Which file operations succeed; a failed save may leave some text behind, or nothing. */
  datatype SaveAnswers = SaveAnswers(saveOk: bool, leftBehind: Option<string>, renameOk: bool, removeOk: bool)

  datatype SaveError = Unwritable(error: WriteError) | SaveFailed | RenameFailed

  function TempPath(path: string): string {
    path + ".parsex-tmp"
  }

  /**
    The output path holds the whole document or what it held before; nothing
    else changes, and the temporary file is gone unless removing it failed.
   */
  method WriteToPath(project: ParsedProject, files: map<string, Content>, path: string, a: SaveAnswers)
    returns (after: map<string, Content>, error: Option<SaveError>)
    ensures error == None <==> Written(project).Ok? && a.saveOk && a.renameOk
    ensures error == None ==> after == (files - {TempPath(path)})[path := Whole(Written(project).value)]
    ensures error != None ==> after - {TempPath(path)} == files - {TempPath(path)}
    ensures Written(project).Err? ==> error == Some(Unwritable(Written(project).error)) && after == files
    ensures Written(project).Ok? && error != None && a.removeOk ==> TempPath(path) !in after
  {
    hide Written;
    after := files;
    var result := Write(project);
    if result.Err? {
      return after, Some(Unwritable(result.error));
    }
    var temp := TempPath(path);
    assert |temp| > |path|;
    error := None;
    if !a.saveOk {
      after := if a.leftBehind.Some? then after[temp := Other(a.leftBehind.value)] else after;
      error := Some(SaveFailed);
    } else {
      after := after[temp := Whole(result.value)];
      if a.renameOk {
        after := (after - {temp})[path := after[temp]];
      } else {
        error := Some(RenameFailed);
      }
    }
    if error.Some? && a.removeOk {
      after := after - {temp};
    }
  }

  // ----- validation finds exactly the nameless records -----

  predicate AllNamed(elements: seq<Element>) {
    forall e <- elements :: e.Common().shortName != ""
  }

  lemma {:induction false} NamelessExact(elements: seq<Element>, t: ElementType, fileIndex: nat)
    ensures NamelessIn(elements, t, fileIndex) == [] <==> AllNamed(elements)
  {
    if elements != [] {
      var front, last := elements[..|elements| - 1], elements[|elements| - 1];
      assert elements == front + [last];
      NamelessExact(front, t, fileIndex);
    }
  }

  lemma {:induction false} FileProblemsExact(file: ParsedFile, fileIndex: nat, k: nat)
    requires k <= |TYPES|
    ensures FileProblems(file, fileIndex, k) == [] <==>
      forall t: ElementType :: Rank(t) < k ==> AllNamed(FileElements(file, t))
  {
    hide NamelessIn, FileElements, AllNamed;
    if k > 0 {
      FileProblemsExact(file, fileIndex, k - 1);
      NamelessExact(FileElements(file, TYPES[k - 1]), TYPES[k - 1], fileIndex);
      assert Rank(TYPES[k - 1]) == k - 1;
      forall t: ElementType ensures Rank(t) == k - 1 <==> t == TYPES[k - 1] {}
    }
  }

  ghost predicate EveryTypeNamed(files: seq<ParsedFile>) {
    forall t: ElementType :: AllNamed(FilesElements(files, t))
  }

  /** Validation passes exactly when every record of every type has a name. */
  lemma {:induction false} ProblemsExact(files: seq<ParsedFile>)
    ensures Problems(files) == [] <==> EveryTypeNamed(files)
  {
    hide FileProblems, FileElements;
    if files != [] {
      var front, last := files[..|files| - 1], files[|files| - 1];
      ProblemsExact(front);
      FileProblemsExact(last, |files| - 1, |TYPES|);
      forall t: ElementType
        ensures Rank(t) < |TYPES|
        ensures AllNamed(FilesElements(files, t))
          <==> AllNamed(FilesElements(front, t)) && AllNamed(FileElements(last, t))
      {
        NamedConcat(FilesElements(front, t), FileElements(last, t));
      }
      hide AllNamed, FilesElements;
      if EveryTypeNamed(files) {
        forall t: ElementType ensures AllNamed(FilesElements(front, t)) && AllNamed(FileElements(last, t)) {
          assert AllNamed(FilesElements(files, t));
        }
      }
      if Problems(files) == [] {
        forall t: ElementType ensures AllNamed(FilesElements(files, t)) {
          assert AllNamed(FilesElements(front, t)) && AllNamed(FileElements(last, t));
        }
      }
    }
  }

  lemma NamedConcat(a: seq<Element>, b: seq<Element>)
    ensures AllNamed(a + b) <==> AllNamed(a) && AllNamed(b)
  {
    forall e ensures e in a + b <==> e in a || e in b {}
  }
}
