/**
  Where the raw scanner and XML part ways: legal comments it ends too early,
  and comments inside a DOCTYPE subset that it reads as declaration text.
 */
module MarkupLimits {
  import opened Wrappers
  import opened RawBytes
  import opened Scanner
  import opened Loader
  import opened Markup
  import opened MarkupScan
  import opened QuietText
  import opened ExactSpans

  /** XML 1.0 production 15: no "--" inside, and no '-' last. */
  predicate LegalComment(body: seq<int>) {
    && (forall k :: 0 <= k < |body| - 1 ==> !(body[k] == '-' as int && body[k + 1] == '-' as int))
    && (body != [] ==> body[|body| - 1] != '-' as int)
  }

  /** A legal comment never holds its own terminator, so the opener is the only way it can end early. */
  lemma LegalCommentAvoids(body: seq<int>)
    requires LegalComment(body)
    ensures Avoids(body, "-->")
  {
    LiteralUnits();
    var tail := body + Code("-->");
    hide MatchLit;
    forall k: nat | k < |body| ensures !MatchLit(tail, k, "-->") {
      MatchThree(tail, k, "-->");
      assert "-->"[0] == '-' && "-->"[1] == '-';
      if k + 1 < |body| {
        assert !(body[k] == '-' as int && body[k + 1] == '-' as int);
      }
    }
  }

  /**
    A comment that closes its opener and then shows something like a tag
    stops every seek inside the comment: the next markup found is that tag.
   */
  lemma CommentMisread(u: seq<int>, i: nat, text: seq<int>, tag: int, rest: seq<int>)
    requires Occurs(u, i, PrintItem(Comment(['>' as int] + text + ['<' as int, tag] + rest)))
    requires '<' as int !in text && tag != '!' as int && tag != '?' as int
    ensures NextMarkup(u, i) == Ok(i + 5 + |text|)
  {
    hide NextMarkup, SkipSpecialUnit, SkipDelimited, Occurs, MatchLit, PrintItem, Code;
    var opener := ['<' as int, '!' as int, '-' as int, '-' as int, '>' as int];
    var shown := ['<' as int, tag];
    var after := shown + (rest + Code("-->"));
    var body := ['>' as int] + text + shown + rest;
    MisreadForms(text, shown, rest);
    OpensComment(u, i, body + Code("-->"));
    OpenerSeen(u, i, opener, text, after);
    NextMarkupStep(u, i);
    OccursParts(u, i + 5 + |text|, shown, rest + Code("-->"));
    OccursAt(u, i + 5 + |text|, shown, 0);
    OccursAt(u, i + 5 + |text|, shown, 1);
    TextRun(u, i + 5, text);
    PlainTagIsMarkup(u, i + 5 + |text|);
  }

  lemma MisreadForms(text: seq<int>, shown: seq<int>, rest: seq<int>)
    ensures var body := ['>' as int] + text + shown + rest;
      && PrintItem(Comment(body)) == Code("<!--") + (body + Code("-->"))
      && PrintItem(Comment(body)) ==
           ['<' as int, '!' as int, '-' as int, '-' as int, '>' as int] + text + (shown + (rest + Code("-->")))
  {
    LiteralUnits();
  }

  lemma OpenerSeen(u: seq<int>, i: nat, opener: seq<int>, text: seq<int>, after: seq<int>)
    requires opener == ['<' as int, '!' as int, '-' as int, '-' as int, '>' as int]
    requires Occurs(u, i, opener + text + after)
    ensures SkipDelimited(u, i, "-->") == Ok(i + 5)
    ensures Occurs(u, i + 5, text) && Occurs(u, i + 5 + |text|, after)
  {
    hide Occurs, SkipDelimited;
    OccursThree(u, i, opener, text, after);
    OpenerEnds(u, i, opener);
  }

  lemma OpenerEnds(u: seq<int>, i: nat, opener: seq<int>)
    requires opener == ['<' as int, '!' as int, '-' as int, '-' as int, '>' as int] && Occurs(u, i, opener)
    ensures SkipDelimited(u, i, "-->") == Ok(i + 5)
  {
    OccursAt(u, i, opener, 0);
    OccursAt(u, i, opener, 1);
    OccursAt(u, i, opener, 2);
    OccursAt(u, i, opener, 3);
    OccursAt(u, i, opener, 4);
    MatchThree(u, i, "-->");
    MatchThree(u, i + 1, "-->");
    MatchThree(u, i + 2, "-->");
    assert "-->"[0] == '-' && "-->"[1] == '-' && "-->"[2] == '>';
    hide MatchLit, Occurs;
    forall k | i <= k < i + 2 ensures !MatchLit(u, k, "-->") {
      if k == i {} else {
        assert k == i + 1;
      }
    }
    DelimitedEnd(u, i, i + 2, "-->");
  }

  /**
    A document that starts with such a comment is never loaded as printed: the
    load fails, or its root starts inside the comment.
   */
  lemma CommentMisleadsLoad(enc: Encoding, d: Document, text: seq<int>, tag: int, rest: seq<int>)
    requires IsMisc(d.prolog) && GoodElement(d.root) && IsMisc(d.epilog) && AllUnits(enc, PrintDocument(d))
    requires d.prolog != [] && d.prolog[0] == Comment(['>' as int] + text + ['<' as int, tag] + rest)
    requires '<' as int !in text && tag != '!' as int && tag != '?' as int
    ensures var loaded := Run(Encode(enc, PrintDocument(d)), enc, INITIAL, DocumentEvents(d));
      loaded.Ok? ==> Rooted(loaded.value, Offset(enc, 5 + |text|)) && 5 + |text| < |PrintItem(d.prolog[0])|
    ensures !LoadsWhole(enc, d)
  {
    hide Run, NextMarkup, Encode, PrintContent, PrintItem, PrintElement, GoodElement, PrintDocument, LoadsWhole, Rooted;
    MisledFirst(d, text, tag, rest);
    NameIsGood(d.root);
    LoadStarts(enc, d);
    LoadDecided(enc, d);
  }

  lemma MisledFirst(d: Document, text: seq<int>, tag: int, rest: seq<int>)
    requires d.prolog != [] && d.prolog[0] == Comment(['>' as int] + text + ['<' as int, tag] + rest)
    requires '<' as int !in text && tag != '!' as int && tag != '?' as int
    ensures NextMarkup(PrintDocument(d), 0) == Ok(5 + |text|)
    ensures 5 + |text| < |PrintItem(d.prolog[0])| <= |PrintContent(d.prolog)|
  {
    MisreadForms(text, ['<' as int, tag], rest);
    assert |PrintItem(d.prolog[0])| > 5 + |text|;
    hide *;
    var u, first := PrintDocument(d), PrintItem(d.prolog[0]);
    FirstItem(d);
    OccursWhole(u);
    OccursParts(u, 0, first, PrintContent(d.prolog[1..]) + PrintElement(d.root) + PrintContent(d.epilog));
    CommentMisread(u, 0, text, tag, rest);
  }

  lemma FirstItem(d: Document)
    requires d.prolog != []
    ensures PrintDocument(d) == PrintItem(d.prolog[0])
      + (PrintContent(d.prolog[1..]) + PrintElement(d.root) + PrintContent(d.epilog))
    ensures |PrintItem(d.prolog[0])| <= |PrintContent(d.prolog)|
  {
    hide PrintItem, PrintElement;
  }

  // ----- comments in content -----

  /** The element with a comment put in front of one of its pieces of content. */
  function WithComment(e: Element, k: nat, body: seq<int>): Element
    requires k <= |e.content|
  {
    e.(content := e.content[..k] + [Comment(body)] + e.content[k..])
  }

  /** Put anywhere into any good root element, the comment leaves the load exact. */
  ghost predicate Harmless(enc: Encoding, body: seq<int>) {
    forall e: Element, k: nat :: GoodElement(e) && !e.selfClosed && k <= |e.content| ==> LoadsWith(enc, e, k, body)
  }

  ghost predicate LoadsWith(enc: Encoding, e: Element, k: nat, body: seq<int>)
    requires k <= |e.content|
  {
    var d := Document([], WithComment(e, k, body), []);
    AllUnits(enc, PrintDocument(d)) ==> LoadsWhole(enc, d)
  }

  /** A comment is harmless wherever it stands among elements exactly when its own units are quiet. */
  lemma HarmlessComment(enc: Encoding, body: seq<int>)
    requires AllUnits(enc, PrintComment(body))
    ensures Harmless(enc, body) <==> Quiet(PrintComment(body))
  {
    hide LoadsWith, Quiet, GoodElement, PrintComment;
    if Quiet(PrintComment(body)) {
      forall e: Element, k: nat | GoodElement(e) && !e.selfClosed && k <= |e.content|
        ensures LoadsWith(enc, e, k, body) {
        QuietCommentLoads(enc, e, k, body);
      }
    } else {
      LoudCommentMisleads(enc, body);
    }
  }

  lemma QuietCommentLoads(enc: Encoding, e: Element, k: nat, body: seq<int>)
    requires GoodElement(e) && !e.selfClosed && k <= |e.content| && Quiet(PrintComment(body))
    ensures LoadsWith(enc, e, k, body)
  {
    var d := Document([], WithComment(e, k, body), []);
    if AllUnits(enc, PrintDocument(d)) {
      hide Quiet, PrintDocument, AllUnits, LoadsWhole, GoodTag, ContentWellTagged, ChildGapsQuiet, LastGap,
        PrintComment, AllQuiet;
      NothingIsQuiet();
      NothingInContent();
      ContentIsQuiet(e.content);
      CommentAmongQuiet(e.content, k, body);
      QuietPieces(d.root.content, []);
      TagIgnoresContent(e, d.root.content);
      LoadsIffQuiet(enc, d);
    }
  }

  lemma NothingInContent()
    ensures PrintContent([]) == []
  {}

  lemma TagIgnoresContent(e: Element, content: seq<Item>)
    requires GoodTag(e) && !e.selfClosed
    ensures GoodTag(e.(content := content))
  {}

  lemma CommentAmongQuiet(items: seq<Item>, k: nat, body: seq<int>)
    requires k <= |items| && AllQuiet(items) && ContentWellTagged(items) && Quiet(PrintComment(body))
    ensures AllQuiet(items[..k] + [Comment(body)] + items[k..])
      && ContentWellTagged(items[..k] + [Comment(body)] + items[k..])
  {
    hide Quiet, PrintComment, ItemQuiet, ItemWellTagged;
    var c := Comment(body);
    assert ItemQuiet(c) by { CommentItem(body); }
    assert ItemWellTagged(c) by { CommentItem(body); }
    TaggedMembers(items);
    TaggedMembers(items[..k] + [c] + items[k..]);
  }

  lemma CommentItem(body: seq<int>)
    ensures ItemQuiet(Comment(body)) == Quiet(PrintComment(body)) && ItemWellTagged(Comment(body))
  {
    hide Quiet, PrintComment;
  }

  lemma {:induction false} TaggedMembers(items: seq<Item>)
    ensures ContentWellTagged(items) <==> forall item <- items :: ItemWellTagged(item)
    decreases |items|
  {
    hide ItemWellTagged;
    if items != [] {
      var first, rest := items[0], items[1..];
      TaggedMembers(rest);
      assert items == [first] + rest;
      if ContentWellTagged(items) {
        forall item | item in items ensures ItemWellTagged(item) {
          if item != first {
            assert item in rest;
          }
        }
      }
      if forall item <- items :: ItemWellTagged(item) {
        assert first in items;
        forall item | item in rest ensures ItemWellTagged(item) {
          assert item in items;
        }
      }
    }
  }

  /** Alone in an element, a comment that is not quiet misleads the load. */
  lemma LoudCommentMisleads(enc: Encoding, body: seq<int>)
    requires AllUnits(enc, PrintComment(body)) && !Quiet(PrintComment(body))
    ensures !Harmless(enc, body)
  {
    var e := Element("a", [], [], [], false, [], []);
    var d := Document([], WithComment(e, 0, body), []);
    var comment := Comment(body);
    assert d.root.content == [comment];
    AloneInElement(enc, d.root, comment);
    hide Quiet, PrintDocument, AllUnits, LoadsWhole, GapsQuiet, PrintComment;
    assert GoodElement(e);
    assert WellTagged(d.root) by { TaggedMembers([comment]); }
    NothingInContent();
    LoadsIffQuiet(enc, d);
    assert !LoadsWith(enc, e, 0, body);
  }

  lemma AloneInElement(enc: Encoding, e: Element, item: Item)
    requires e == Element("a", [], [], [], false, [item], []) && item.Comment? && AllUnits(enc, PrintItem(item))
    ensures GapsQuiet(e) ==> Quiet(PrintItem(item))
    ensures AllUnits(enc, PrintDocument(Document([], e, [])))
  {
    var text := PrintItem(item);
    hide Quiet, PrintItem;
    assert [item][1..] == [] && [] + text == text;
    assert PrintContent([item]) == text;
    OneGap([item], []);
    AsciiTag(enc, e);
    UnitsOfThree(enc, PrintOpen(e), text, PrintClose(e));
    assert PrintDocument(Document([], e, [])) == PrintOpen(e) + text + PrintClose(e) by {
      NothingInContent();
      hide PrintOpen, PrintClose;
    }
  }

  lemma UnitsOfThree(enc: Encoding, a: seq<int>, b: seq<int>, c: seq<int>)
    requires AllUnits(enc, a) && AllUnits(enc, b) && AllUnits(enc, c)
    ensures AllUnits(enc, a + b + c)
  {}

  lemma AsciiTag(enc: Encoding, e: Element)
    requires e.name == "a" && e.attributes == [] && e.tagSpace == [] && !e.selfClosed && e.endSpace == []
    ensures AllUnits(enc, PrintOpen(e)) && AllUnits(enc, PrintClose(e))
  {
    LiteralUnits();
    assert Code("<") == ['<' as int] && Code("</") == ['<' as int, '/' as int] && Code("a") == ['a' as int];
    assert PrintOpen(e) == ['<' as int, 'a' as int, '>' as int];
    assert PrintClose(e) == ['<' as int, '/' as int, 'a' as int, '>' as int];
  }

  /** What the scanner still reads of a comment that closes its opener. */
  function Leftover(body: seq<int>): seq<int>
    requires ClosesOpener(body)
  {
    (body + Code("-->"))[if At(body, 0) == '>' as int then 1 else 2..]
  }

  /** A legal comment is quiet unless it closes its opener and what is left of it is not. */
  lemma LegalCommentQuietIff(body: seq<int>)
    requires Avoids(body, "-->")
    ensures Quiet(PrintComment(body)) <==> (ClosesOpener(body) ==> Quiet(Leftover(body)))
  {
    hide Avoids, Quiet, MatchLit;
    if ClosesOpener(body) {
      hide PrintComment;
      LeftoverDecides(body);
    } else {
      assert GoodItem(Comment(body));
      GoodItemIsQuiet(Comment(body));
    }
  }

  lemma LeftoverDecides(body: seq<int>)
    requires ClosesOpener(body)
    ensures Quiet(PrintComment(body)) <==> Quiet(Leftover(body))
  {
    var text := PrintComment(body);
    var u, n := QuietText.Tagged(text), |text|;
    var j := if At(body, 0) == '>' as int then 5 else 6;
    LiteralUnits();
    assert text == Code("<!--") + (body + Code("-->"));
    assert u[0..n] == text && u[j..n] == Leftover(body);
    OpenerEndsAt(u, body, j);
    OccursSlice(u, 0, n);
    OpensComment(u, 0, body + Code("-->"));
    hide *;
    TagBehind(text);
    NextMarkupStep(u, 0);
    ReachesIffQuiet(u, 0, n);
    ReachesIffQuiet(u, j, n);
  }

  lemma OpenerEndsAt(u: seq<int>, body: seq<int>, j: nat)
    requires ClosesOpener(body) && PrintComment(body) <= u && j == if At(body, 0) == '>' as int then 5 else 6
    ensures SkipDelimited(u, 0, "-->") == Ok(j)
  {
    LiteralUnits();
    var text := PrintComment(body);
    assert text[0] == '<' as int && text[1] == '!' as int && text[2] == '-' as int && text[3] == '-' as int;
    assert text[4] == body[0] && (j == 6 ==> text[5] == body[1]);
    assert forall k :: 0 <= k < j ==> u[k] == text[k];
    MatchThree(u, 0, "-->");
    MatchThree(u, 1, "-->");
    MatchThree(u, 2, "-->");
    MatchThree(u, 3, "-->");
    assert "-->"[0] == '-' && "-->"[1] == '-' && "-->"[2] == '>';
    hide MatchLit, PrintComment, Code;
    DelimitedEnd(u, 0, j - 3, "-->");
  }

  // ----- quotes in a DOCTYPE -----

  /** A quote that text leaves open and nothing after it closes. */
  lemma OpenQuoteThrows(u: seq<int>, i: nat, text: seq<int>, tail: seq<int>, at: Lexing, quote: int)
    requires Occurs(u, i, text + tail) && i + |text + tail| == |u|
    requires !EndsWithin(text, at) && Lex(text, at).quote == Some(quote) && quote !in tail
    ensures ScanFrom(u, i, at) == Err(UnterminatedQuote)
  {
    OccursParts(u, i, text, tail);
    ScanText(u, i, text, at);
    NeverQuoted(u, i + |text|, tail, quote);
  }

  lemma {:induction false} NeverQuoted(u: seq<int>, i: nat, tail: seq<int>, quote: int)
    requires Occurs(u, i, tail) && i + |tail| == |u| && quote !in tail
    ensures SkipQuoted(u, i, quote) == Err(UnterminatedQuote)
    decreases |tail|
  {
    if tail != [] {
      OccursTail(u, i, tail);
      NeverQuoted(u, i + 1, tail[1..], quote);
    }
  }

  /** A document whose DOCTYPE text leaves a quote open to the end of the file fails to load. */
  lemma DoctypeQuoteThrows(enc: Encoding, d: Document, lead: seq<Item>, opening: seq<int>, tail: seq<int>, quote: int)
    requires IsMisc(d.prolog) && GoodName(d.root.name) && AllUnits(enc, PrintDocument(d))
    requires GoodContent(lead) && IsMisc(lead)
    requires PrintDocument(d) == PrintContent(lead) + (Code("<!") + Code("DOCTYPE") + (opening + tail))
    requires !EndsWithin(opening, OUTSIDE) && Lex(opening, OUTSIDE).quote == Some(quote) && quote !in tail
    ensures Run(Encode(enc, PrintDocument(d)), enc, INITIAL, DocumentEvents(d)) == Err(UnterminatedQuote)
  {
    hide Run, NextMarkup, Encode, PrintContent, GoodContent, Occurs, SkipSpecialUnit, ScanFrom, Lex, EndsWithin,
      PrintDocument;
    var u := PrintDocument(d);
    var i := |PrintContent(lead)|;
    var word := Code("DOCTYPE");
    OccursWhole(u);
    OccursParts(u, 0, PrintContent(lead), Code("<!") + word + (opening + tail));
    MiscsRun(u, 0, lead);
    DoctypeLead(u, i, opening + tail);
    NextMarkupStep(u, i);
    KeywordLex(opening);
    assert Code("<!") + word + (opening + tail) == Code("<!") + ((word + opening) + tail);
    OccursParts(u, i, Code("<!"), (word + opening) + tail);
    OpenQuoteThrows(u, i + 2, word + opening, tail, OUTSIDE, quote);
    LoadStarts(enc, d);
  }

  lemma KeywordLex(rest: seq<int>)
    ensures Lex(Code("DOCTYPE") + rest, OUTSIDE) == Lex(rest, OUTSIDE)
    ensures EndsWithin(Code("DOCTYPE") + rest, OUTSIDE) <==> EndsWithin(rest, OUTSIDE)
  {
    KeywordCloses([]);
    assert Code("DOCTYPE") + [] == Code("DOCTYPE");
    NothingCloses();
    LexConcat(Code("DOCTYPE"), rest, OUTSIDE);
  }

  lemma NothingCloses()
    ensures Closes([], OUTSIDE)
  {}

  /** The DOCTYPE up to and with an apostrophe in a comment of its subset leaves that quote open. */
  lemma ApostropheOpens(name: seq<DeclPart>, before: seq<DeclPart>, x: seq<int>)
    requires Calm(name, 0) && Calm(before, 1) && Closes(x, Lexing(None, 1))
    ensures var opening := PrintParts(name)
      + (['[' as int] + (PrintParts(before) + (Code("<!--") + (x + ['\'' as int]))));
      !EndsWithin(opening, OUTSIDE) && Lex(opening, OUTSIDE).quote == Some('\'' as int)
  {
    var inner, apostrophe := Lexing(None, 1), ['\'' as int];
    PartsClose(name, 0);
    PartsClose(before, 1);
    CommentOpens(inner);
    LexOne('\'' as int, inner);
    LexOne('[' as int, OUTSIDE);
    assert Reads(OUTSIDE, '[' as int) == inner;
    hide PrintParts, Code, Lex, EndsWithin, Calm, Reads;
    LexConcat(x, apostrophe, inner);
    LexConcat(Code("<!--"), x + apostrophe, inner);
    LexConcat(PrintParts(before), Code("<!--") + (x + apostrophe), inner);
    LexConcat(['[' as int], PrintParts(before) + (Code("<!--") + (x + apostrophe)), OUTSIDE);
    LexConcat(PrintParts(name), ['[' as int] + (PrintParts(before) + (Code("<!--") + (x + apostrophe))), OUTSIDE);
    assert Lexing(Some('\'' as int), 1).quote == Some('\'' as int);
  }

  lemma CommentOpens(at: Lexing)
    requires at == Lexing(None, 1)
    ensures Closes(Code("<!--"), at)
  {
    LiteralUnits();
    LexOne('-' as int, at);
    LexOne('!' as int, at);
    LexOne('<' as int, at);
    assert Code("<!--") == ['<' as int] + (['!' as int] + (['-' as int] + ['-' as int]));
    ClosesConcat(['-' as int], ['-' as int], at);
    ClosesConcat(['!' as int], ['-' as int] + ['-' as int], at);
    ClosesConcat(['<' as int], ['!' as int] + (['-' as int] + ['-' as int]), at);
  }

  /** A document with a comment in its DOCTYPE subset. */
  function Commented(lead: seq<Item>, name: seq<DeclPart>, before: seq<DeclPart>, body: seq<int>, after: seq<DeclPart>,
                     root: Element): Document {
    Document(lead + [Doctype(name + [Subset(before + [Note(body)] + after)])], root, [])
  }

  /**
    A comment in a DOCTYPE subset with the last apostrophe of the file in it
    keeps the file, however well formed, from loading.
   */
  lemma SubsetApostropheThrows(
    enc: Encoding, lead: seq<Item>, name: seq<DeclPart>, before: seq<DeclPart>, x: seq<int>, y: seq<int>,
      after: seq<DeclPart>, root: Element)
    requires GoodContent(lead) && IsMisc(lead) && Calm(name, 0) && Calm(before, 1) && Closes(x, Lexing(None, 1))
      && GoodName(root.name)
    requires '\'' as int !in y && '\'' as int !in PrintParts(after) && '\'' as int !in PrintElement(root)
    requires AllUnits(enc, PrintDocument(Commented(lead, name, before, x + ['\'' as int] + y, after, root)))
    ensures var d := Commented(lead, name, before, x + ['\'' as int] + y, after, root);
      Run(Encode(enc, PrintDocument(d)), enc, INITIAL, DocumentEvents(d)) == Err(UnterminatedQuote)
  {
    var d := Commented(lead, name, before, x + ['\'' as int] + y, after, root);
    var apostrophe := ['\'' as int];
    var opening := PrintParts(name) + (['[' as int] + (PrintParts(before) + (Code("<!--") + (x + apostrophe))));
    var tail := y + Code("-->") + PrintParts(after) + [']' as int] + Code(">") + PrintElement(root);
    hide PrintElement, PrintParts, GoodContent, Calm, Closes, EndsWithin, Lex, Run, Encode, Code;
    CommentedPrints(lead, name, before, x, y, after, root);
    ApostropheOpens(name, before, x);
    LiteralUnits();
    assert '\'' as int !in tail;
    MiscConcat(lead, d.prolog[|lead|]);
    DoctypeQuoteThrows(enc, d, lead, opening, tail, '\'' as int);
  }

  lemma MiscConcat(lead: seq<Item>, item: Item)
    requires IsMisc(lead) && !item.Child?
    ensures IsMisc(lead + [item])
  {}

  lemma {:induction false} PrintContentConcat(a: seq<Item>, b: seq<Item>)
    ensures PrintContent(a + b) == PrintContent(a) + PrintContent(b)
  {
    hide PrintItem;
    if a == [] {
      assert a + b == b;
    } else {
      assert (a + b)[1..] == a[1..] + b;
      PrintContentConcat(a[1..], b);
    }
  }

  lemma ContentOne(item: Item)
    ensures PrintContent([item]) == PrintItem(item) && PrintContent([]) == []
  {
    assert [item][1..] == [];
  }

  lemma CommentedPrints(lead: seq<Item>, name: seq<DeclPart>, before: seq<DeclPart>, x: seq<int>, y: seq<int>,
                        after: seq<DeclPart>, root: Element)
    ensures PrintDocument(Commented(lead, name, before, x + ['\'' as int] + y, after, root)) ==
      PrintContent(lead) + (Code("<!") + Code("DOCTYPE") + (
        (PrintParts(name) + (['[' as int] + (PrintParts(before) + (Code("<!--") + (x + ['\'' as int])))))
        + (y + Code("-->") + PrintParts(after) + [']' as int] + Code(">") + PrintElement(root))))
  {
    var item := Doctype(name + [Subset(before + [Note(x + ['\'' as int] + y)] + after)]);
    PrintContentConcat(lead, [item]);
    ContentOne(item);
    DoctypePrints(name, before, x + ['\'' as int], y, after);
    hide PrintParts, PrintElement, PrintItem, PrintContent, Code;
    Regroup(PrintContent(lead), Code("<!"), Code("DOCTYPE"), PrintParts(name), PrintParts(before), Code("<!--"),
            x + ['\'' as int], y, Code("-->"), PrintParts(after), Code(">"), PrintElement(root));
  }

  lemma DoctypePrints(name: seq<DeclPart>, before: seq<DeclPart>, x: seq<int>, y: seq<int>, after: seq<DeclPart>)
    ensures PrintItem(Doctype(name + [Subset(before + [Note(x + y)] + after)])) ==
      Code("<!") + (Code("DOCTYPE") + (PrintParts(name) +
        (['[' as int] + (PrintParts(before) + (Code("<!--") + x + (y + Code("-->"))) + PrintParts(after))
          + [']' as int]))) + Code(">")
  {
    var subset := before + [Note(x + y)] + after;
    PrintPartsConcat(name, [Subset(subset)]);
    PrintOne(Subset(subset));
    SubsetPrints(before, Note(x + y), after);
    hide PrintParts, Code;
    SplitBody(Code("<!--"), x, y, Code("-->"));
    assert PrintPart(Note(x + y)) == Code("<!--") + x + (y + Code("-->"));
    hide PrintPart;
    assert PrintParts(name + [Subset(subset)]) == PrintParts(name) +
      (['[' as int] + (PrintParts(before) + (Code("<!--") + x + (y + Code("-->"))) + PrintParts(after)) + [']' as int]);
  }

  lemma SplitBody(opener: seq<int>, x: seq<int>, y: seq<int>, closer: seq<int>)
    ensures opener + (x + y) + closer == opener + x + (y + closer)
  {}

  lemma Regroup(
    lead: seq<int>, lt: seq<int>, word: seq<int>, name: seq<int>, before: seq<int>, opener: seq<int>,
    x: seq<int>, y: seq<int>, closer: seq<int>, after: seq<int>, gt: seq<int>, root: seq<int>)
    ensures lead + (lt + (word + (name
      + (['[' as int] + (before + (opener + x + (y + closer)) + after) + [']' as int]))) + gt) + root + [] ==
      lead + (lt + word + ((name + (['[' as int] + (before + (opener + x))))
        + (y + closer + after + [']' as int] + gt + root)))
  {
    assert opener + x + (y + closer) == (opener + x) + y + closer;
    var subset := ['[' as int] + (before + (opener + x)) + (y + closer + after);
    assert ['[' as int] + (before + (opener + x + (y + closer)) + after) + [']' as int] == subset + [']' as int];
  }

  /** `<!DOCTYPE a [<!-- don't -->]><a/>`, a well-formed document the loader rejects. */
  const DONT := Commented([], Plains(Code(" a ")), [], DONT_BODY, [], EMPTY_A)

  const DONT_BODY := Code(" don") + ['\'' as int] + Code("t ")

  const EMPTY_A := Element("a", [], [], [], true, [], [])

  function Plains(text: seq<int>): seq<DeclPart> {
    if text == [] then [] else [Plain(text[0])] + Plains(text[1..])
  }

  lemma {:induction false} PlainsPrint(text: seq<int>)
    requires forall k :: 0 <= k < |text| ==> IsMute(text[k])
    ensures PrintParts(Plains(text)) == text && Calm(Plains(text), 0)
  {
    if text != [] {
      assert IsMute(text[0]);
      PlainsPrint(text[1..]);
    }
  }

  lemma DontThrows(enc: Encoding)
    ensures IsMisc(DONT.prolog) && GoodElement(DONT.root) && LegalParts(DONT.prolog[0].parts, false)
    ensures LegalComment(DONT_BODY)
    ensures AllUnits(enc, PrintDocument(DONT))
    ensures Run(Encode(enc, PrintDocument(DONT)), enc, INITIAL, DocumentEvents(DONT)) == Err(UnterminatedQuote)
  {
    DontPieces();
    DontIsLegal();
    DontPrints(enc);
    hide Run, Encode, PrintElement, PrintParts, Closes, Calm, PrintDocument, AllUnits, Code;
    SubsetApostropheThrows(enc, [], Plains(Code(" a ")), [], Code(" don"), Code("t "), [], EMPTY_A);
  }

  lemma DontIsLegal()
    ensures LegalComment(DONT_BODY) && LegalParts(DONT.prolog[0].parts, false)
  {
    PlainsPrint(Code(" a "));
    LegalCommentAvoids(DONT_BODY);
    hide Avoids;
    var note := Note(DONT_BODY);
    assert [] + [note] + [] == [note] && [note][1..] == [];
    assert LegalPart(note, true);
    assert LegalParts([], true);
    LegalAppend(Plains(Code(" a ")), Subset([note]));
  }

  lemma {:induction false} LegalAppend(parts: seq<DeclPart>, last: DeclPart)
    requires LegalParts(parts, false) && LegalPart(last, false)
    ensures LegalParts(parts + [last], false)
  {
    hide LegalPart;
    if parts == [] {
      assert parts + [last] == [last] && [last][1..] == [];
    } else {
      assert (parts + [last])[1..] == parts[1..] + [last];
      LegalAppend(parts[1..], last);
    }
  }

  lemma DontPrints(enc: Encoding)
    ensures AllUnits(enc, PrintDocument(DONT))
  {
    DontPieces();
    var before, after := Code("<!") + Code("DOCTYPE"),
      Code("t ") + Code("-->") + [] + [']' as int] + Code(">") + Code("<a/>");
    var inside := Code(" a ") + (['[' as int] + ([] + (Code("<!--") + (Code(" don") + ['\'' as int]))));
    DontAscii(enc);
    hide PrintParts, PrintDocument, Plains, PrintElement, AllUnits, PrintContent, Code;
    CommentedPrints([], Plains(Code(" a ")), [], Code(" don"), Code("t "), [], EMPTY_A);
    UnitsConcat(enc, inside, after);
    UnitsConcat(enc, before, inside + after);
    assert [] + (before + (inside + after)) == before + (inside + after);
  }

  lemma UnitsConcat(enc: Encoding, a: seq<int>, b: seq<int>)
    requires AllUnits(enc, a) && AllUnits(enc, b)
    ensures AllUnits(enc, a + b)
  {}

  lemma DontAscii(enc: Encoding)
    ensures AllUnits(enc, Code("<!") + Code("DOCTYPE"))
    ensures AllUnits(enc, Code("t ") + Code("-->") + [] + [']' as int] + Code(">") + Code("<a/>"))
    ensures AllUnits(enc, Code(" a ") + (['[' as int] + ([] + (Code("<!--") + (Code(" don") + ['\'' as int])))))
  {
    AsciiUnits(enc, "<!");
    AsciiUnits(enc, "DOCTYPE");
    AsciiUnits(enc, "t ");
    AsciiUnits(enc, "-->");
    AsciiUnits(enc, ">");
    AsciiUnits(enc, "<a/>");
    AsciiUnits(enc, " a ");
    AsciiUnits(enc, "<!--");
    AsciiUnits(enc, " don");
    hide Code;
  }

  lemma AsciiUnits(enc: Encoding, s: string)
    ensures IsAsciiText(s) ==> AllUnits(enc, Code(s))
  {}

  lemma DontPieces()
    ensures PrintParts(Plains(Code(" a "))) == Code(" a ") && Calm(Plains(Code(" a ")), 0) && Calm([], 1)
    ensures PrintParts([]) == [] && PrintContent([]) == []
    ensures Closes(Code(" don"), Lexing(None, 1))
    ensures PrintElement(EMPTY_A) == Code("<a/>") && GoodElement(EMPTY_A)
    ensures '\'' as int !in Code("t ") && '\'' as int !in Code("<a/>")
  {
    PlainsPrint(Code(" a "));
    MuteCloses(Code(" don"), Lexing(None, 1));
  }
}
