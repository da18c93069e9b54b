/** How the scanner moves over each printed piece of markup. */
module MarkupScan {
  import opened Wrappers
  import opened RawBytes
  import opened Scanner
  import opened Markup

  ghost predicate Occurs(u: seq<int>, i: nat, piece: seq<int>) {
    i + |piece| <= |u| && u[i..i + |piece|] == piece
  }

  lemma OccursParts(u: seq<int>, i: nat, a: seq<int>, b: seq<int>)
    requires Occurs(u, i, a + b)
    ensures Occurs(u, i, a) && Occurs(u, i + |a|, b)
  {
    var all := u[i..i + |a + b|];
    assert all[..|a|] == a && all[|a|..] == b;
    assert u[i..i + |a|] == all[..|a|];
    assert u[i + |a|..i + |a| + |b|] == all[|a|..];
  }

  lemma OccursAt(u: seq<int>, i: nat, piece: seq<int>, k: nat)
    requires Occurs(u, i, piece) && k < |piece|
    ensures i + k < |u| && u[i + k] == piece[k]
  {
    assert u[i..i + |piece|][k] == piece[k];
  }

  lemma OccursTail(u: seq<int>, i: nat, piece: seq<int>)
    requires Occurs(u, i, piece) && piece != []
    ensures Occurs(u, i + 1, piece[1..])
    ensures i < |u| && u[i] == piece[0]
  {
    OccursAt(u, i, piece, 0);
    assert [piece[0]] + piece[1..] == piece;
    OccursParts(u, i, [piece[0]], piece[1..]);
  }

  /** Matching a literal inside an occurrence is matching it inside the piece. */
  lemma MatchWithin(u: seq<int>, i: nat, piece: seq<int>, k: nat, lit: string)
    requires Occurs(u, i, piece) && k + |lit| <= |piece|
    ensures MatchLit(u, i + k, lit) == MatchLit(piece, k, lit)
  {
    forall j | 0 <= j < |lit|
      ensures At(u, i + k + j) == lit[j] as int <==> At(piece, k + j) == lit[j] as int
    {
      OccursAt(u, i, piece, k + j);
    }
  }

  lemma OccursThree(u: seq<int>, i: nat, a: seq<int>, b: seq<int>, c: seq<int>)
    requires Occurs(u, i, a + b + c)
    ensures Occurs(u, i, a) && Occurs(u, i + |a|, b) && Occurs(u, i + |a| + |b|, c)
    ensures Occurs(u, i + |a|, b + c)
  {
    hide Occurs;
    assert a + b + c == a + (b + c);
    OccursParts(u, i, a, b + c);
    OccursParts(u, i + |a|, b, c);
  }

  lemma MatchTwo(u: seq<int>, i: nat, lit: string)
    requires |lit| == 2
    ensures MatchLit(u, i, lit) <==> At(u, i) == lit[0] as int && At(u, i + 1) == lit[1] as int
  {
    if MatchLit(u, i, lit) {
      assert At(u, i + 0) == lit[0] as int && At(u, i + 1) == lit[1] as int;
    }
  }

  lemma MatchThree(u: seq<int>, i: nat, lit: string)
    requires |lit| == 3
    ensures MatchLit(u, i, lit) <==>
      At(u, i) == lit[0] as int && At(u, i + 1) == lit[1] as int && At(u, i + 2) == lit[2] as int
  {
    if MatchLit(u, i, lit) {
      assert At(u, i + 0) == lit[0] as int && At(u, i + 1) == lit[1] as int && At(u, i + 2) == lit[2] as int;
    }
  }

  lemma OccursMatches(u: seq<int>, i: nat, lit: string)
    requires Occurs(u, i, Code(lit))
    ensures MatchLit(u, i, lit)
  {
    MatchWithin(u, i, Code(lit), 0, lit);
    assert MatchLit(Code(lit), 0, lit);
  }

  // ----- inside a start tag -----

  lemma {:induction false} QuotedRun(u: seq<int>, i: nat, value: seq<int>, quote: int)
    requires Occurs(u, i, value + [quote]) && quote !in value
    ensures SkipQuoted(u, i, quote) == Ok(i + |value| + 1)
    decreases |value|
  {
    OccursTail(u, i, value + [quote]);
    if value != [] {
      assert (value + [quote])[1..] == value[1..] + [quote];
      QuotedRun(u, i + 1, value[1..], quote);
    }
  }

  lemma {:induction false} PlainRun(u: seq<int>, i: nat, run: seq<int>)
    requires Occurs(u, i, run) && forall k :: 0 <= k < |run| ==> IsPlainInTag(run[k])
    ensures TagEnd(u, i) == TagEnd(u, i + |run|)
    decreases |run|
  {
    if run != [] {
      OccursTail(u, i, run);
      assert IsPlainInTag(run[0]);
      PlainRun(u, i + 1, run[1..]);
    }
  }

  lemma LeadIsPlain(a: Attribute)
    requires GoodAttribute(a)
    ensures forall k :: 0 <= k < |AttributeLead(a)| ==> IsPlainInTag(AttributeLead(a)[k])
  {
    forall c | c in AttributeLead(a) ensures IsPlainInTag(c) {
      if c in a.space {
        PlainSpaces(a.space);
      } else if c in a.preEq {
        PlainSpaces(a.preEq);
      } else if c in a.postEq {
        PlainSpaces(a.postEq);
      }
    }
  }

  lemma PlainSpaces(run: seq<int>)
    requires AllSpace(run)
    ensures forall k :: 0 <= k < |run| ==> IsPlainInTag(run[k])
    ensures forall c <- run :: IsPlainInTag(c)
  {
    assert forall k :: 0 <= k < |run| ==> IsSpace(run[k]);
  }

  lemma AttributeRun(u: seq<int>, i: nat, a: Attribute)
    requires Occurs(u, i, PrintAttribute(a)) && GoodAttribute(a)
    ensures TagEnd(u, i) == TagEnd(u, i + |PrintAttribute(a)|)
  {
    LeadIsPlain(a);
    assert PrintAttribute(a) == AttributeLead(a) + [a.quote] + (a.value + [a.quote]);
    hide Occurs, AttributeLead, IsPlainInTag, PrintAttribute, TagEnd, SkipQuoted;
    var lead := AttributeLead(a);
    OccursThree(u, i, lead, [a.quote], a.value + [a.quote]);
    OccursAt(u, i + |lead|, [a.quote], 0);
    PlainRun(u, i, lead);
    QuotedRun(u, i + |lead| + 1, a.value, a.quote);
    QuoteStep(u, i + |lead|);
  }

  lemma QuoteStep(u: seq<int>, i: nat)
    requires i < |u| && IsQuote(u[i]) && SkipQuoted(u, i + 1, u[i]).Ok?
    ensures TagEnd(u, i) == TagEnd(u, SkipQuoted(u, i + 1, u[i]).value)
  {}

  lemma {:induction false} AttributesRun(u: seq<int>, i: nat, attributes: seq<Attribute>)
    requires Occurs(u, i, PrintAttributes(attributes)) && forall a <- attributes :: GoodAttribute(a)
    ensures TagEnd(u, i) == TagEnd(u, i + |PrintAttributes(attributes)|)
    decreases |attributes|
  {
    hide PrintAttribute, GoodAttribute, TagEnd, Occurs, IsPlainInTag, PrintAttributes;
    AttributesStep(attributes);
    if attributes != [] {
      var head, tail := PrintAttribute(attributes[0]), PrintAttributes(attributes[1..]);
      OccursParts(u, i, head, tail);
      AttributeRun(u, i, attributes[0]);
      AttributesRun(u, i + |head|, attributes[1..]);
    }
  }

  lemma AttributesStep(attributes: seq<Attribute>)
    ensures attributes == [] ==> PrintAttributes(attributes) == []
    ensures attributes != [] ==>
      PrintAttributes(attributes) == PrintAttribute(attributes[0]) + PrintAttributes(attributes[1..])
  {
    hide PrintAttribute;
  }

  /** The unit after a tag name ends the name. */
  lemma AfterName(u: seq<int>, i: nat, e: Element)
    requires GoodTag(e)
    requires Occurs(u, i, PrintAttributes(e.attributes) + e.tagSpace + TagClose(e.selfClosed))
    ensures EndsName(At(u, i))
  {
    var rest := PrintAttributes(e.attributes) + e.tagSpace + TagClose(e.selfClosed);
    OccursAt(u, i, rest, 0);
    if e.attributes != [] {
      var a := e.attributes[0];
      assert GoodAttribute(a);
      assert PrintAttributes(e.attributes)[0] == a.space[0];
      assert IsSpace(a.space[0]);
    } else if e.tagSpace != [] {
      assert rest[0] == e.tagSpace[0];
      assert IsSpace(e.tagSpace[0]);
    } else {
      assert rest[0] == TagClose(e.selfClosed)[0];
    }
  }

  lemma TagCloseFound(u: seq<int>, i: nat, selfClosed: bool)
    requires Occurs(u, i, TagClose(selfClosed))
    ensures TagEnd(u, i) == Ok((i + |TagClose(selfClosed)|, selfClosed))
  {
    OccursAt(u, i, TagClose(selfClosed), 0);
    if selfClosed {
      OccursAt(u, i, TagClose(selfClosed), 1);
    }
  }

  lemma TagEndFound(u: seq<int>, i: nat, e: Element)
    requires GoodTag(e)
    requires Occurs(u, i, PrintAttributes(e.attributes) + e.tagSpace + TagClose(e.selfClosed))
    ensures TagEnd(u, i) ==
      Ok((i + |PrintAttributes(e.attributes) + e.tagSpace + TagClose(e.selfClosed)|, e.selfClosed))
  {
    hide TagEnd, PrintAttributes, TagClose, Occurs, IsPlainInTag;
    var attrs, close := PrintAttributes(e.attributes), TagClose(e.selfClosed);
    OccursThree(u, i, attrs, e.tagSpace, close);
    AttributesRun(u, i, e.attributes);
    PlainSpaces(e.tagSpace);
    PlainRun(u, i + |attrs|, e.tagSpace);
    TagCloseFound(u, i + |attrs| + |e.tagSpace|, e.selfClosed);
  }

  // ----- element tags -----

  lemma NameOccurs(u: seq<int>, i: nat, name: string)
    requires Occurs(u, i, Code(name)) && GoodName(name)
    ensures MatchLit(u, i, name)
    ensures IsNameUnit(At(u, i))
  {
    OccursMatches(u, i, name);
    assert At(u, i + 0) == name[0] as int;
  }

  /** A start tag is found from any cursor that sees it as the next markup. */
  lemma StartTagFound(u: seq<int>, cursor: nat, p: nat, e: Element)
    requires GoodTag(e) && Occurs(u, p, PrintOpen(e))
    requires NextMarkup(u, cursor) == NextMarkup(u, p)
    ensures StartTagAt(u, cursor, e.name) == Ok(TagBounds(p, p + |PrintOpen(e)|, e.selfClosed))
  {
    hide PrintAttributes, TagClose, TagEnd, MatchLit, Occurs, NextMarkup, GoodAttribute;
    var attrs, close := PrintAttributes(e.attributes), TagClose(e.selfClosed);
    var rest := attrs + e.tagSpace + close;
    assert PrintOpen(e) == Code("<") + Code(e.name) + rest;
    OccursThree(u, p, Code("<"), Code(e.name), rest);
    OccursAt(u, p, Code("<"), 0);
    NameOccurs(u, p + 1, e.name);
    PlainTagIsMarkup(u, p);
    AfterName(u, p + 1 + |e.name|, e);
    TagEndFound(u, p + 1 + |e.name|, e);
    StartTagFromMarkup(u, cursor, p, e.name);
  }

  lemma PlainTagIsMarkup(u: seq<int>, p: nat)
    requires At(u, p) == '<' as int && At(u, p + 1) != '!' as int && At(u, p + 1) != '?' as int
    ensures NextMarkup(u, p) == Ok(p)
  {}

  /** Once the next markup is known to carry the name, the tag is where its end is found. */
  lemma StartTagFromMarkup(u: seq<int>, cursor: nat, p: nat, name: string)
    requires NextMarkup(u, cursor) == Ok(p) && GoodName(name) && MatchLit(u, p + 1, name)
    requires IsNameUnit(At(u, p + 1))
    requires EndsName(At(u, p + 1 + |name|)) && TagEnd(u, p + 1 + |name|).Ok?
    ensures StartTagAt(u, cursor, name) ==
      Ok(TagBounds(p, TagEnd(u, p + 1 + |name|).value.0, TagEnd(u, p + 1 + |name|).value.1))
  {
    hide NextMarkup, MatchLit, TagEnd;
  }

  lemma {:induction false} SpacesRun(u: seq<int>, i: nat, run: seq<int>, next: int)
    requires Occurs(u, i, run + [next]) && AllSpace(run) && !IsSpace(next)
    ensures SkipSpaces(u, i) == i + |run| && At(u, i + |run|) == next
    decreases |run|
  {
    OccursTail(u, i, run + [next]);
    if run != [] {
      assert (run + [next])[1..] == run[1..] + [next];
      assert IsSpace(run[0]);
      SpacesRun(u, i + 1, run[1..], next);
    }
  }

  lemma EndTagFound(u: seq<int>, cursor: nat, p: nat, e: Element)
    requires GoodTag(e) && Occurs(u, p, PrintClose(e))
    requires NextMarkup(u, cursor) == NextMarkup(u, p)
    ensures EndTagAt(u, cursor, e.name) == Ok(p + |PrintClose(e)|)
  {
    hide MatchLit, SkipSpaces, Occurs, NextMarkup;
    var tail := e.endSpace + ['>' as int];
    LiteralUnits();
    assert PrintClose(e) == Code("</") + Code(e.name) + tail;
    OccursThree(u, p, Code("</"), Code(e.name), tail);
    OccursAt(u, p, Code("</"), 0);
    OccursAt(u, p, Code("</"), 1);
    NameOccurs(u, p + 2, e.name);
    PlainTagIsMarkup(u, p);
    SpacesRun(u, p + 2 + |e.name|, e.endSpace, '>' as int);
  }

  // ----- content that is not an element -----

  lemma {:induction false} TextRun(u: seq<int>, i: nat, run: seq<int>)
    requires Occurs(u, i, run) && '<' as int !in run
    ensures NextMarkup(u, i) == NextMarkup(u, i + |run|)
    decreases |run|
  {
    if run != [] {
      OccursTail(u, i, run);
      assert run[0] in run;
      TextRun(u, i + 1, run[1..]);
    }
  }

  lemma {:induction false} DelimitedEnd(u: seq<int>, i: nat, j: nat, terminator: string)
    requires i <= j && terminator != "" && MatchLit(u, j, terminator)
    requires forall k :: i <= k < j ==> !MatchLit(u, k, terminator)
    ensures SkipDelimited(u, i, terminator) == Ok(j + |terminator|)
    decreases j - i
  {
    hide MatchLit;
    MatchLitFits(u, j, terminator);
    if i < j {
      DelimitedEnd(u, i + 1, j, terminator);
    }
  }

  /**
    A delimited unit ends where its printer ends it when neither the opener,
    run together with the body, nor the body itself holds the terminator.
   */
  lemma DelimitedUnit(u: seq<int>, i: nat, opener: string, body: seq<int>, terminator: string)
    requires Occurs(u, i, Code(opener) + body + Code(terminator)) && terminator != ""
    requires Avoids(body, terminator)
    requires forall k :: 0 <= k < |opener| ==> !MatchLit(Code(opener) + body + Code(terminator), k, terminator)
    ensures SkipDelimited(u, i, terminator) == Ok(i + |opener| + |body| + |terminator|)
  {
    hide MatchLit, Occurs;
    var n := |opener|;
    var piece := Code(opener) + body + Code(terminator);
    var tail := body + Code(terminator);
    OccursThree(u, i, Code(opener), body, Code(terminator));
    OccursMatches(u, i + n + |body|, terminator);
    forall k: nat | i <= k < i + n + |body| ensures !MatchLit(u, k, terminator) {
      if k < i + n {
        MatchWithin(u, i, piece, k - i, terminator);
      } else {
        assert !MatchLit(tail, k - i - n, terminator);
        MatchWithin(u, i + n, tail, k - i - n, terminator);
      }
    }
    DelimitedEnd(u, i, i + n + |body|, terminator);
  }

  lemma LiteralUnits()
    ensures Code("<!--") == ['<' as int, '!' as int, '-' as int, '-' as int]
    ensures Code("-->") == ['-' as int, '-' as int, '>' as int]
    ensures Code("<?") == ['<' as int, '?' as int]
    ensures Code("?>") == ['?' as int, '>' as int]
    ensures Code("<!") == ['<' as int, '!' as int]
    ensures Code(">") == ['>' as int]
    ensures Code("]]>") == [']' as int, ']' as int, '>' as int]
  {}

  /** The terminator of a comment inside its own opener: only '>' or '->' at the start of the body puts one there. */
  lemma CommentOpener(body: seq<int>)
    ensures (forall k :: 0 <= k < 4 ==> !MatchLit(Code("<!--") + body + Code("-->"), k, "-->"))
      <==> !ClosesOpener(body)
  {
    var piece := Code("<!--") + body + Code("-->");
    LiteralUnits();
    hide MatchLit, Code;
    var lit := "-->";
    assert lit[0] == '-' && lit[1] == '-' && lit[2] == '>';
    assert piece[0] == '<' as int && piece[1] == '!' as int && piece[2] == '-' as int && piece[3] == '-' as int;
    assert piece[4] == if |body| > 0 then body[0] else '-' as int;
    assert piece[5] == if |body| > 1 then body[1] else '-' as int;
    MatchThree(piece, 0, lit);
    MatchThree(piece, 1, lit);
    MatchThree(piece, 2, lit);
    MatchThree(piece, 3, lit);
  }

  lemma OpensComment(u: seq<int>, i: nat, rest: seq<int>)
    requires Occurs(u, i, Code("<!--") + rest)
    ensures SkipSpecialUnit(u, i) == Skipped(SkipDelimited(u, i, "-->"))
    ensures i < |u| && u[i] == '<' as int
  {
    hide SkipDelimited, SkipDeclaration, MatchLit;
    OccursParts(u, i, Code("<!--"), rest);
    OccursMatches(u, i, "<!--");
    OccursAt(u, i, Code("<!--"), 0);
    OccursAt(u, i, Code("<!--"), 1);
  }

  /** A comment that closes its opener ends early, but inside its own printing. */
  lemma CommentEndsEarly(u: seq<int>, i: nat, body: seq<int>) returns (j: nat)
    requires Occurs(u, i, PrintItem(Comment(body))) && ClosesOpener(body)
    ensures SkipSpecialUnit(u, i) == Ok(Some(j)) && i < j < i + |PrintItem(Comment(body))|
  {
    var piece := Code("<!--") + body + Code("-->");
    assert piece == Code("<!--") + (body + Code("-->"));
    OpensComment(u, i, body + Code("-->"));
    CommentOpener(body);
    hide MatchLit, SkipSpecialUnit, Occurs;
    var k :| 0 <= k < 4 && MatchLit(piece, k, "-->");
    MatchWithin(u, i, piece, k, "-->");
    SkipsNoFurther(u, i, i + k, "-->");
    j := SkipDelimited(u, i, "-->").value;
  }

  /**
    A comment without its terminator inside is skipped to its printed end
    exactly when its body does not close the opener.
   */
  lemma CommentSkipped(u: seq<int>, i: nat, body: seq<int>)
    requires Occurs(u, i, PrintItem(Comment(body))) && Avoids(body, "-->")
    ensures SkipSpecialUnit(u, i) == Ok(Some(i + |PrintItem(Comment(body))|)) <==> !ClosesOpener(body)
  {
    hide MatchLit, SkipSpecialUnit, SkipDelimited, Occurs, Avoids, ClosesOpener;
    if ClosesOpener(body) {
      var j := CommentEndsEarly(u, i, body);
    } else {
      CommentRunsOut(u, i, body);
    }
  }

  lemma CommentRunsOut(u: seq<int>, i: nat, body: seq<int>)
    requires Occurs(u, i, PrintItem(Comment(body))) && Avoids(body, "-->") && !ClosesOpener(body)
    ensures SkipSpecialUnit(u, i) == Ok(Some(i + |PrintItem(Comment(body))|))
  {
    var piece := Code("<!--") + body + Code("-->");
    assert piece == Code("<!--") + (body + Code("-->"));
    OpensComment(u, i, body + Code("-->"));
    CommentOpener(body);
    hide MatchLit, SkipSpecialUnit, Occurs;
    DelimitedUnit(u, i, "<!--", body, "-->");
  }

  lemma CommentUnits(body: seq<int>)
    requires '<' as int !in body
    ensures var piece := PrintItem(Comment(body));
      piece != [] && '<' as int !in piece[1..]
  {
    LiteralUnits();
    assert PrintItem(Comment(body))[1..] ==
      ['!' as int, '-' as int, '-' as int] + body + ['-' as int, '-' as int, '>' as int];
  }

  /** A comment that does close its opener is still passed over when nothing in it looks like markup. */
  lemma CommentRun(u: seq<int>, i: nat, body: seq<int>)
    requires Occurs(u, i, PrintItem(Comment(body))) && GoodItem(Comment(body))
    ensures NextMarkup(u, i) == NextMarkup(u, i + |PrintItem(Comment(body))|)
  {
    hide NextMarkup, SkipSpecialUnit, Occurs, MatchLit, Avoids;
    var piece := PrintItem(Comment(body));
    assert piece == Code("<!--") + (body + Code("-->"));
    OpensComment(u, i, body + Code("-->"));
    CommentSkipped(u, i, body);
    NextMarkupStep(u, i);
    if ClosesOpener(body) {
      var j := CommentEndsEarly(u, i, body);
      CommentUnits(body);
      hide PrintItem;
      var rest := piece[j - i..];
      assert piece[..j - i] + rest == piece;
      OccursParts(u, i, piece[..j - i], rest);
      assert '<' as int !in rest by {
        assert rest == piece[1..][j - i - 1..];
      }
      TextRun(u, j, rest);
    }
  }

  lemma {:induction false} SkipsNoFurther(u: seq<int>, i: nat, j: nat, terminator: string)
    requires i <= j && terminator != "" && MatchLit(u, j, terminator)
    ensures SkipDelimited(u, i, terminator).Ok? && SkipDelimited(u, i, terminator).value <= j + |terminator|
    decreases j - i
  {
    hide MatchLit;
    MatchLitFits(u, j, terminator);
    if i < j && !MatchLit(u, i, terminator) {
      SkipsNoFurther(u, i + 1, j, terminator);
    }
  }

  lemma InstructionSkipped(u: seq<int>, i: nat, body: seq<int>)
    requires Occurs(u, i, PrintItem(Instruction(body))) && GoodItem(Instruction(body))
    ensures i < |u| && u[i] == '<' as int
    ensures SkipSpecialUnit(u, i) == Ok(Some(i + |PrintItem(Instruction(body))|))
  {
    var piece := Code("<?") + body + Code("?>");
    OccursAt(u, i, piece, 0);
    OccursAt(u, i, piece, 1);
    LiteralUnits();
    assert piece[2] == if |body| > 0 then body[0] else '?' as int;
    forall k: nat | k < 2 ensures !MatchLit(piece, k, "?>") {
      MatchTwo(piece, k, "?>");
    }
    hide MatchLit, SkipDelimited;
    DelimitedUnit(u, i, "<?", body, "?>");
  }

  lemma CDataSkipped(u: seq<int>, i: nat, body: seq<int>, chunks: seq<string>)
    requires Occurs(u, i, PrintItem(CData(body, chunks))) && GoodItem(CData(body, chunks))
    ensures i < |u| && u[i] == '<' as int
    ensures SkipSpecialUnit(u, i) == Ok(Some(i + |PrintItem(CData(body, chunks))|))
  {
    var opener := "<![CDATA[";
    var piece := Code(opener) + body + Code("]]>");
    assert piece == Code(opener) + (body + Code("]]>"));
    OccursParts(u, i, Code(opener), body + Code("]]>"));
    OccursMatches(u, i, opener);
    OccursAt(u, i, Code(opener), 0);
    OccursAt(u, i, Code(opener), 1);
    OccursAt(u, i, Code(opener), 2);
    assert opener[0] == '<' && opener[1] == '!' && opener[2] == '[';
    assert !MatchLit(u, i, "<!--") by {
      assert "<!--"[2] == '-' && At(u, i + 2) == '[' as int;
    }
    forall k: nat | k < |opener| ensures !MatchLit(piece, k, "]]>") {
      assert "]]>"[0] == ']' && opener[k] != ']';
      assert At(piece, k + 0) == opener[k] as int;
    }
    hide MatchLit, SkipDelimited, SkipDeclaration;
    DelimitedUnit(u, i, opener, body, "]]>");
  }

  // ----- declarations -----

  /** The declaration scan, resumed anywhere in the text: quotes are run out first. */
  function ScanFrom(u: seq<int>, i: nat, at: Lexing): (r: Result<nat, ScanError>)
    ensures r.Ok? ==> i < r.value <= |u|
  {
    match at.quote
    case None => SkipDeclaration(u, i, at.depth)
    case Some(q) =>
      match SkipQuoted(u, i, q)
      case Err(e) => Err(e)
      case Ok(j) => SkipDeclaration(u, j, at.depth)
  }

  lemma ScanReads(u: seq<int>, i: nat, at: Lexing)
    requires i < |u| && !(at == OUTSIDE && u[i] == '>' as int)
    ensures ScanFrom(u, i, at) == ScanFrom(u, i + 1, Reads(at, u[i]))
  {}

  /** The scan reads text as the lexing does, until a '>' ends it. */
  lemma {:induction false} ScanText(u: seq<int>, i: nat, text: seq<int>, at: Lexing)
    requires Occurs(u, i, text) && !EndsWithin(text, at)
    ensures ScanFrom(u, i, at) == ScanFrom(u, i + |text|, Lex(text, at))
    decreases |text|
  {
    if text != [] {
      OccursTail(u, i, text);
      hide Occurs, ScanFrom, Reads;
      ScanReads(u, i, at);
      ScanText(u, i + 1, text[1..], Reads(at, text[0]));
    }
  }

  lemma {:induction false} ScanStops(u: seq<int>, i: nat, text: seq<int>, at: Lexing)
    requires Occurs(u, i, text) && EndsWithin(text, at)
    ensures ScanFrom(u, i, at).Ok? && ScanFrom(u, i, at).value <= i + |text|
    decreases |text|
  {
    OccursTail(u, i, text);
    if !(at == OUTSIDE && text[0] == '>' as int) {
      hide Occurs, ScanFrom, Reads;
      ScanReads(u, i, at);
      ScanStops(u, i + 1, text[1..], Reads(at, text[0]));
    }
  }

  /** A '>' ends the scan exactly outside all quotes and brackets. */
  lemma ScanEnd(u: seq<int>, i: nat, at: Lexing)
    requires i < |u| && u[i] == '>' as int
    ensures ScanFrom(u, i, at) == Ok(i + 1) <==> at == OUTSIDE
  {
    if at != OUTSIDE {
      ScanReads(u, i, at);
    }
  }

  /** Declaration text and its '>' are scanned to that '>' exactly when the text closes. */
  lemma TextSkipped(u: seq<int>, i: nat, text: seq<int>)
    requires Occurs(u, i, text + Code(">"))
    ensures ScanFrom(u, i, OUTSIDE) == Ok(i + |text| + 1) <==> Closes(text, OUTSIDE)
  {
    LiteralUnits();
    OccursParts(u, i, text, Code(">"));
    OccursAt(u, i + |text|, Code(">"), 0);
    hide Occurs, ScanFrom, Lex, EndsWithin, Code;
    if EndsWithin(text, OUTSIDE) {
      ScanStops(u, i, text, OUTSIDE);
    } else {
      ScanText(u, i, text, OUTSIDE);
      ScanEnd(u, i + |text|, Lex(text, OUTSIDE));
    }
  }

  lemma DoctypeLead(u: seq<int>, i: nat, rest: seq<int>)
    requires Occurs(u, i, Code("<!") + Code("DOCTYPE") + rest)
    ensures i < |u| && u[i] == '<' as int
    ensures SkipSpecialUnit(u, i) == Skipped(ScanFrom(u, i + 2, OUTSIDE))
  {
    var lead := Code("<!") + Code("DOCTYPE");
    OccursParts(u, i, lead, rest);
    OccursAt(u, i, lead, 0);
    OccursAt(u, i, lead, 1);
    OccursAt(u, i, lead, 2);
    assert lead[0] == '<' as int && lead[1] == '!' as int && lead[2] == 'D' as int;
    assert !MatchLit(u, i, "<!--") by {
      assert "<!--"[2] == '-' && At(u, i + 2) == 'D' as int;
    }
    assert !MatchLit(u, i, "<![CDATA[") by {
      assert "<![CDATA["[2] == '[' && At(u, i + 2) == 'D' as int;
    }
    assert SkipDeclaration(u, i + 1, 0) == SkipDeclaration(u, i + 2, 0);
  }

  /**
    A DOCTYPE is skipped to its printed end exactly when its text, comments
    and PIs of the subset included, closes its quotes and brackets.
   */
  lemma DoctypeSkipped(u: seq<int>, i: nat, parts: seq<DeclPart>)
    requires Occurs(u, i, PrintItem(Doctype(parts)))
    ensures i < |u| && u[i] == '<' as int
    ensures SkipSpecialUnit(u, i) == Ok(Some(i + |PrintItem(Doctype(parts))|)) <==> Closes(DoctypeText(parts), OUTSIDE)
  {
    var text := DoctypeText(parts);
    LiteralUnits();
    assert PrintItem(Doctype(parts)) == Code("<!") + Code("DOCTYPE") + (PrintParts(parts) + Code(">"));
    DoctypeLead(u, i, PrintParts(parts) + Code(">"));
    assert PrintItem(Doctype(parts)) == Code("<!") + (text + Code(">"));
    OccursParts(u, i, Code("<!"), text + Code(">"));
    hide SkipSpecialUnit, ScanFrom, Occurs, Closes, DoctypeText;
    TextSkipped(u, i + 2, text);
  }

  // ----- which DOCTYPEs close -----

  lemma {:induction false} LexConcat(a: seq<int>, b: seq<int>, at: Lexing)
    ensures Lex(a + b, at) == Lex(b, Lex(a, at))
    ensures EndsWithin(a + b, at) <==> EndsWithin(a, at) || EndsWithin(b, Lex(a, at))
    decreases |a|
  {
    hide Reads;
    if a == [] {
      assert a + b == b;
    } else {
      assert (a + b)[1..] == a[1..] + b;
      LexConcat(a[1..], b, Reads(at, a[0]));
    }
  }

  lemma ClosesConcat(a: seq<int>, b: seq<int>, at: Lexing)
    requires Closes(a, at)
    ensures Closes(a + b, at) <==> Closes(b, at)
  {
    LexConcat(a, b, at);
  }

  lemma LexOne(c: int, at: Lexing)
    ensures Lex([c], at) == Reads(at, c)
    ensures EndsWithin([c], at) <==> at == OUTSIDE && c == '>' as int
  {
    assert [c][1..] == [];
    assert Lex([], Reads(at, c)) == Reads(at, c);
  }

  lemma {:induction false} LiteralCloses(literal: seq<int>, quote: int, depth: int)
    requires quote !in literal
    ensures Lex(literal + [quote], Lexing(Some(quote), depth)) == Lexing(None, depth)
    ensures !EndsWithin(literal + [quote], Lexing(Some(quote), depth))
    decreases |literal|
  {
    var at := Lexing(Some(quote), depth);
    if literal == [] {
      assert literal + [quote] == [quote];
      LexOne(quote, at);
    } else {
      var text := literal + [quote];
      assert text[1..] == literal[1..] + [quote];
      assert text[0] == literal[0] && literal[0] in literal;
      assert Reads(at, text[0]) == at;
      LiteralCloses(literal[1..], quote, depth);
    }
  }

  /** Comments and PIs, wherever nested, close at the depth they stand at. */
  predicate NotesClose(parts: seq<DeclPart>, depth: int)
    decreases parts, 0
  {
    parts != [] ==> NoteCloses(parts[0], depth) && NotesClose(parts[1..], depth)
  }

  predicate NoteCloses(part: DeclPart, depth: int)
    decreases part, 1
  {
    match part
    case Subset(parts) => NotesClose(parts, depth + 1)
    case Note(_) => Closes(PrintPart(part), Lexing(None, depth))
    case Process(_) => Closes(PrintPart(part), Lexing(None, depth))
    case _ => true
  }

  lemma {:induction false} PartCloses(part: DeclPart, depth: nat)
    requires LegalPart(part, depth > 0) && NoteCloses(part, depth)
    ensures Closes(PrintPart(part), Lexing(None, depth))
    decreases part, 1
  {
    var at := Lexing(None, depth);
    match part
    case Plain(c) =>
      LexOne(c, at);
    case Quoted(q, literal) =>
      assert PrintPart(part) == [q] + (literal + [q]);
      LexOne(q, at);
      LexConcat([q], literal + [q], at);
      LiteralCloses(literal, q, depth);
    case Subset(parts) =>
      PartsClose(parts, depth + 1);
      Bracketed(PrintParts(parts), depth);
    case _ =>
  }

  lemma Bracketed(text: seq<int>, depth: int)
    requires depth >= 0
    ensures Closes(['[' as int] + text + [']' as int], Lexing(None, depth)) <==> Closes(text, Lexing(None, depth + 1))
  {
    var at, inner := Lexing(None, depth), Lexing(None, depth + 1);
    var tail := text + [']' as int];
    assert ['[' as int] + text + [']' as int] == ['[' as int] + tail;
    LexOne('[' as int, at);
    LexConcat(['[' as int], tail, at);
    LexConcat(text, [']' as int], inner);
    LexOne(']' as int, Lex(text, inner));
    OpenQuoteIsQuote(text, inner);
  }

  lemma {:induction false} OpenQuoteIsQuote(text: seq<int>, at: Lexing)
    requires at.quote.Some? ==> IsQuote(at.quote.value)
    ensures Lex(text, at).quote.Some? ==> IsQuote(Lex(text, at).quote.value)
    decreases |text|
  {
    if text != [] {
      OpenQuoteIsQuote(text[1..], Reads(at, text[0]));
    }
  }

  /** A well-formed DOCTYPE whose comments and PIs each close is skipped whole. */
  lemma {:induction false} PartsClose(parts: seq<DeclPart>, depth: nat)
    requires LegalParts(parts, depth > 0) && NotesClose(parts, depth)
    ensures Closes(PrintParts(parts), Lexing(None, depth))
    decreases parts, 0
  {
    if parts != [] {
      PartCloses(parts[0], depth);
      PartsClose(parts[1..], depth);
      hide Closes;
      ClosesConcat(PrintPart(parts[0]), PrintParts(parts[1..]), Lexing(None, depth));
    }
  }

  lemma KeywordCloses(rest: seq<int>)
    ensures Closes(Code("DOCTYPE") + rest, OUTSIDE) <==> Closes(rest, OUTSIDE)
  {
    var word := Code("DOCTYPE");
    assert word == ['D' as int, 'O' as int, 'C' as int, 'T' as int, 'Y' as int, 'P' as int, 'E' as int];
    MuteCloses(word, OUTSIDE);
    ClosesConcat(word, rest, OUTSIDE);
  }

  /** Units that mean nothing to a declaration. */
  predicate IsMute(c: int) {
    !IsQuote(c) && c != '[' as int && c != ']' as int && c != '>' as int
  }

  lemma {:induction false} MuteCloses(text: seq<int>, at: Lexing)
    requires at.quote == None && forall k :: 0 <= k < |text| ==> IsMute(text[k])
    ensures Closes(text, at)
  {
    if text != [] {
      assert IsMute(text[0]);
      LexOne(text[0], at);
      MuteCloses(text[1..], at);
      assert text == [text[0]] + text[1..];
      ClosesConcat([text[0]], text[1..], at);
    }
  }

  /** A DOCTYPE: name and identifier, a subset around the note, and trailing space. */
  function DoctypeAround(lead: seq<DeclPart>, before: seq<DeclPart>, note: DeclPart, after: seq<DeclPart>,
                         trail: seq<DeclPart>): Item {
    Doctype(lead + [Subset(before + [note] + after)] + trail)
  }

  /** Well-formed text in which every comment and PI closes. */
  predicate Calm(parts: seq<DeclPart>, depth: int) {
    LegalParts(parts, depth > 0) && NotesClose(parts, depth)
  }

  lemma {:induction false} PrintPartsConcat(a: seq<DeclPart>, b: seq<DeclPart>)
    ensures PrintParts(a + b) == PrintParts(a) + PrintParts(b)
  {
    hide PrintPart;
    if a == [] {
      assert a + b == b;
    } else {
      assert (a + b)[1..] == a[1..] + b;
      PrintPartsConcat(a[1..], b);
    }
  }

  lemma PrintOne(part: DeclPart)
    ensures PrintParts([part]) == PrintPart(part)
  {
    assert [part][1..] == [];
    assert PrintParts([]) == [];
  }

  /** Around the note everything else closes, so the note decides. */
  lemma NoteDecides(lead: seq<DeclPart>, before: seq<DeclPart>, note: DeclPart, after: seq<DeclPart>,
                    trail: seq<DeclPart>)
    requires Calm(lead, 0) && Calm(before, 1) && Calm(trail, 0)
    requires Closes(PrintPart(note), Lexing(None, 1)) ==> Calm(after, 1)
    requires !Closes(PrintPart(note), Lexing(None, 1)) ==> after == [] && trail == []
    ensures Closes(DoctypeText(DoctypeAround(lead, before, note, after, trail).parts), OUTSIDE)
      <==> Closes(PrintPart(note), Lexing(None, 1))
  {
    var subset := before + [note] + after;
    var parts := lead + [Subset(subset)] + trail;
    var inner := Lexing(None, 1);
    hide PrintPart, PrintParts, Closes, Code;
    PrintPartsConcat(lead + [Subset(subset)], trail);
    PrintPartsConcat(lead, [Subset(subset)]);
    PrintOne(Subset(subset));
    SubsetPrints(before, note, after);
    var text := PrintParts(before) + PrintPart(note) + PrintParts(after);
    var bracketed := ['[' as int] + text + [']' as int];
    assert PrintParts(parts) == PrintParts(lead) + (bracketed + PrintParts(trail));
    KeywordCloses(PrintParts(parts));
    PartsClose(lead, 0);
    ClosesConcat(PrintParts(lead), bracketed + PrintParts(trail), OUTSIDE);
    PartsClose(before, 1);
    assert text == PrintParts(before) + (PrintPart(note) + PrintParts(after));
    ClosesConcat(PrintParts(before), PrintPart(note) + PrintParts(after), inner);
    Bracketed(text, 0);
    if Closes(PrintPart(note), inner) {
      PartsClose(after, 1);
      ClosesConcat(PrintPart(note), PrintParts(after), inner);
      PartsClose(trail, 0);
      ClosesConcat(bracketed, PrintParts(trail), OUTSIDE);
    } else {
      NothingPrints();
      assert PrintPart(note) + [] == PrintPart(note) && bracketed + [] == bracketed;
    }
  }

  lemma NothingPrints()
    ensures PrintParts([]) == []
  {}

  lemma SubsetPrints(before: seq<DeclPart>, note: DeclPart, after: seq<DeclPart>)
    ensures PrintPart(Subset(before + [note] + after)) ==
      ['[' as int] + (PrintParts(before) + PrintPart(note) + PrintParts(after)) + [']' as int]
  {
    hide PrintParts;
    PrintPartsConcat(before + [note], after);
    PrintPartsConcat(before, [note]);
    PrintOne(note);
  }

  /** The scan ends at the printed end of every DOCTYPE that is calm but for this comment or PI in its subset. */
  ghost predicate NeverMisleads(note: DeclPart) {
    forall lead, before, after, trail :: Calm(lead, 0) && Calm(before, 1) && Calm(after, 1) && Calm(trail, 0)
      ==> SkippedWhole(DoctypeAround(lead, before, note, after, trail))
  }

  predicate SkippedWhole(item: Item) {
    SkipSpecialUnit(PrintItem(item), 0) == Ok(Some(|PrintItem(item)|))
  }

  /**
    A comment or PI is harmless in every DOCTYPE exactly when its own units
    close their quotes and balance their brackets, read one bracket deep.
   */
  lemma HarmlessNote(note: DeclPart)
    ensures NeverMisleads(note) <==> Closes(PrintPart(note), Lexing(None, 1))
  {
    hide Closes, PrintItem, SkipSpecialUnit, PrintPart, DoctypeText;
    hide Calm;
    if Closes(PrintPart(note), Lexing(None, 1)) {
      forall lead, before, after, trail | Calm(lead, 0) && Calm(before, 1) && Calm(after, 1) && Calm(trail, 0)
        ensures SkippedWhole(DoctypeAround(lead, before, note, after, trail))
      {
        var item := DoctypeAround(lead, before, note, after, trail);
        NoteDecides(lead, before, note, after, trail);
        OccursWhole(PrintItem(item));
        DoctypeSkipped(PrintItem(item), 0, item.parts);
      }
    } else {
      var none: seq<DeclPart> := [];
      var item := DoctypeAround(none, none, note, none, none);
      NothingIsCalm();
      NoteDecides(none, none, note, none, none);
      OccursWhole(PrintItem(item));
      DoctypeSkipped(PrintItem(item), 0, item.parts);
      assert !SkippedWhole(item);
    }
  }

  lemma NothingIsCalm()
    ensures Calm([], 0) && Calm([], 1)
  {}

  lemma OccursWhole(u: seq<int>)
    ensures Occurs(u, 0, u)
  {}

  /** Every piece of content that is not an element is passed over. */
  lemma MiscRun(u: seq<int>, i: nat, item: Item)
    requires Occurs(u, i, PrintItem(item)) && GoodItem(item) && !item.Child?
    ensures NextMarkup(u, i) == NextMarkup(u, i + |PrintItem(item)|)
  {
    hide SkipSpecialUnit;
    match item
    case CharData(units, _) =>
      hide *;
      assert PrintItem(item) == units by { CharDataPrints(item); }
      assert '<' as int !in units by { CharDataPrints(item); }
      TextRun(u, i, units);
    case Comment(body) =>
      CommentRun(u, i, body);
    case Instruction(body) =>
      InstructionSkipped(u, i, body);
    case CData(body, chunks) =>
      CDataSkipped(u, i, body, chunks);
    case Doctype(parts) =>
      DoctypeSkipped(u, i, parts);
  }

  lemma CharDataPrints(item: Item)
    requires item.CharData? && GoodItem(item)
    ensures PrintItem(item) == item.units && '<' as int !in item.units
  {}
}
