/**
  Content without tags, piece by piece: the scanner crosses a text and stops at
  the tag behind it exactly when the text is quiet.
 */
module QuietText {
  import opened Wrappers
  import opened RawBytes
  import opened Scanner
  import opened Markup
  import opened MarkupScan

  // ----- one piece -----

  lemma OccursSlice(u: seq<int>, i: nat, j: nat)
    requires i <= j <= |u|
    ensures Occurs(u, i, u[i..j])
  {}

  /** Literals inside a slice of the file match as they do in the file. */
  lemma MatchSlice(u: seq<int>, i: nat, j: nat, k: nat, lit: string)
    requires i <= j <= |u| && k + |lit| <= j - i
    ensures MatchLit(u[i..j], k, lit) == MatchLit(u, i + k, lit)
  {
    hide MatchLit, Occurs;
    OccursSlice(u, i, j);
    MatchWithin(u, i, u[i..j], k, lit);
  }

  /** Where a delimited piece ends: behind the first occurrence of its terminator. */
  lemma {:induction false} DelimitedMeans(u: seq<int>, i: nat, j: nat, terminator: string)
    requires terminator != "" && SkipDelimited(u, i, terminator) == Ok(j)
    ensures i + |terminator| <= j <= |u| && MatchLit(u, j - |terminator|, terminator)
    ensures forall k :: i <= k < j - |terminator| ==> !MatchLit(u, k, terminator)
    decreases |u| - i
  {
    hide MatchLit;
    if !MatchLit(u, i, terminator) {
      DelimitedMeans(u, i + 1, j, terminator);
    }
  }

  lemma EndsWhereSkipped(u: seq<int>, i: nat, j: nat, terminator: string)
    requires i <= j <= |u| && terminator != ""
    ensures EndsAtFirst(u[i..j], terminator) <==> SkipDelimited(u, i, terminator) == Ok(j)
  {
    hide MatchLit, SkipDelimited;
    var text := u[i..j];
    if SkipDelimited(u, i, terminator) == Ok(j) {
      DelimitedMeans(u, i, j, terminator);
      MatchSlice(u, i, j, j - i - |terminator|, terminator);
      forall k: nat | k < |text| - |terminator| ensures !MatchLit(text, k, terminator) {
        MatchSlice(u, i, j, k, terminator);
      }
    }
    if EndsAtFirst(text, terminator) {
      var end := j - |terminator|;
      MatchSlice(u, i, j, end - i, terminator);
      forall k: nat | i <= k < end ensures !MatchLit(u, k, terminator) {
        MatchSlice(u, i, j, k - i, terminator);
      }
      DelimitedEnd(u, i, end, terminator);
    }
  }

  lemma {:induction false} DeclarationEnds(u: seq<int>, i: nat, depth: int, j: nat)
    requires SkipDeclaration(u, i, depth) == Ok(j)
    ensures i < j <= |u| && u[j - 1] == '>' as int
    decreases |u| - i
  {
    if IsQuote(u[i]) {
      DeclarationEnds(u, SkipQuoted(u, i + 1, u[i]).value, depth, j);
    } else if u[i] == '[' as int {
      DeclarationEnds(u, i + 1, depth + 1, j);
    } else if u[i] == ']' as int {
      DeclarationEnds(u, i + 1, depth - 1, j);
    } else if !(u[i] == '>' as int && depth == 0) {
      DeclarationEnds(u, i + 1, depth, j);
    }
  }

  /** A declaration from its bracket on ends at a '>' exactly when what stands between closes. */
  lemma DeclarationIff(u: seq<int>, i: nat, j: nat)
    requires i + 2 <= j <= |u| && u[i + 1] == '!' as int
    ensures SkipDeclaration(u, i + 1, 0) == Ok(j) <==>
      j >= i + 3 && u[j - 1] == '>' as int && Closes(u[i + 2..j - 1], OUTSIDE)
  {
    hide Closes, Occurs;
    assert SkipDeclaration(u, i + 1, 0) == ScanFrom(u, i + 2, OUTSIDE);
    if SkipDeclaration(u, i + 2, 0) == Ok(j) {
      DeclarationEnds(u, i + 2, 0, j);
    }
    hide SkipDeclaration, ScanFrom;
    if j >= i + 3 && u[j - 1] == '>' as int {
      LiteralUnits();
      assert u[i + 2..j] == u[i + 2..j - 1] + Code(">");
      OccursSlice(u, i + 2, j);
      TextSkipped(u, i + 2, u[i + 2..j - 1]);
    }
  }

  lemma OpenerUnits(u: seq<int>, i: nat, opener: string, k: nat)
    requires MatchLit(u, i, opener) && k < |opener|
    ensures At(u, i + k) == opener[k] as int
  {}

  /** No terminator ends inside the opener when its last unit stands only at the opener's end. */
  lemma OpenerFits(u: seq<int>, i: nat, opener: string, terminator: string)
    requires MatchLit(u, i, opener) && |terminator| >= 2
    requires forall k :: 0 <= k < |opener| - 1 ==> opener[k] != terminator[|terminator| - 1]
    ensures SkipDelimited(u, i, terminator).Ok? ==> SkipDelimited(u, i, terminator).value >= i + |opener|
  {
    hide SkipDelimited, MatchLit;
    if SkipDelimited(u, i, terminator).Ok? {
      var j := SkipDelimited(u, i, terminator).value;
      DelimitedMeans(u, i, j, terminator);
      OpenerUnits(u, j - |terminator|, terminator, |terminator| - 1);
      if j < i + |opener| {
        OpenerUnits(u, i, opener, j - 1 - i);
      }
    }
  }

  /** The scanner steps from a '<' to j exactly when the text between is one piece. */
  lemma SpecialIff(u: seq<int>, i: nat, j: nat)
    requires i < j <= |u| && u[i] == '<' as int
    ensures IsSpecial(u[i..j]) <==> SkipSpecialUnit(u, i) == Ok(Some(j))
  {
    var text := u[i..j];
    var second := At(u, i + 1);
    hide MatchLit, SkipDelimited, SkipDeclaration, EndsAtFirst, Closes;
    if second == '?' as int {
      EndsWhereSkipped(u, i, j, "?>");
      if SkipDelimited(u, i, "?>") == Ok(j) {
        DelimitedMeans(u, i, j, "?>");
      }
    } else if second == '!' as int {
      if MatchLit(u, i, "<!--") {
        DelimitedPiece(u, i, j, "<!--", "-->");
      } else if MatchLit(u, i, "<![CDATA[") {
        DelimitedPiece(u, i, j, "<![CDATA[", "]]>");
      } else {
        DeclaredPiece(u, i, j);
      }
    }
  }

  lemma ThirdUnit(u: seq<int>, i: nat, opener: string)
    requires |opener| > 2
    ensures MatchLit(u, i, opener) ==> At(u, i + 2) == opener[2] as int
  {}

  lemma CommentOpenerFits(u: seq<int>, i: nat)
    requires MatchLit(u, i, "<!--")
    ensures !MatchLit(u, i, "<![CDATA[")
    ensures SkipDelimited(u, i, "-->").Ok? ==> SkipDelimited(u, i, "-->").value >= i + 4
  {
    var opener, other := "<!--", "<![CDATA[";
    assert opener[2] == '-' && other[2] == '[';
    OpenerUnits(u, i, opener, 2);
    ThirdUnit(u, i, other);
    OpenerFits(u, i, opener, "-->");
  }

  lemma CDataOpenerFits(u: seq<int>, i: nat)
    requires MatchLit(u, i, "<![CDATA[")
    ensures !MatchLit(u, i, "<!--")
    ensures SkipDelimited(u, i, "]]>").Ok? ==> SkipDelimited(u, i, "]]>").value >= i + 9
  {
    var opener, other := "<![CDATA[", "<!--";
    assert opener[2] == '[' && other[2] == '-';
    OpenerUnits(u, i, opener, 2);
    ThirdUnit(u, i, other);
    OpenerFits(u, i, opener, "]]>");
  }

  /** A prefix of an opener is no piece. */
  lemma ShortIsNoPiece(u: seq<int>, i: nat, j: nat, opener: string)
    requires i < j <= |u| && MatchLit(u, i, opener) && j - i < |opener|
    requires opener == "<!--" || opener == "<![CDATA["
    ensures !IsSpecial(u[i..j])
  {
    var text := u[i..j];
    if |text| >= 2 {
      OpenerUnits(u, i, opener, 1);
      OpenerUnits(u, i, opener, |text| - 1);
      assert opener[1] == '!' && opener[|text| - 1] != '>';
      NoShortMatch(text, opener);
      assert text[1] == '!' as int && text[|text| - 1] != '>' as int;
      TooShort(u, i, j, opener);
    }
  }

  lemma NoShortMatch(text: seq<int>, opener: string)
    requires |text| < |opener|
    ensures !MatchLit(text, 0, opener)
  {
    if MatchLit(text, 0, opener) {
      MatchLitFits(text, 0, opener);
    }
  }

  lemma TooShort(u: seq<int>, i: nat, j: nat, opener: string)
    requires i < j <= |u| && MatchLit(u, i, opener) && 2 <= j - i < |opener|
    requires opener == "<!--" || opener == "<![CDATA["
    ensures !MatchLit(u[i..j], 0, "<!--") && !MatchLit(u[i..j], 0, "<![CDATA[")
  {
    var text := u[i..j];
    NoShortMatch(text, opener);
    if opener == "<!--" {
      NoShortMatch(text, "<![CDATA[");
    } else if |text| < 4 {
      NoShortMatch(text, "<!--");
    } else {
      MatchSlice(u, i, j, 0, "<!--");
      CDataOpenerFits(u, i);
    }
  }

  lemma DelimitedPiece(u: seq<int>, i: nat, j: nat, opener: string, terminator: string)
    requires i < j <= |u| && u[i] == '<' as int && MatchLit(u, i, opener)
    requires (opener == "<!--" && terminator == "-->") || (opener == "<![CDATA[" && terminator == "]]>")
    ensures IsSpecial(u[i..j]) <==> SkipSpecialUnit(u, i) == Ok(Some(j))
  {
    var text := u[i..j];
    if opener == "<!--" {
      CommentOpenerFits(u, i);
    } else {
      CDataOpenerFits(u, i);
    }
    OpenerUnits(u, i, opener, 1);
    assert opener[1] == '!';
    hide MatchLit, SkipDelimited, SkipDeclaration, EndsAtFirst, Closes;
    assert SkipSpecialUnit(u, i) == Skipped(SkipDelimited(u, i, terminator));
    if j - i < |opener| {
      ShortIsNoPiece(u, i, j, opener);
    } else {
      MatchSlice(u, i, j, 0, opener);
      EndsWhereSkipped(u, i, j, terminator);
      assert text[1] == At(u, i + 1);
      if opener == "<![CDATA[" {
        MatchSlice(u, i, j, 0, "<!--");
      }
    }
  }

  lemma DeclaredPiece(u: seq<int>, i: nat, j: nat)
    requires i < j <= |u| && u[i] == '<' as int && At(u, i + 1) == '!' as int
    requires !MatchLit(u, i, "<!--") && !MatchLit(u, i, "<![CDATA[")
    ensures IsSpecial(u[i..j]) <==> SkipSpecialUnit(u, i) == Ok(Some(j))
  {
    var text := u[i..j];
    NotInSlice(u, i, j, "<!--");
    NotInSlice(u, i, j, "<![CDATA[");
    hide MatchLit, SkipDelimited, SkipDeclaration, EndsAtFirst, Closes;
    if j >= i + 2 {
      DeclarationIff(u, i, j);
    }
    if j >= i + 3 {
      InnerSlice(u, i, j);
    }
  }

  lemma InnerSlice(u: seq<int>, i: nat, j: nat)
    requires i + 3 <= j <= |u|
    ensures u[i..j][2..j - i - 1] == u[i + 2..j - 1]
  {
    var a, b := u[i..j][2..j - i - 1], u[i + 2..j - 1];
    forall k | 0 <= k < |a| ensures a[k] == b[k] {
      assert a[k] == u[i..j][2 + k] == u[i + (2 + k)];
    }
  }

  lemma NotInSlice(u: seq<int>, i: nat, j: nat, lit: string)
    requires i <= j <= |u| && !MatchLit(u, i, lit)
    ensures !MatchLit(u[i..j], 0, lit)
  {
    hide MatchLit;
    if |lit| <= j - i {
      MatchSlice(u, i, j, 0, lit);
    } else {
      NoShortMatch(u[i..j], lit);
    }
  }

  // ----- a whole text -----

  /** Quiet text is crossed, whatever follows it. */
  lemma {:induction false} QuietRun(u: seq<int>, i: nat, j: nat)
    requires i <= j <= |u| && Quiet(u[i..j])
    ensures NextMarkup(u, i) == NextMarkup(u, j)
    decreases j - i
  {
    hide IsSpecial, SkipSpecialUnit, NextMarkup;
    var text := u[i..j];
    if i < j {
      NextMarkupStep(u, i);
      if text[0] != '<' as int {
        assert text[1..] == u[i + 1..j] by { assert text == u[i..j]; }
        assert Quiet(u[i + 1..j]) by { PlainFirst(text); }
        QuietRun(u, i + 1, j);
      } else {
        var k :| 1 <= k <= |text| && IsSpecial(text[..k]) && Quiet(text[k..]);
        assert text[..k] == u[i..i + k] && text[k..] == u[i + k..j];
        SpecialIff(u, i, i + k);
        QuietRun(u, i + k, j);
      }
    }
  }

  lemma PlainFirst(text: seq<int>)
    requires text != [] && text[0] != '<' as int && Quiet(text)
    ensures Quiet(text[1..])
  {
    forall k | 1 <= k <= |text| ensures !IsSpecial(text[..k]) {
      NoPieceHere(text, k);
    }
  }

  lemma NoPieceHere(text: seq<int>, k: nat)
    requires 1 <= k <= |text| && text[0] != '<' as int
    ensures !IsSpecial(text[..k])
  {
    assert text[..k][0] == text[0];
  }

  /** What the scanner crosses on its way to a tag is quiet. */
  lemma {:induction false} CrossedIsQuiet(u: seq<int>, i: nat, j: nat)
    requires NextMarkup(u, i) == Ok(j)
    ensures i <= j < |u| && Quiet(u[i..j])
    decreases |u| - i
  {
    hide IsSpecial, SkipSpecialUnit, NextMarkup;
    NextMarkupBound(u, i);
    NextMarkupStep(u, i);
    var text := u[i..j];
    if u[i] != '<' as int {
      CrossedIsQuiet(u, i + 1, j);
      assert text[1..] == u[i + 1..j];
    } else {
      match SkipSpecialUnit(u, i)
      case Ok(Some(k)) =>
        SkippedBound(u, i, k);
        CrossedIsQuiet(u, k, j);
        SpecialIff(u, i, k);
        assert text[..k - i] == u[i..k] && text[k - i..] == u[k..j];
      case _ =>
    }
  }

  lemma NextMarkupBound(u: seq<int>, i: nat)
    requires NextMarkup(u, i).Ok?
    ensures i <= NextMarkup(u, i).value < |u|
  {}

  lemma SkippedBound(u: seq<int>, i: nat, k: nat)
    requires SkipSpecialUnit(u, i) == Ok(Some(k))
    ensures i < k <= |u|
  {}

  /** In front of a tag: the scan gets there exactly when the text between is quiet. */
  lemma ReachesIffQuiet(u: seq<int>, i: nat, j: nat)
    requires i <= j <= |u| && NextMarkup(u, j) == Ok(j)
    ensures NextMarkup(u, i) == Ok(j) <==> Quiet(u[i..j])
  {
    hide NextMarkup, Quiet;
    if Quiet(u[i..j]) {
      QuietRun(u, i, j);
    }
    if NextMarkup(u, i) == Ok(j) {
      CrossedIsQuiet(u, i, j);
    }
  }

  // ----- pieces put together -----

  /** A text with a tag behind it. */
  function Tagged(text: seq<int>): seq<int> {
    text + ['<' as int, 'a' as int]
  }

  lemma TagBehind(text: seq<int>)
    ensures NextMarkup(Tagged(text), |text|) == Ok(|text|)
  {
    PlainTagIsMarkup(Tagged(text), |text|);
  }

  lemma QuietConcat(a: seq<int>, b: seq<int>)
    requires Quiet(a) && Quiet(b)
    ensures Quiet(a + b)
  {
    hide NextMarkup, Quiet;
    var u := Tagged(a + b);
    TagBehind(a + b);
    assert u[0..|a|] == a && u[|a|..|a + b|] == b && u[0..|a + b|] == a + b;
    QuietRun(u, 0, |a|);
    QuietRun(u, |a|, |a + b|);
    CrossedIsQuiet(u, 0, |a + b|);
  }

  /** Good pieces of content that are not elements are quiet. */
  lemma GoodItemIsQuiet(item: Item)
    requires GoodItem(item) && !item.Child?
    ensures Quiet(PrintItem(item))
  {
    hide *;
    var text := PrintItem(item);
    var u := Tagged(text);
    assert u == text + ['<' as int, 'a' as int] by { TaggedIs(text); }
    assert u[0..|text|] == text;
    TagBehind(text);
    OccursSlice(u, 0, |text|);
    MiscRun(u, 0, item);
    CrossedIsQuiet(u, 0, |text|);
  }

  lemma TaggedIs(text: seq<int>)
    ensures Tagged(text) == text + ['<' as int, 'a' as int]
  {}
}
