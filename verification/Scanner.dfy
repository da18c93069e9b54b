/**
  The raw-byte scanner of the span-tracking loader.

  The functions say where each scan ends in unit indexes; the methods below
  them walk the bytes as the loader does and are proved to end there, scaled
  by the unit width.
 */
module Scanner {
  import opened Wrappers
  import opened RawBytes

  datatype ScanError =
    | NonAsciiName
    | UnterminatedMarkup
    | UnterminatedQuote
    | UnterminatedDeclaration
    | UnterminatedTag
    | UnexpectedEndTag
    | UnexpectedMarkup
    | EndOfInput

  /** A start tag: offset of '<', offset just past '>' or '/>', and which of the two it was. */
  datatype TagBounds = TagBounds(openPos: nat, tagEndPos: nat, selfClosed: bool)

  predicate IsQuote(code: int) {
    code == '"' as int || code == '\'' as int
  }

  predicate IsAsciiText(s: string) {
    forall k :: 0 <= k < |s| ==> s[k] as int < 0x80
  }

  // ----- where each scan ends, in units -----

  predicate MatchLit(u: seq<int>, i: nat, lit: string) {
    forall k :: 0 <= k < |lit| ==> At(u, i + k) == lit[k] as int
  }

  lemma MatchLitFits(u: seq<int>, i: nat, lit: string)
    requires MatchLit(u, i, lit) && lit != ""
    ensures i + |lit| <= |u|
  {
    assert At(u, i + (|lit| - 1)) == lit[|lit| - 1] as int;
  }

  function SkipDelimited(u: seq<int>, i: nat, terminator: string): (r: Result<nat, ScanError>)
    requires terminator != ""
    ensures r.Ok? ==> i < r.value <= |u|
    decreases |u| - i
  {
    if i >= |u| then Err(UnterminatedMarkup)
    else if MatchLit(u, i, terminator) then
      MatchLitFits(u, i, terminator);
      Ok(i + |terminator|)
    else SkipDelimited(u, i + 1, terminator)
  }

  /** Past the first unit equal to quote at or after i. */
  function SkipQuoted(u: seq<int>, i: nat, quote: int): (r: Result<nat, ScanError>)
    ensures r.Ok? ==> i < r.value <= |u|
    decreases |u| - i
  {
    if i >= |u| then Err(UnterminatedQuote)
    else if u[i] == quote then Ok(i + 1)
    else SkipQuoted(u, i + 1, quote)
  }

  function SkipDeclaration(u: seq<int>, i: nat, depth: int): (r: Result<nat, ScanError>)
    ensures r.Ok? ==> i < r.value <= |u|
    decreases |u| - i
  {
    if i >= |u| then Err(UnterminatedDeclaration)
    else if IsQuote(u[i]) then
      match SkipQuoted(u, i + 1, u[i])
      case Err(e) => Err(e)
      case Ok(j) => SkipDeclaration(u, j, depth)
    else if u[i] == '[' as int then SkipDeclaration(u, i + 1, depth + 1)
    else if u[i] == ']' as int then SkipDeclaration(u, i + 1, depth - 1)
    else if u[i] == '>' as int && depth == 0 then Ok(i + 1)
    else SkipDeclaration(u, i + 1, depth)
  }

  /** Past the comment, PI, CDATA section or declaration opened at i; None when i opens element markup. */
  function SkipSpecialUnit(u: seq<int>, i: nat): (r: Result<Option<nat>, ScanError>)
    ensures r.Ok? && r.value.Some? ==> i < r.value.value <= |u|
  {
    if At(u, i + 1) == '?' as int then Skipped(SkipDelimited(u, i, "?>"))
    else if At(u, i + 1) != '!' as int then Ok(None)
    else if MatchLit(u, i, "<!--") then Skipped(SkipDelimited(u, i, "-->"))
    else if MatchLit(u, i, "<![CDATA[") then Skipped(SkipDelimited(u, i, "]]>"))
    else Skipped(SkipDeclaration(u, i + 1, 0))
  }

  function Skipped(r: Result<nat, ScanError>): Result<Option<nat>, ScanError> {
    match r
    case Ok(j) => Ok(Some(j))
    case Err(e) => Err(e)
  }

  /** The first '<' at or after i that opens an element or end tag. */
  function NextMarkup(u: seq<int>, i: nat): (r: Result<nat, ScanError>)
    ensures r.Ok? ==> i <= r.value < |u| && u[r.value] == '<' as int
    decreases |u| - i
  {
    if i >= |u| then Err(EndOfInput)
    else if u[i] != '<' as int then NextMarkup(u, i + 1)
    else
      match SkipSpecialUnit(u, i)
      case Err(e) => Err(e)
      case Ok(Some(j)) => NextMarkup(u, j)
      case Ok(None) => Ok(i)
  }

  /** Past the '>' or '/>' that ends a start tag, quoted values skipped whole. */
  function TagEnd(u: seq<int>, i: nat): (r: Result<(nat, bool), ScanError>)
    ensures r.Ok? ==> i < r.value.0 <= |u| && u[r.value.0 - 1] == '>' as int
    decreases |u| - i
  {
    if i >= |u| then Err(UnterminatedTag)
    else if IsQuote(u[i]) then
      match SkipQuoted(u, i + 1, u[i])
      case Err(e) => Err(e)
      case Ok(j) => TagEnd(u, j)
    else if u[i] == '>' as int then Ok((i + 1, false))
    else if u[i] == '/' as int && At(u, i + 1) == '>' as int then Ok((i + 2, true))
    else TagEnd(u, i + 1)
  }

  predicate EndsName(code: int) {
    IsSpace(code) || code == '/' as int || code == '>' as int
  }

  function StartTagAt(u: seq<int>, cursor: nat, tagName: string): (r: Result<TagBounds, ScanError>)
    ensures r.Ok? ==> cursor <= r.value.openPos < r.value.tagEndPos <= |u| && u[r.value.tagEndPos - 1] == '>' as int
  {
    if !IsAsciiText(tagName) then Err(NonAsciiName)
    else
      match NextMarkup(u, cursor)
      case Err(e) => Err(e)
      case Ok(p) =>
        if At(u, p + 1) == '/' as int then Err(UnexpectedEndTag)
        else if !MatchLit(u, p + 1, tagName) then Err(UnexpectedMarkup)
        else if !EndsName(At(u, p + 1 + |tagName|)) then Err(UnexpectedMarkup)
        else
          match TagEnd(u, p + 1 + |tagName|)
          case Err(e) => Err(e)
          case Ok((end, selfClosed)) => Ok(TagBounds(p, end, selfClosed))
  }

  function SkipSpaces(u: seq<int>, i: nat): (j: nat)
    ensures i <= j && (i <= |u| ==> j <= |u|)
    decreases |u| - i
  {
    if i < |u| && IsSpace(u[i]) then SkipSpaces(u, i + 1) else i
  }

  function EndTagAt(u: seq<int>, cursor: nat, tagName: string): (r: Result<nat, ScanError>)
    ensures r.Ok? ==> cursor < r.value <= |u| && u[r.value - 1] == '>' as int
  {
    if !IsAsciiText(tagName) then Err(NonAsciiName)
    else
      match NextMarkup(u, cursor)
      case Err(e) => Err(e)
      case Ok(p) =>
        if At(u, p + 1) != '/' as int || !MatchLit(u, p + 2, tagName) then Err(UnexpectedMarkup)
        else
          var close := SkipSpaces(u, p + 2 + |tagName|);
          if At(u, close) == '>' as int then Ok(close + 1) else Err(UnexpectedMarkup)
  }

  // ----- positions in bytes -----

  predicate Aligned(enc: Encoding, pos: nat) {
    enc.SingleByte? || pos % 2 == 0
  }

  /** The unit index of an aligned byte position. */
  function Index(enc: Encoding, pos: nat): nat {
    if enc.SingleByte? then pos else pos / 2
  }

  function Scaled(enc: Encoding, r: Result<nat, ScanError>): Result<nat, ScanError> {
    match r
    case Ok(i) => Ok(Offset(enc, i))
    case Err(e) => Err(e)
  }

  function ScaledEnd(enc: Encoding, r: Result<(nat, bool), ScanError>): Result<(nat, bool), ScanError> {
    match r
    case Ok((i, selfClosed)) => Ok((Offset(enc, i), selfClosed))
    case Err(e) => Err(e)
  }

  function ScaledSkip(enc: Encoding, r: Result<Option<nat>, ScanError>): Result<Option<nat>, ScanError> {
    match r
    case Ok(Some(i)) => Ok(Some(Offset(enc, i)))
    case Ok(None) => Ok(None)
    case Err(e) => Err(e)
  }

  function ScaledBounds(enc: Encoding, r: Result<TagBounds, ScanError>): Result<TagBounds, ScanError> {
    match r
    case Ok(b) => Ok(TagBounds(Offset(enc, b.openPos), Offset(enc, b.tagEndPos), b.selfClosed))
    case Err(e) => Err(e)
  }

  /** The byte-level view of a unit agrees with its code unit wherever either is ASCII. */
  lemma View(bytes: seq<byte>, enc: Encoding, pos: nat)
    requires Aligned(enc, pos)
    ensures var a, c := UnitAscii(bytes, enc, pos), At(Units(bytes, enc), Index(enc, pos));
      (0 <= a < 0x80 || 0 <= c < 0x80) ==> a == c
    ensures pos < |bytes| <==> Index(enc, pos) < |Units(bytes, enc)|
    ensures pos == Offset(enc, Index(enc, pos))
    ensures Aligned(enc, pos + UnitWidth(enc)) && Index(enc, pos + UnitWidth(enc)) == Index(enc, pos) + 1
  {
    var a, c := UnitAscii(bytes, enc, pos), At(Units(bytes, enc), Index(enc, pos));
    if 0 <= a < 0x80 {
      UnitAsciiIsCodeUnit(bytes, enc, Index(enc, pos), a);
    }
    if 0 <= c < 0x80 {
      UnitAsciiIsCodeUnit(bytes, enc, Index(enc, pos), c);
    }
  }

  lemma IndexOfOffset(enc: Encoding, i: nat)
    ensures Aligned(enc, Offset(enc, i)) && Index(enc, Offset(enc, i)) == i
  {}

  lemma ForwardBy(enc: Encoding, pos: nat, n: nat)
    requires Aligned(enc, pos)
    ensures Aligned(enc, pos + n * UnitWidth(enc)) && Index(enc, pos + n * UnitWidth(enc)) == Index(enc, pos) + n
    ensures pos + n * UnitWidth(enc) == Offset(enc, Index(enc, pos) + n)
  {}

  lemma NextMarkupStep(u: seq<int>, i: nat)
    requires i < |u|
    ensures u[i] != '<' as int ==> NextMarkup(u, i) == NextMarkup(u, i + 1)
    ensures u[i] == '<' as int ==>
      NextMarkup(u, i) ==
        match SkipSpecialUnit(u, i)
        case Err(e) => Err(e)
        case Ok(Some(j)) => NextMarkup(u, j)
        case Ok(None) => Ok(i)
  {}

  // ----- the scanner -----

  method MatchLiteral(bytes: seq<byte>, enc: Encoding, scanPos: nat, literal: string) returns (matches: bool)
    requires Aligned(enc, scanPos) && IsAsciiText(literal)
    ensures matches == MatchLit(Units(bytes, enc), Index(enc, scanPos), literal)
  {
    ghost var u, i := Units(bytes, enc), Index(enc, scanPos);
    var width := UnitWidth(enc);
    var idx := 0;
    while idx < |literal|
      invariant 0 <= idx <= |literal|
      invariant MatchLit(u, i, literal[..idx])
    {
      var pos := scanPos + idx * width;
      assert Aligned(enc, pos) && Index(enc, pos) == i + idx;
      View(bytes, enc, pos);
      if !UnitIs(bytes, enc, pos, literal[idx]) {
        assert At(u, i + idx) != literal[idx] as int;
        return false;
      }
      idx := idx + 1;
    }
    assert literal[..|literal|] == literal;
    matches := true;
  }

  method SkipDelimitedUnit(bytes: seq<byte>, enc: Encoding, openPos: nat, terminator: string)
    returns (r: Result<nat, ScanError>)
    requires Aligned(enc, openPos) && IsAsciiText(terminator) && terminator != ""
    ensures r == Scaled(enc, SkipDelimited(Units(bytes, enc), Index(enc, openPos), terminator))
  {
    hide UnitAscii, Units, UnitWidth, Aligned, Index, Offset, MatchLit;
    ghost var u := Units(bytes, enc);
    var width := UnitWidth(enc);
    var scanPos: nat := openPos;
    View(bytes, enc, scanPos);
    while scanPos < |bytes|
      invariant Aligned(enc, scanPos)
      invariant scanPos < |bytes| <==> Index(enc, scanPos) < |u|
      invariant SkipDelimited(u, Index(enc, openPos), terminator) == SkipDelimited(u, Index(enc, scanPos), terminator)
      decreases |u| - Index(enc, scanPos)
    {
      View(bytes, enc, scanPos);
      var matches := MatchLiteral(bytes, enc, scanPos, terminator);
      if matches {
        ForwardBy(enc, scanPos, |terminator|);
        return Ok(scanPos + |terminator| * width);
      }
      scanPos := scanPos + width;
      View(bytes, enc, scanPos);
    }
    r := Err(UnterminatedMarkup);
  }

  method SkipQuotedValue(bytes: seq<byte>, enc: Encoding, quotePos: nat) returns (r: Result<nat, ScanError>)
    requires Aligned(enc, quotePos) && IsQuote(UnitAscii(bytes, enc, quotePos))
    ensures r == Scaled(enc, SkipQuoted(Units(bytes, enc), Index(enc, quotePos) + 1, UnitAscii(bytes, enc, quotePos)))
  {
    hide UnitAscii, Units, UnitWidth, Aligned, Index, Offset;
    View(bytes, enc, quotePos);
    ghost var u, start := Units(bytes, enc), Index(enc, quotePos) + 1;
    var quote := UnitAscii(bytes, enc, quotePos);
    var width := UnitWidth(enc);
    var scanPos: nat := quotePos + width;
    View(bytes, enc, scanPos);
    while scanPos < |bytes|
      invariant Aligned(enc, scanPos)
      invariant scanPos < |bytes| <==> Index(enc, scanPos) < |u|
      invariant SkipQuoted(u, start, quote) == SkipQuoted(u, Index(enc, scanPos), quote)
      decreases |u| - Index(enc, scanPos)
    {
      View(bytes, enc, scanPos);
      if UnitAscii(bytes, enc, scanPos) == quote {
        ForwardBy(enc, scanPos, 1);
        return Ok(scanPos + width);
      }
      scanPos := scanPos + width;
      View(bytes, enc, scanPos);
    }
    r := Err(UnterminatedQuote);
  }

  method SkipDeclarationUnit(bytes: seq<byte>, enc: Encoding, openPos: nat) returns (r: Result<nat, ScanError>)
    requires Aligned(enc, openPos)
    ensures r == Scaled(enc, SkipDeclaration(Units(bytes, enc), Index(enc, openPos) + 1, 0))
  {
    hide UnitAscii, Units, UnitWidth, Aligned, Index, Offset, SkipSpecialUnit, SkipQuoted, MatchLit;
    ghost var u, start := Units(bytes, enc), Index(enc, openPos) + 1;
    var width := UnitWidth(enc);
    var depth := 0;
    View(bytes, enc, openPos);
    var scanPos: nat := openPos + width;
    View(bytes, enc, scanPos);
    while scanPos < |bytes|
      invariant Aligned(enc, scanPos)
      invariant scanPos < |bytes| <==> Index(enc, scanPos) < |u|
      invariant SkipDeclaration(u, start, 0) == SkipDeclaration(u, Index(enc, scanPos), depth)
      decreases |u| - Index(enc, scanPos)
    {
      View(bytes, enc, scanPos);
      var code := UnitAscii(bytes, enc, scanPos);
      if IsQuote(code) {
        var past := SkipQuotedValue(bytes, enc, scanPos);
        if past.Err? {
          return past;
        }
        IndexOfOffset(enc, SkipQuoted(u, Index(enc, scanPos) + 1, code).value);
        scanPos := past.value;
        View(bytes, enc, scanPos);
        continue;
      }
      if code == '[' as int {
        depth := depth + 1;
      } else if code == ']' as int {
        depth := depth - 1;
      } else if code == '>' as int && depth == 0 {
        ForwardBy(enc, scanPos, 1);
        return Ok(scanPos + width);
      }
      scanPos := scanPos + width;
      View(bytes, enc, scanPos);
    }
    r := Err(UnterminatedDeclaration);
  }

  lemma AsciiLiterals()
    ensures IsAsciiText("?>") && IsAsciiText("<!--") && IsAsciiText("-->")
    ensures IsAsciiText("<![CDATA[") && IsAsciiText("]]>")
  {}

  method SkipSpecial(bytes: seq<byte>, enc: Encoding, openPos: nat) returns (r: Result<Option<nat>, ScanError>)
    requires Aligned(enc, openPos)
    ensures r == ScaledSkip(enc, SkipSpecialUnit(Units(bytes, enc), Index(enc, openPos)))
  {
    AsciiLiterals();
    hide UnitAscii, Units, UnitWidth, Aligned, Index, Offset, MatchLit, IsAsciiText, SkipDelimited, SkipDeclaration;
    View(bytes, enc, openPos);
    var width := UnitWidth(enc);
    View(bytes, enc, openPos + width);
    if UnitIs(bytes, enc, openPos + width, '?') {
      var past := SkipDelimitedUnit(bytes, enc, openPos, "?>");
      return Skipped(past);
    }
    if !UnitIs(bytes, enc, openPos + width, '!') {
      return Ok(None);
    }
    var past;
    var isComment := MatchLiteral(bytes, enc, openPos, "<!--");
    if isComment {
      past := SkipDelimitedUnit(bytes, enc, openPos, "-->");
    } else {
      var isCData := MatchLiteral(bytes, enc, openPos, "<![CDATA[");
      if isCData {
        past := SkipDelimitedUnit(bytes, enc, openPos, "]]>");
      } else {
        past := SkipDeclarationUnit(bytes, enc, openPos);
      }
    }
    r := Skipped(past);
  }

  method ScanStartTag(bytes: seq<byte>, enc: Encoding, cursor: nat, tagName: string)
    returns (r: Result<TagBounds, ScanError>)
    requires Aligned(enc, cursor)
    ensures r == ScaledBounds(enc, StartTagAt(Units(bytes, enc), Index(enc, cursor), tagName))
  {
    hide UnitAscii, Units, UnitWidth, Aligned, Index, Offset, SkipSpecialUnit, SkipQuoted, MatchLit;
    if !IsAsciiText(tagName) {
      return Err(NonAsciiName);
    }
    ghost var u := Units(bytes, enc);
    var width := UnitWidth(enc);
    var scanPos: nat := cursor;
    View(bytes, enc, scanPos);
    while scanPos < |bytes|
      invariant Aligned(enc, scanPos)
      invariant scanPos < |bytes| <==> Index(enc, scanPos) < |u|
      invariant NextMarkup(u, Index(enc, cursor)) == NextMarkup(u, Index(enc, scanPos))
      decreases |u| - Index(enc, scanPos)
    {
      NextMarkupStep(u, Index(enc, scanPos));
      View(bytes, enc, scanPos);
      if !UnitIs(bytes, enc, scanPos, '<') {
        scanPos := scanPos + width;
        View(bytes, enc, scanPos);
        continue;
      }
      ghost var before := scanPos;
      var skipped := SkipSpecial(bytes, enc, scanPos);
      if skipped.Err? {
        return Err(skipped.error);
      }
      if skipped.value.Some? {
        scanPos := skipped.value.value;
        IndexOfOffset(enc, SkipSpecialUnit(u, Index(enc, before)).value.value);
        View(bytes, enc, scanPos);
        continue;
      }
      r := StartTagFrom(bytes, enc, scanPos, tagName);
      return;
    }
    r := Err(EndOfInput);
  }

  /** The end of the start tag whose name ends at afterName: the first '>' outside quotes. */
  method ScanTagEnd(bytes: seq<byte>, enc: Encoding, afterName: nat) returns (r: Result<(nat, bool), ScanError>)
    requires Aligned(enc, afterName)
    ensures r == ScaledEnd(enc, TagEnd(Units(bytes, enc), Index(enc, afterName)))
  {
    hide UnitAscii, Units, UnitWidth, Aligned, Index, Offset, SkipQuoted;
    ghost var u := Units(bytes, enc);
    var width := UnitWidth(enc);
    View(bytes, enc, afterName);
    var tagPos: nat := afterName;
    while tagPos < |bytes|
      invariant Aligned(enc, tagPos)
      invariant tagPos < |bytes| <==> Index(enc, tagPos) < |u|
      invariant TagEnd(u, Index(enc, afterName)) == TagEnd(u, Index(enc, tagPos))
      decreases |u| - Index(enc, tagPos)
    {
      View(bytes, enc, tagPos);
      View(bytes, enc, tagPos + width);
      var code := UnitAscii(bytes, enc, tagPos);
      if IsQuote(code) {
        var past := SkipQuotedValue(bytes, enc, tagPos);
        if past.Err? {
          return Err(past.error);
        }
        IndexOfOffset(enc, SkipQuoted(u, Index(enc, tagPos) + 1, code).value);
        tagPos := past.value;
        View(bytes, enc, tagPos);
        continue;
      }
      if code == '>' as int {
        ForwardBy(enc, tagPos, 1);
        return Ok((tagPos + width, false));
      }
      if code == '/' as int && UnitIs(bytes, enc, tagPos + width, '>') {
        ForwardBy(enc, tagPos, 2);
        return Ok((tagPos + 2 * width, true));
      }
      tagPos := tagPos + width;
    }
    r := Err(UnterminatedTag);
  }

  lemma StartTagAtMarkup(u: seq<int>, p: nat, tagName: string)
    requires NextMarkup(u, p) == Ok(p) && IsAsciiText(tagName)
    ensures StartTagAt(u, p, tagName) ==
      if At(u, p + 1) == '/' as int then Err(UnexpectedEndTag)
      else if !MatchLit(u, p + 1, tagName) then Err(UnexpectedMarkup)
      else if !EndsName(At(u, p + 1 + |tagName|)) then Err(UnexpectedMarkup)
      else
        match TagEnd(u, p + 1 + |tagName|)
        case Err(e) => Err(e)
        case Ok((end, selfClosed)) => Ok(TagBounds(p, end, selfClosed))
  {}

  /** The rest of ScanStartTag once the next element markup is found at scanPos. */
  method StartTagFrom(bytes: seq<byte>, enc: Encoding, scanPos: nat, tagName: string)
    returns (r: Result<TagBounds, ScanError>)
    requires Aligned(enc, scanPos) && IsAsciiText(tagName)
    requires NextMarkup(Units(bytes, enc), Index(enc, scanPos)) == Ok(Index(enc, scanPos))
    ensures r == ScaledBounds(enc, StartTagAt(Units(bytes, enc), Index(enc, scanPos), tagName))
  {
    hide UnitAscii, IsAsciiText, SkipSpecialUnit, Units, UnitWidth, Aligned, Index, Offset, NextMarkup, StartTagAt,
      TagEnd, MatchLit;
    StartTagAtMarkup(Units(bytes, enc), Index(enc, scanPos), tagName);
    ghost var u := Units(bytes, enc);
    var width := UnitWidth(enc);
    View(bytes, enc, scanPos);
    var namePos: nat := scanPos + width;
    View(bytes, enc, namePos);
    if UnitIs(bytes, enc, namePos, '/') {
      return Err(UnexpectedEndTag);
    }
    var named := MatchLiteral(bytes, enc, namePos, tagName);
    if !named {
      return Err(UnexpectedMarkup);
    }
    var afterName: nat := namePos + |tagName| * width;
    ForwardBy(enc, namePos, |tagName|);
    View(bytes, enc, afterName);
    if !UnitIsSpace(bytes, enc, afterName) && !UnitIs(bytes, enc, afterName, '/')
      && !UnitIs(bytes, enc, afterName, '>') {
      return Err(UnexpectedMarkup);
    }
    var end := ScanTagEnd(bytes, enc, afterName);
    r := match end
      case Err(e) => Err(e)
      case Ok((endPos, selfClosed)) => Ok(TagBounds(scanPos, endPos, selfClosed));
  }

  method ScanEndTag(bytes: seq<byte>, enc: Encoding, cursor: nat, tagName: string)
    returns (r: Result<nat, ScanError>)
    requires Aligned(enc, cursor)
    ensures r == Scaled(enc, EndTagAt(Units(bytes, enc), Index(enc, cursor), tagName))
  {
    hide UnitAscii, Units, UnitWidth, Aligned, Index, Offset, SkipSpecialUnit, SkipQuoted, MatchLit;
    if !IsAsciiText(tagName) {
      return Err(NonAsciiName);
    }
    ghost var u := Units(bytes, enc);
    var width := UnitWidth(enc);
    var scanPos: nat := cursor;
    View(bytes, enc, scanPos);
    while scanPos < |bytes|
      invariant Aligned(enc, scanPos)
      invariant scanPos < |bytes| <==> Index(enc, scanPos) < |u|
      invariant NextMarkup(u, Index(enc, cursor)) == NextMarkup(u, Index(enc, scanPos))
      decreases |u| - Index(enc, scanPos)
    {
      NextMarkupStep(u, Index(enc, scanPos));
      View(bytes, enc, scanPos);
      if !UnitIs(bytes, enc, scanPos, '<') {
        scanPos := scanPos + width;
        View(bytes, enc, scanPos);
        continue;
      }
      ghost var before := scanPos;
      var skipped := SkipSpecial(bytes, enc, scanPos);
      if skipped.Err? {
        return Err(skipped.error);
      }
      if skipped.value.Some? {
        scanPos := skipped.value.value;
        IndexOfOffset(enc, SkipSpecialUnit(u, Index(enc, before)).value.value);
        View(bytes, enc, scanPos);
        continue;
      }
      r := EndTagFrom(bytes, enc, scanPos, tagName);
      return;
    }
    r := Err(EndOfInput);
  }

  method ScanSpaces(bytes: seq<byte>, enc: Encoding, start: nat) returns (end: nat)
    requires Aligned(enc, start)
    ensures Aligned(enc, end) && Index(enc, end) == SkipSpaces(Units(bytes, enc), Index(enc, start))
  {
    hide UnitAscii, Units, UnitWidth, Aligned, Index, Offset;
    ghost var u := Units(bytes, enc);
    var width := UnitWidth(enc);
    end := start;
    View(bytes, enc, end);
    while end < |bytes| && UnitIsSpace(bytes, enc, end)
      invariant Aligned(enc, end)
      invariant end < |bytes| <==> Index(enc, end) < |u|
      invariant SkipSpaces(u, Index(enc, start)) == SkipSpaces(u, Index(enc, end))
      decreases |u| - Index(enc, end)
    {
      View(bytes, enc, end);
      end := end + width;
      View(bytes, enc, end);
    }
    View(bytes, enc, end);
  }

  lemma EndTagAtMarkup(u: seq<int>, p: nat, tagName: string)
    requires NextMarkup(u, p) == Ok(p) && IsAsciiText(tagName)
    ensures EndTagAt(u, p, tagName) ==
      if At(u, p + 1) != '/' as int || !MatchLit(u, p + 2, tagName) then Err(UnexpectedMarkup)
      else
        var close := SkipSpaces(u, p + 2 + |tagName|);
        if At(u, close) == '>' as int then Ok(close + 1) else Err(UnexpectedMarkup)
  {}

  /** The rest of ScanEndTag once the next element markup is found at scanPos. */
  method EndTagFrom(bytes: seq<byte>, enc: Encoding, scanPos: nat, tagName: string)
    returns (r: Result<nat, ScanError>)
    requires Aligned(enc, scanPos) && IsAsciiText(tagName)
    requires NextMarkup(Units(bytes, enc), Index(enc, scanPos)) == Ok(Index(enc, scanPos))
    ensures r == Scaled(enc, EndTagAt(Units(bytes, enc), Index(enc, scanPos), tagName))
  {
    hide UnitAscii, IsAsciiText, SkipSpecialUnit, Units, UnitWidth, Aligned, Index, Offset, NextMarkup, EndTagAt,
      MatchLit, SkipSpaces;
    EndTagAtMarkup(Units(bytes, enc), Index(enc, scanPos), tagName);
    ghost var u := Units(bytes, enc);
    var width := UnitWidth(enc);
    View(bytes, enc, scanPos);
    var namePos: nat := scanPos + width;
    View(bytes, enc, namePos);
    if UnitIs(bytes, enc, namePos, '/') {
      var afterSlash: nat := namePos + width;
      var named := MatchLiteral(bytes, enc, afterSlash, tagName);
      if named {
        var afterName: nat := afterSlash + |tagName| * width;
        View(bytes, enc, afterSlash);
        ForwardBy(enc, afterSlash, |tagName|);
        var tagPos := ScanSpaces(bytes, enc, afterName);
        View(bytes, enc, tagPos);
        if UnitIs(bytes, enc, tagPos, '>') {
          ForwardBy(enc, tagPos, 1);
          return Ok(tagPos + width);
        }
      }
    }
    r := Err(UnexpectedMarkup);
  }
}
