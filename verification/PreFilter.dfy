/**
  The text pre-filter of lazy discovery: does a raw file contain a SHORT-NAME
  element with a given name? A character stands for one byte.
 */
module PreFilter {
  import opened Wrappers
  import opened Numbers

  const OPENER := "SHORT-NAME>"

  /** A byte order mark of either 16-bit encoding. */
  predicate HasUtf16Mark(bytes: string) {
    |bytes| >= 2 && ((bytes[0] as int == 0xFF && bytes[1] as int == 0xFE)
      || (bytes[0] as int == 0xFE && bytes[1] as int == 0xFF))
  }

  predicate TextAt(bytes: string, text: string, pos: nat) {
    pos + |text| <= |bytes| && bytes[pos..pos + |text|] == text
  }

  /** First occurrence at or after a position. */
  function FindFrom(bytes: string, text: string, pos: nat): (r: Option<nat>)
    requires pos <= |bytes|
    ensures r.Some? ==> pos <= r.value && TextAt(bytes, text, r.value) && forall p ::
      pos <= p < r.value ==> !TextAt(bytes, text, p)
    ensures r.None? ==> forall p :: pos <= p ==> !TextAt(bytes, text, p)
    decreases |bytes| - pos
  {
    if TextAt(bytes, text, pos) then Some(pos)
    else if pos == |bytes| then None
    else FindFrom(bytes, text, pos + 1)
  }

  function SkipBlanks(bytes: string, pos: nat): (r: nat)
    requires pos <= |bytes|
    ensures pos <= r <= |bytes|
    ensures forall i :: pos <= i < r ==> IsBlank(bytes[i])
    ensures r < |bytes| ==> !IsBlank(bytes[r])
    decreases |bytes| - pos
  {
    if pos < |bytes| && IsBlank(bytes[pos]) then SkipBlanks(bytes, pos + 1) else pos
  }

  /** A tag bracket or a namespace prefix comes right before the position. */
  predicate Opens(bytes: string, pos: nat) {
    0 < pos <= |bytes| && (bytes[pos - 1] == '<' || bytes[pos - 1] == ':')
  }

  /**
    The name as element text: an opener at p, blanks, the name at n, blanks,
    and a '<' at m.
   */
  predicate DefinesAt(bytes: string, name: string, p: nat, n: nat, m: nat) {
    && Opens(bytes, p) && TextAt(bytes, OPENER, p)
    && p + |OPENER| <= n && TextAt(bytes, name, n) && n + |name| <= m < |bytes| && bytes[m] == '<'
    && (forall i :: p + |OPENER| <= i < n ==> IsBlank(bytes[i]))
    && (forall i :: n + |name| <= i < m ==> IsBlank(bytes[i]))
  }

  ghost predicate Defines(bytes: string, name: string) {
    exists p, n, m :: DefinesAt(bytes, name, p, n, m)
  }

  // ----- the search -----

  /** What one found opener decides: the answer, or where to look next. */
  datatype Verdict = Found | LookFrom(pos: nat)

  function TryAt(bytes: string, name: string, pos: nat): (v: Verdict)
    requires TextAt(bytes, OPENER, pos)
    ensures v.LookFrom? ==> pos < v.pos <= |bytes|
  {
    if !Opens(bytes, pos) then LookFrom(pos + 1)
    else
      var namePos := SkipBlanks(bytes, pos + |OPENER|);
      if !TextAt(bytes, name, namePos) then LookFrom(namePos)
      else
        var after := SkipBlanks(bytes, namePos + |name|);
        if after < |bytes| && bytes[after] == '<' then Found else LookFrom(after)
  }

  /** The search from a position on. */
  predicate Search(bytes: string, name: string, pos: nat)
    requires pos <= |bytes|
    decreases |bytes| - pos
  {
    match FindFrom(bytes, OPENER, pos)
    case None => false
    case Some(p) =>
      match TryAt(bytes, name, p)
      case Found => true
      case LookFrom(next) => Search(bytes, name, next)
  }

  predicate RawDefines(bytes: string, name: string) {
    HasUtf16Mark(bytes) || Search(bytes, name, 0)
  }

  method SkipBlankBytes(bytes: string, pos: nat) returns (r: nat)
    requires pos <= |bytes|
    ensures r == SkipBlanks(bytes, pos)
  {
    r := pos;
    while r < |bytes| && IsBlank(bytes[r])
      invariant r <= |bytes| && SkipBlanks(bytes, pos) == SkipBlanks(bytes, r)
    {
      r := r + 1;
    }
  }

  lemma SearchStep(bytes: string, name: string, pos: nat)
    requires pos <= |bytes|
    ensures FindFrom(bytes, OPENER, pos).None? ==> !Search(bytes, name, pos)
    ensures FindFrom(bytes, OPENER, pos).Some? ==>
      Search(bytes, name, pos) == match TryAt(bytes, name, FindFrom(bytes, OPENER, pos).value)
                                  case Found => true
                                  case LookFrom(next) => Search(bytes, name, next)
  {
    hide TryAt, FindFrom, TextAt;
  }

  method RawDefinesShortName(bytes: string, name: string) returns (found: bool)
    ensures found == RawDefines(bytes, name)
  {
    hide Search, FindFrom, TextAt, SkipBlanks;
    if HasUtf16Mark(bytes) {
      return true;
    }
    var pos := 0;
    while true
      invariant pos <= |bytes| && Search(bytes, name, 0) == Search(bytes, name, pos)
      decreases |bytes| - pos
    {
      SearchStep(bytes, name, pos);
      var at := FindFrom(bytes, OPENER, pos);
      if at.None? {
        return false;
      }
      assert TryAt(bytes, name, at.value).LookFrom? ==> at.value < TryAt(bytes, name, at.value).pos <= |bytes|;
      if at.value == 0 || (bytes[at.value - 1] != '<' && bytes[at.value - 1] != ':') {
        pos := at.value + 1;
        continue;
      }
      var namePos := SkipBlankBytes(bytes, at.value + |OPENER|);
      if !TextAt(bytes, name, namePos) {
        pos := namePos;
        continue;
      }
      var after := SkipBlankBytes(bytes, namePos + |name|);
      if after < |bytes| && bytes[after] == '<' {
        return true;
      }
      pos := after;
    }
  }

  // ----- exactness -----

  /**
    The name's tail, from a position on, can begin the name anew once its
    leading blanks are off, and what the name goes on with is no '<'.
   */
  predicate RunsOn(name: string, i: nat)
    requires i <= |name|
  {
    var tail := name[SkipBlanks(name, i)..];
    var next := SkipBlanks(name, |tail|);
    tail <= name && next < |name| && name[next] != '<'
  }

  /**
    At position k a bracket or colon inside the name is followed by the
    beginning of an opener, or by a whole opener and a tail that runs on.
   */
  predicate HidesAt(name: string, k: nat)
    requires k < |name|
  {
    && (name[k] == '<' || name[k] == ':') && k < |name| - 1
    && (name[k + 1..] < OPENER || (OPENER <= name[k + 1..] && RunsOn(name, k + 1 + |OPENER|)))
  }

  predicate HidesNoOpener(name: string) {
    forall k :: 0 <= k < |name| ==> !HidesAt(name, k)
  }

  /** Names as identifiers are, without bracket or colon, hide nothing. */
  lemma PlainNamesHideNothing(name: string)
    requires '<' !in name && ':' !in name
    ensures HidesNoOpener(name)
  {}

  /** Neither an opener nor blanks can hold the bracket before another opener. */
  lemma NoOpenerInside(bytes: string, p: nat, q: nat)
    requires TextAt(bytes, OPENER, p) && p < q <= SkipBlanks(bytes, p + |OPENER|)
    ensures !Opens(bytes, q)
  {
    if q <= p + |OPENER| {
      assert bytes[q - 1] == bytes[p..p + |OPENER|][q - 1 - p] == OPENER[q - 1 - p];
    }
  }

  lemma CharOf(bytes: string, text: string, pos: nat, i: nat)
    requires TextAt(bytes, text, pos) && i < |text|
    ensures bytes[pos + i] == text[i]
  {
    assert bytes[pos..pos + |text|][i] == text[i];
  }

  lemma InFile(bytes: string, text: string, pos: nat)
    requires TextAt(bytes, text, pos)
    ensures pos + |text| <= |bytes|
  {}

  /** Blanks are skipped in a file as they are in a text that stands in it. */
  lemma {:induction false} SkipInside(bytes: string, text: string, n: nat, i: nat)
    requires TextAt(bytes, text, n) && i <= |text| && SkipBlanks(text, i) < |text|
    ensures SkipBlanks(bytes, n + i) == n + SkipBlanks(text, i)
    decreases |text| - i
  {
    CharOf(bytes, text, n, i);
    if IsBlank(text[i]) {
      SkipInside(bytes, text, n, i + 1);
    }
  }

  /** A trimmed text does not end in blanks. */
  lemma NotAllBlank(text: string, i: nat)
    requires Trimmed(text) && i < |text|
    ensures SkipBlanks(text, i) < |text|
  {}

  /** An opener inside the name or the blanks after it begins inside the name, behind a bracket or colon of it. */
  lemma OpenerBeginsInside(bytes: string, name: string, n: nat, q: nat)
    requires TextAt(bytes, name, n) && n < q < SkipBlanks(bytes, n + |name|)
    requires Opens(bytes, q) && TextAt(bytes, OPENER, q)
    ensures q < n + |name| && (name[q - 1 - n] == '<' || name[q - 1 - n] == ':')
    ensures name[q - n..] < OPENER || OPENER <= name[q - n..]
  {
    assert bytes[q] == 'S' by { CharOf(bytes, OPENER, q, 0); }
    CharOf(bytes, name, n, q - 1 - n);
    var rest := name[q - n..];
    forall i | 0 <= i < |rest| && i < |OPENER| ensures rest[i] == OPENER[i] {
      CharOf(bytes, name, n, q - n + i);
      CharOf(bytes, OPENER, q, i);
    }
    if |rest| < |OPENER| {
      assert OPENER[..|rest|] == rest;
    } else {
      assert rest[..|OPENER|] == OPENER;
    }
  }

  /** A name that begins where the tail of another copy stands goes on as the name does. */
  lemma TailRunsOn(bytes: string, name: string, n: nat, i: nat)
    requires TextAt(bytes, name, n) && 0 < i <= |name| && Trimmed(name)
    requires TextAt(bytes, name, SkipBlanks(bytes, n + i))
    ensures SkipBlanks(bytes, n + |name|) < |bytes|
    ensures bytes[SkipBlanks(bytes, n + |name|)] != '<' ==> RunsOn(name, i)
  {
    hide *;
    var from, skip := SkipBlanks(bytes, n + i), SkipBlanks(name, i);
    SkipEnds(bytes, name, n, i);
    TailBegins(bytes, name, n, from, skip);
    var next := |name| - skip;
    NotAllBlank(name, next);
    SkipInside(bytes, name, from, next);
    CharOf(bytes, name, from, SkipBlanks(name, next));
    InFile(bytes, name, from);
    if bytes[SkipBlanks(bytes, n + |name|)] != '<' {
      RunsOnIf(name, i);
    }
  }

  /** Where the blanks behind the first part of the name end, and those behind the tail. */
  lemma SkipEnds(bytes: string, name: string, n: nat, i: nat)
    requires TextAt(bytes, name, n) && 0 < i <= |name| && Trimmed(name)
    ensures 0 < SkipBlanks(name, i) <= |name|
    ensures SkipBlanks(name, i) < |name| ==> SkipBlanks(bytes, n + i) == n + SkipBlanks(name, i)
    ensures SkipBlanks(bytes, SkipBlanks(bytes, n + i) + |name| - SkipBlanks(name, i)) == SkipBlanks(bytes, n + |name|)
  {
    if i < |name| {
      NotAllBlank(name, i);
      SkipInside(bytes, name, n, i);
    } else {
      SkipTwice(bytes, n + i);
    }
  }

  lemma RunsOnIf(name: string, i: nat)
    requires i <= |name| && name[SkipBlanks(name, i)..] <= name
    requires var next := SkipBlanks(name, |name| - SkipBlanks(name, i)); next < |name| && name[next] != '<'
    ensures RunsOn(name, i)
  {
    hide SkipBlanks;
  }

  lemma TailBegins(bytes: string, name: string, n: nat, from: nat, skip: nat)
    requires TextAt(bytes, name, n) && TextAt(bytes, name, from) && skip <= |name|
    requires skip < |name| ==> from == n + skip
    ensures name[skip..] <= name
  {
    var tail := name[skip..];
    forall j | 0 <= j < |tail| ensures tail[j] == name[j] {
      CharOf(bytes, name, from, j);
      CharOf(bytes, name, n, skip + j);
    }
    assert name[..|tail|] == tail;
  }

  lemma {:induction false} SkipTwice(bytes: string, pos: nat)
    requires pos <= |bytes|
    ensures SkipBlanks(bytes, SkipBlanks(bytes, pos)) == SkipBlanks(bytes, pos)
  {}

  /** A trimmed name sits where skipping the blanks stops. */
  lemma GreedyIsExact(bytes: string, name: string, p: nat, n: nat, m: nat)
    requires DefinesAt(bytes, name, p, n, m) && name != "" && Trimmed(name)
    ensures n == SkipBlanks(bytes, p + |OPENER|) && m == SkipBlanks(bytes, n + |name|)
  {
    assert bytes[n] == bytes[n..n + |name|][0] == name[0];
  }

  /** A try that finds the name and jumps past a definition found a name that hides its opener. */
  lemma PassedIsHidden(bytes: string, name: string, n: nat, p: nat)
    requires TextAt(bytes, name, n) && name != "" && Trimmed(name)
    requires n < p < SkipBlanks(bytes, n + |name|) && Opens(bytes, p) && TextAt(bytes, OPENER, p)
    requires TextAt(bytes, name, SkipBlanks(bytes, p + |OPENER|))
    requires var after := SkipBlanks(bytes, n + |name|); after < |bytes| ==> bytes[after] != '<'
    ensures !HidesNoOpener(name)
  {
    hide *;
    OpenerBeginsInside(bytes, name, n, p);
    var k := p - 1 - n;
    OpenerIsLong(name, k);
    if OPENER <= name[k + 1..] {
      TailRunsOn(bytes, name, n, k + 1 + |OPENER|);
    }
    HidesThere(name, k);
  }

  lemma HidesThere(name: string, k: nat)
    requires k < |name| - 1 && (name[k] == '<' || name[k] == ':')
    requires name[k + 1..] < OPENER
      || (OPENER <= name[k + 1..] && k + 1 + |OPENER| <= |name| && RunsOn(name, k + 1 + |OPENER|))
    ensures !HidesNoOpener(name)
  {
    hide RunsOn;
    assert HidesAt(name, k);
  }

  lemma OpenerIsLong(name: string, k: nat)
    requires k < |name|
    ensures OPENER <= name[k + 1..] ==> k + 1 + |OPENER| <= |name|
  {}

  /** The jump after a failed try passes no definition. */
  lemma JumpPassesNothing(bytes: string, name: string, pos: nat, p: nat, n: nat, m: nat)
    requires TextAt(bytes, OPENER, pos) && TryAt(bytes, name, pos).LookFrom?
    requires name != "" && Trimmed(name) && HidesNoOpener(name)
    requires DefinesAt(bytes, name, p, n, m) && pos <= p
    ensures TryAt(bytes, name, pos).pos <= p
  {
    hide HidesNoOpener, Trimmed, SkipBlanks, FindFrom;
    GreedyIsExact(bytes, name, p, n, m);
    if p < TryAt(bytes, name, pos).pos && pos < p && Opens(bytes, pos) {
      var namePos := SkipBlanks(bytes, pos + |OPENER|);
      if p <= namePos {
        NoOpenerInside(bytes, pos, p);
      } else {
        PassedIsHidden(bytes, name, namePos, p);
      }
    }
  }

  lemma {:induction false} SearchFinds(bytes: string, name: string, pos: nat, p: nat, n: nat, m: nat)
    requires pos <= p && DefinesAt(bytes, name, p, n, m)
    requires name != "" && Trimmed(name) && HidesNoOpener(name)
    ensures Search(bytes, name, pos)
    decreases |bytes| - pos
  {
    hide TryAt, DefinesAt, HidesNoOpener, Trimmed;
    assert TextAt(bytes, OPENER, p) by { OpenerThere(bytes, name, p, n, m); }
    var at := FindFrom(bytes, OPENER, pos).value;
    match TryAt(bytes, name, at)
    case Found =>
    case LookFrom(next) =>
      JumpPassesNothing(bytes, name, at, p, n, m);
      SearchFinds(bytes, name, next, p, n, m);
  }

  lemma OpenerThere(bytes: string, name: string, p: nat, n: nat, m: nat)
    requires DefinesAt(bytes, name, p, n, m)
    ensures TextAt(bytes, OPENER, p)
  {}

  /** Whatever the name, a hit is a definition. */
  lemma {:induction false} SearchIsSound(bytes: string, name: string, pos: nat)
    requires pos <= |bytes| && Search(bytes, name, pos)
    ensures Defines(bytes, name)
    decreases |bytes| - pos
  {
    hide FindFrom;
    var at := FindFrom(bytes, OPENER, pos).value;
    match TryAt(bytes, name, at)
    case Found =>
      var n := SkipBlanks(bytes, at + |OPENER|);
      assert DefinesAt(bytes, name, at, n, SkipBlanks(bytes, n + |name|));
    case LookFrom(next) => SearchIsSound(bytes, name, next);
  }

  /** Outside 16-bit files the filter answers exactly whether the name is defined. */
  lemma FilterIsExact(bytes: string, name: string)
    requires !HasUtf16Mark(bytes) && name != "" && Trimmed(name) && HidesNoOpener(name)
    ensures RawDefines(bytes, name) <==> Defines(bytes, name)
  {
    if RawDefines(bytes, name) {
      SearchIsSound(bytes, name, 0);
    }
    if Defines(bytes, name) {
      var p, n, m :| DefinesAt(bytes, name, p, n, m);
      SearchFinds(bytes, name, 0, p, n, m);
    }
  }

  /** An element written without blanks inside its start tag is found, whatever surrounds it. */
  lemma WrittenNameIsFound(before: string, pad: string, name: string, pad': string, rest: string)
    requires name != "" && Trimmed(name) && HidesNoOpener(name)
    requires (forall c <- pad :: IsBlank(c)) && forall c <- pad' :: IsBlank(c)
    ensures RawDefines(before + "<" + OPENER + pad + name + pad' + "<" + rest, name)
  {
    var bytes := before + "<" + OPENER + pad + name + pad' + "<" + rest;
    var p := |before| + 1;
    var n := p + |OPENER| + |pad|;
    var m := n + |name| + |pad'|;
    assert bytes[p..p + |OPENER|] == OPENER && bytes[n..n + |name|] == name;
    forall i | p + |OPENER| <= i < n ensures IsBlank(bytes[i]) {
      assert bytes[i] == pad[i - p - |OPENER|];
    }
    forall i | n + |name| <= i < m ensures IsBlank(bytes[i]) {
      assert bytes[i] == pad'[i - n - |name|];
    }
    assert bytes[p - 1] == '<' && bytes[m] == '<';
    assert DefinesAt(bytes, name, p, n, m);
    SearchFinds(bytes, name, 0, p, n, m);
  }

  // ----- names the search can miss -----

  /** How a file goes on behind a name that hides the opener of its own definition. */
  function Following(name: string, k: nat): string
    requires k < |name| && HidesAt(name, k)
  {
    if name[k + 1..] < OPENER then OPENER[|name| - k - 1..] + name
    else name[|name| - SkipBlanks(name, k + 1 + |OPENER|)..]
  }

  function HidingFile(name: string, following: string): string {
    "<" + OPENER + name + following + "<"
  }

  lemma Sandwiched(a: string, b: string, c: string)
    ensures TextAt(a + b + c, b, |a|)
  {
    assert (a + b + c)[|a|..|a| + |b|] == b;
  }

  lemma HidingFileParts(name: string, following: string)
    ensures var bytes := HidingFile(name, following);
      && |bytes| == |OPENER| + |name| + |following| + 2 && bytes[0] == '<' && bytes[|bytes| - 1] == '<'
      && TextAt(bytes, OPENER, 1) && TextAt(bytes, name, 1 + |OPENER|)
        && TextAt(bytes, following, 1 + |OPENER| + |name|)
  {
    hide TextAt;
    var opener := OPENER;
    Parts(opener, name, following);
  }

  lemma Parts(opener: string, name: string, following: string)
    ensures var bytes := "<" + opener + name + following + "<";
      && |bytes| == |opener| + |name| + |following| + 2 && bytes[0] == '<' && bytes[|bytes| - 1] == '<'
      && TextAt(bytes, opener, 1) && TextAt(bytes, name, 1 + |opener|)
        && TextAt(bytes, following, 1 + |opener| + |name|)
  {
    hide TextAt;
    var bytes := "<" + opener + name + following + "<";
    assert bytes == "<" + opener + (name + following + "<");
    assert bytes == ("<" + opener) + name + (following + "<");
    assert bytes == ("<" + opener + name) + following + "<";
    Sandwiched("<", opener, name + following + "<");
    Sandwiched("<" + opener, name, following + "<");
    Sandwiched("<" + opener + name, following, "<");
  }

  /** Near the end of a file there is no room for another hit. */
  lemma {:induction false} NoRoomLeft(bytes: string, name: string, pos: nat)
    requires pos <= |bytes| && pos + |OPENER| + |name| >= |bytes|
    ensures !Search(bytes, name, pos)
    decreases |bytes| - pos
  {
    hide FindFrom;
    if FindFrom(bytes, OPENER, pos).Some? {
      var at := FindFrom(bytes, OPENER, pos).value;
      if TryAt(bytes, name, at).LookFrom? {
        NoRoomLeft(bytes, name, TryAt(bytes, name, at).pos);
      }
    }
  }

  /** A try that finds the name but no '<' after it jumps past the name. */
  lemma TryJumps(bytes: string, name: string, pos: nat)
    requires TextAt(bytes, OPENER, pos) && TextAt(bytes, name, pos + |OPENER|) && name != "" && !IsBlank(name[0])
    requires var after := SkipBlanks(bytes, pos + |OPENER| + |name|); after < |bytes| && bytes[after] != '<'
    ensures Opens(bytes, pos) ==>
      TryAt(bytes, name, pos).LookFrom? && TryAt(bytes, name, pos).pos >= pos + |OPENER| + |name|
  {
    hide TextAt, IsBlank;
    CharOf(bytes, name, pos + |OPENER|, 0);
    InFile(bytes, name, pos + |OPENER|);
    var opener := OPENER;
    assert SkipBlanks(bytes, pos + |opener|) == pos + |opener|;
  }

  lemma OpenerBegins(bytes: string, pos: nat)
    ensures TextAt(bytes, OPENER, pos) ==> bytes[pos] == 'S'
  {
    if TextAt(bytes, OPENER, pos) {
      CharOf(bytes, OPENER, pos, 0);
    }
  }

  lemma FoundAtOne(bytes: string)
    requires |bytes| > 0 && bytes[0] == '<' && TextAt(bytes, OPENER, 1)
    ensures FindFrom(bytes, OPENER, 0) == Some(1) && !HasUtf16Mark(bytes)
  {
    OpenerBegins(bytes, 0);
    hide TextAt;
  }

  /** The filter denies such a file: the first try jumps over what is left of room for a hit. */
  lemma HidingFileIsDenied(name: string, following: string)
    requires name != "" && Trimmed(name) && |following| < |OPENER| + |name|
    requires SkipBlanks(following, 0) < |following| && following[SkipBlanks(following, 0)] != '<'
    ensures !HasUtf16Mark(HidingFile(name, following)) && !RawDefines(HidingFile(name, following), name)
  {
    var bytes, opener := HidingFile(name, following), OPENER;
    HidingFileParts(name, following);
    FoundAtOne(bytes);
    SkipInside(bytes, following, 1 + |opener| + |name|, 0);
    CharOf(bytes, following, 1 + |opener| + |name|, SkipBlanks(following, 0));
    TryJumps(bytes, name, 1);
    SearchStep(bytes, name, 0);
    hide TextAt, HidingFile, Search, TryAt, SkipBlanks, FindFrom;
    NoRoomLeft(bytes, name, TryAt(bytes, name, 1).pos);
  }

  /** How the following text begins, and how long it is. */
  lemma FollowingJumps(name: string, k: nat)
    requires k < |name| && HidesAt(name, k) && Trimmed(name)
    ensures var f := Following(name, k);
      |f| < |OPENER| + |name| && SkipBlanks(f, 0) < |f| && f[SkipBlanks(f, 0)] != '<'
  {
    if name[k + 1..] < OPENER {
      OpenerRestJumps(name, |name| - k - 1);
    } else {
      hide SkipBlanks, TextAt;
      NameRestJumps(name, |name| - SkipBlanks(name, k + 1 + |OPENER|));
    }
  }

  lemma OpenerRestJumps(name: string, i: nat)
    requires 0 < i < |OPENER|
    ensures var f := OPENER[i..] + name; |f| < |OPENER| + |name| && SkipBlanks(f, 0) == 0 < |f| && f[0] != '<'
  {
    OpenerChars(i);
    assert OPENER[i..][0] == OPENER[i];
  }

  lemma OpenerChars(i: nat)
    requires i < |OPENER|
    ensures OPENER[i] != '<' && !IsBlank(OPENER[i])
  {}

  lemma NameRestJumps(name: string, i: nat)
    requires i < |name| && Trimmed(name)
    requires var next := SkipBlanks(name, i); next < |name| && name[next] != '<'
    ensures var f := name[i..]; SkipBlanks(f, 0) < |f| && f[SkipBlanks(f, 0)] != '<'
  {
    var f := name[i..];
    assert f[|f| - 1] == name[|name| - 1];
    assert TextAt(name, f, i);
    SkipInside(name, f, i, 0);
  }

  /** The opener that the name begins and the following text ends, and the name again. */
  lemma BegunOpener(opener: string, name: string, k: nat)
    requires k < |name| && name[k + 1..] < opener
    ensures var f := opener[|name| - k - 1..] + name; var bytes := "<" + opener + name + f + "<";
      TextAt(bytes, opener, 1 + |opener| + k + 1) && TextAt(bytes, name, 1 + |opener| + |f|) && |f| == |opener| + k + 1
  {
    hide TextAt;
    var u, r := name[..k + 1], name[k + 1..];
    var rest := opener[|r|..];
    var bytes := "<" + opener + name + (rest + name) + "<";
    assert name == u + r && opener == r + rest;
    assert bytes == ("<" + opener + u) + opener + (name + "<");
    assert bytes == ("<" + opener + name + rest) + name + "<";
    Sandwiched("<" + opener + u, opener, name + "<");
    Sandwiched("<" + opener + name + rest, name, "<");
  }

  /** The opener inside the name. */
  lemma WholeOpener(opener: string, name: string, k: nat, following: string)
    requires k + 1 + |opener| <= |name| && opener <= name[k + 1..]
    ensures TextAt("<" + opener + name + following + "<", opener, 1 + |opener| + k + 1)
  {
    hide TextAt;
    var u, v := name[..k + 1], name[k + 1 + |opener|..];
    assert name[k + 1..] == opener + v;
    assert name == u + (opener + v);
    assert "<" + opener + name + following + "<" == ("<" + opener + u) + opener + (v + following + "<");
    Sandwiched("<" + opener + u, opener, v + following + "<");
  }

  /** The name again where its tail stands. */
  lemma NameFromTail(before: string, name: string, skip: nat)
    requires skip <= |name| && name[skip..] <= name
    ensures TextAt(before + name + name[|name| - skip..] + "<", name, |before| + skip)
  {
    hide TextAt;
    var start, tail, rest := name[..skip], name[skip..], name[|name| - skip..];
    assert name == start + tail;
    assert name == tail + rest;
    assert before + name + rest + "<" == (before + start) + (tail + rest) + "<";
    Sandwiched(before + start, name, "<");
  }

  lemma FollowingWhole(name: string, k: nat)
    requires k < |name| && HidesAt(name, k) && !(name[k + 1..] < OPENER)
    ensures k + 1 + |OPENER| <= |name| && OPENER <= name[k + 1..]
    ensures var skip := SkipBlanks(name, k + 1 + |OPENER|);
      && skip <= |name| && name[skip..] <= name && Following(name, k) == name[|name| - skip..]
  {}

  predicate BlankAt(text: string, i: nat) {
    i < |text| && IsBlank(text[i])
  }

  /** The second opener and name of a hiding file, blanks between them. */
  lemma SecondElement(name: string, k: nat)
    requires k < |name| && HidesAt(name, k)
    ensures var bytes, f := HidingFile(name, Following(name, k)), Following(name, k);
      && TextAt(bytes, OPENER, 1 + |OPENER| + k + 1) && TextAt(bytes, name, 1 + |OPENER| + |f|)
      && |f| >= |OPENER| + k + 1
      && forall i: nat :: |OPENER| + k + 1 <= i < |f| ==> BlankAt(name, i)
  {
    hide TextAt, SkipBlanks, IsBlank, HidesAt;
    var opener := OPENER;
    if name[k + 1..] < opener {
      BegunOpener(opener, name, k);
    } else {
      FollowingWhole(name, k);
      WholeOpener(opener, name, k, Following(name, k));
      NameFromTail("<" + opener, name, SkipBlanks(name, k + 1 + |opener|));
    }
  }

  /** And the name is defined in it. */
  lemma HidingFileDefines(name: string, k: nat)
    requires k < |name| && HidesAt(name, k)
    ensures Defines(HidingFile(name, Following(name, k)), name)
  {
    hide *;
    var f := Following(name, k);
    var bytes, first := HidingFile(name, f), 1 + |OPENER|;
    HidingFileParts(name, f);
    SecondElement(name, k);
    var p, n := first + k + 1, first + |f|;
    CharOf(bytes, name, first, k);
    BracketAt(name, k);
    forall i | p + |OPENER| <= i < n ensures IsBlank(bytes[i]) {
      BlankThere(bytes, name, first, i - first);
    }
    DefinedThere(bytes, name, p, n);
  }

  lemma BlankThere(bytes: string, name: string, n: nat, i: nat)
    requires TextAt(bytes, name, n) && BlankAt(name, i)
    ensures n + i < |bytes| && IsBlank(bytes[n + i])
  {
    CharOf(bytes, name, n, i);
  }

  lemma BracketAt(name: string, k: nat)
    requires k < |name| && HidesAt(name, k)
    ensures name[k] == '<' || name[k] == ':'
  {
    hide RunsOn;
  }

  lemma DefinedThere(bytes: string, name: string, p: nat, n: nat)
    requires 0 < p < |bytes| && (bytes[p - 1] == '<' || bytes[p - 1] == ':') && TextAt(bytes, OPENER, p)
    requires p + |OPENER| <= n && n + |name| == |bytes| - 1 && TextAt(bytes, name, n) && bytes[|bytes| - 1] == '<'
    requires forall i :: p + |OPENER| <= i < n ==> IsBlank(bytes[i])
    ensures Defines(bytes, name)
  {
    hide TextAt;
    assert DefinesAt(bytes, name, p, n, n + |name|);
  }

  ghost predicate AlwaysExact(name: string) {
    forall bytes :: !HasUtf16Mark(bytes) ==> (RawDefines(bytes, name) <==> Defines(bytes, name))
  }

  /** The filter is exact on every file if and only if the name hides no opener. */
  lemma ExactIffNothingHidden(name: string)
    requires name != "" && Trimmed(name)
    ensures AlwaysExact(name) <==> HidesNoOpener(name)
  {
    hide RawDefines, Defines, Trimmed, HidesAt;
    if HidesNoOpener(name) {
      forall bytes | !HasUtf16Mark(bytes) ensures RawDefines(bytes, name) <==> Defines(bytes, name) {
        FilterIsExact(bytes, name);
      }
    } else {
      var k :| 0 <= k < |name| && HidesAt(name, k);
      FollowingJumps(name, k);
      HidingFileIsDenied(name, Following(name, k));
      HidingFileDefines(name, k);
    }
  }
}
