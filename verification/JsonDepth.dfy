/**
  The depth guard in front of the JSON parser, against the nesting of every
  value in every spelling RFC 8259 (sections 2 to 7) allows.
 */
module JsonDepth {
  import opened Wrappers

  // ----- the guard -----

  datatype State = State(depth: nat, inString: bool, escaped: bool)

  const INITIAL := State(0, false, false)

  /** One character; None once the limit is exceeded. */
  function Step(s: State, chr: char, maxDepth: nat): Option<State> {
    if s.inString then
      if s.escaped then Some(s.(escaped := false))
      else if chr == '\\' then Some(s.(escaped := true))
      else if chr == '\"' then Some(s.(inString := false))
      else Some(s)
    else if chr == '\"' then Some(s.(inString := true))
    else if chr == '[' || chr == '{' then
      if s.depth + 1 > maxDepth then None else Some(s.(depth := s.depth + 1))
    else if (chr == ']' || chr == '}') && s.depth > 0 then Some(s.(depth := s.depth - 1))
    else Some(s)
  }

  function Scan(s: State, line: string, maxDepth: nat): Option<State>
    decreases |line|
  {
    if line == "" then Some(s)
    else
      match Step(s, line[0], maxDepth)
      case None => None
      case Some(next) => Scan(next, line[1..], maxDepth)
  }

  method ExceedsMaxDepth(line: string, maxDepth: nat) returns (exceeds: bool)
    ensures exceeds <==> Scan(INITIAL, line, maxDepth) == None
  {
    var depth, inString, escaped := 0, false, false;
    for i := 0 to |line|
      invariant depth >= 0
      invariant Scan(INITIAL, line, maxDepth) == Scan(State(depth, inString, escaped), line[i..], maxDepth)
    {
      assert line[i..][1..] == line[i + 1..];
      var chr := line[i];
      if inString {
        if escaped {
          escaped := false;
        } else if chr == '\\' {
          escaped := true;
        } else if chr == '\"' {
          inString := false;
        }
        continue;
      }
      if chr == '\"' {
        inString := true;
      } else if chr == '[' || chr == '{' {
        depth := depth + 1;
        if depth > maxDepth {
          return true;
        }
      } else if (chr == ']' || chr == '}') && depth > 0 {
        depth := depth - 1;
      }
    }
    return false;
  }

  lemma {:induction false} ScanConcat(s: State, a: string, b: string, maxDepth: nat)
    ensures Scan(s, a + b, maxDepth) ==
      match Scan(s, a, maxDepth) case None => None case Some(mid) => Scan(mid, b, maxDepth)
    decreases |a|
  {
    if a == "" {
      assert a + b == b;
    } else {
      assert (a + b)[1..] == a[1..] + b;
      if Step(s, a[0], maxDepth).Some? {
        ScanConcat(Step(s, a[0], maxDepth).value, a[1..], b, maxDepth);
      }
    }
  }

  // ----- JSON values, spelled out -----

  /** A character of a string: itself, or a backslash and the character after it. */
  datatype StringPart = Plain(c: char) | Escape(c: char)

  /** A value with the white space and the escapes of one spelling. */
  datatype Value =
    | Scalar(text: string) // a number, true, false or null
    | Text(parts: seq<StringPart>)
    | Array(empty: string, items: seq<Item>)
    | Object(empty: string, members: seq<Member>)

  datatype Item = Item(before: string, value: Value, after: string)

  datatype Member = Member(before: string, key: seq<StringPart>, beforeColon: string, item: Item)

  /** Nesting of arrays and objects. */
  function Depth(v: Value): nat
    decreases v
  {
    match v
    case Scalar(_) => 0
    case Text(_) => 0
    case Array(_, items) => 1 + ItemsDepth(items)
    case Object(_, members) => 1 + MembersDepth(members)
  }

  function ItemsDepth(items: seq<Item>): nat
    decreases items
  {
    if items == [] then 0 else Max(Depth(items[0].value), ItemsDepth(items[1..]))
  }

  function MembersDepth(members: seq<Member>): nat
    decreases members
  {
    if members == [] then 0 else Max(Depth(members[0].item.value), MembersDepth(members[1..]))
  }

  function Max(a: nat, b: nat): nat {
    if a >= b then a else b
  }

  // ----- legal spellings -----

  predicate IsSpace(text: string) {
    forall c <- text :: c == ' ' || c == '\t' || c == '\n' || c == '\r'
  }

  /** Numbers and literals hold none of the characters that structure a text. */
  predicate IsScalarText(text: string) {
    forall c <- text :: ('0' <= c <= '9') || ('a' <= c <= 'z') || ('A' <= c <= 'Z') || c == '+' || c == '-' || c == '.'
  }

  predicate LegalParts(parts: seq<StringPart>) {
    forall p <- parts ::
      match p
      case Plain(c) => c != '\"' && c != '\\' && c >= ' '
      case Escape(c) => c in {'\"', '\\', '/', 'b', 'f', 'n', 'r', 't', 'u'}
  }

  predicate Legal(v: Value)
    decreases v
  {
    match v
    case Scalar(text) => IsScalarText(text)
    case Text(parts) => LegalParts(parts)
    case Array(empty, items) => IsSpace(empty) && LegalItems(items)
    case Object(empty, members) => IsSpace(empty) && LegalMembers(members)
  }

  predicate LegalItems(items: seq<Item>)
    decreases items
  {
    items != [] ==>
      IsSpace(items[0].before) && Legal(items[0].value) && IsSpace(items[0].after) && LegalItems(items[1..])
  }

  predicate LegalMembers(members: seq<Member>)
    decreases members
  {
    members != [] ==>
      && IsSpace(members[0].before) && LegalParts(members[0].key) && IsSpace(members[0].beforeColon)
      && IsSpace(members[0].item.before) && Legal(members[0].item.value) && IsSpace(members[0].item.after)
      && LegalMembers(members[1..])
  }

  // ----- spelling -----

  function SpellParts(parts: seq<StringPart>): string {
    if parts == [] then ""
    else (match parts[0] case Plain(c) => [c] case Escape(c) => ['\\', c]) + SpellParts(parts[1..])
  }

  function Quoted(parts: seq<StringPart>): string {
    "\"" + SpellParts(parts) + "\""
  }

  function Spell(v: Value): string
    decreases v
  {
    match v
    case Scalar(text) => text
    case Text(parts) => Quoted(parts)
    case Array(empty, items) => "[" + empty + SpellItems(items, true) + "]"
    case Object(empty, members) => "{" + empty + SpellMembers(members, true) + "}"
  }

  /** The items, each after a comma except the very first. */
  function SpellItems(items: seq<Item>, first: bool): string
    decreases items
  {
    if items == [] then ""
    else
      (if first then "" else ",")
      + (items[0].before + (Spell(items[0].value) + (items[0].after + SpellItems(items[1..], false))))
  }

  function SpellMembers(members: seq<Member>, first: bool): string
    decreases members
  {
    if members == [] then ""
    else
      var m := members[0];
      (if first then "" else ",")
      + (m.before + (Quoted(m.key) + (m.beforeColon
        + (":" + (m.item.before + (Spell(m.item.value) + (m.item.after + SpellMembers(members[1..], false))))))))
  }

  // ----- scanning the pieces -----

  /** Outside strings these characters change nothing. */
  predicate Neutral(text: string) {
    forall c <- text :: c != '\"' && c != '[' && c != '{' && c != ']' && c != '}'
  }

  lemma {:induction false} ScanNeutral(s: State, text: string, maxDepth: nat)
    requires !s.inString && Neutral(text)
    ensures Scan(s, text, maxDepth) == Some(s)
    decreases |text|
  {
    if text != "" {
      assert text[0] in text;
      forall c | c in text[1..] ensures c in text {}
      ScanNeutral(s, text[1..], maxDepth);
    }
  }

  lemma {:induction false} ScanParts(s: State, parts: seq<StringPart>, maxDepth: nat)
    requires s.inString && !s.escaped && LegalParts(parts)
    ensures Scan(s, SpellParts(parts), maxDepth) == Some(s)
    decreases |parts|
  {
    if parts != [] {
      assert parts[0] in parts;
      forall p | p in parts[1..] ensures p in parts {}
      ScanParts(s, parts[1..], maxDepth);
      var head := match parts[0] case Plain(c) => [c] case Escape(c) => ['\\', c];
      ScanConcat(s, head, SpellParts(parts[1..]), maxDepth);
      ScanPart(s, parts[0], maxDepth);
    }
  }

  lemma ScanPart(s: State, part: StringPart, maxDepth: nat)
    requires s.inString && !s.escaped
    requires part.Plain? ==> part.c != '\"' && part.c != '\\'
    ensures Scan(s, match part case Plain(c) => [c] case Escape(c) => ['\\', c], maxDepth) == Some(s)
  {
    match part
    case Plain(c) => ScanOne(s, c, maxDepth);
    case Escape(c) =>
      var mid := s.(escaped := true);
      assert ['\\', c] == ['\\'] + [c];
      ScanConcat(s, ['\\'], [c], maxDepth);
      ScanOne(s, '\\', maxDepth);
      ScanOne(mid, c, maxDepth);
  }

  lemma ScanOne(s: State, c: char, maxDepth: nat)
    ensures Scan(s, [c], maxDepth) == Step(s, c, maxDepth)
  {
    assert [c][1..] == "";
    if Step(s, c, maxDepth).Some? {
      assert Scan(Step(s, c, maxDepth).value, "", maxDepth) == Step(s, c, maxDepth);
    }
  }

  lemma ScanQuoted(s: State, parts: seq<StringPart>, maxDepth: nat)
    requires !s.inString && !s.escaped && LegalParts(parts)
    ensures Scan(s, Quoted(parts), maxDepth) == Some(s)
  {
    hide Scan, LegalParts, SpellParts;
    var inside := s.(inString := true);
    ScanConcat(s, "\"" + SpellParts(parts), "\"", maxDepth);
    ScanConcat(s, "\"", SpellParts(parts), maxDepth);
    ScanOne(s, '\"', maxDepth);
    ScanParts(inside, parts, maxDepth);
    ScanOne(inside, '\"', maxDepth);
  }

  // ----- scanning values -----

  /** What a piece of that depth does to a state at depth d: back where it was, or over the limit. */
  function After(s: State, depth: nat, maxDepth: nat): Option<State> {
    if s.depth + depth > maxDepth then None else Some(s)
  }

  predicate Outside(s: State, maxDepth: nat) {
    !s.inString && !s.escaped && s.depth <= maxDepth
  }

  lemma {:induction false} ScanValue(s: State, v: Value, maxDepth: nat)
    requires Outside(s, maxDepth) && Legal(v)
    ensures Scan(s, Spell(v), maxDepth) == After(s, Depth(v), maxDepth)
    decreases v
  {
    hide Scan, IsScalarText, IsSpace, Neutral;
    match v
    case Scalar(text) =>
      ScalarNeutral(text);
      ScanNeutral(s, text, maxDepth);
    case Text(parts) =>
      ScanQuoted(s, parts, maxDepth);
    case Array(empty, items) =>
      if s.depth + 1 <= maxDepth {
        ScanItems(Deeper(s), items, true, maxDepth);
      }
      ScanEnclosed(s, '[', ']', empty, SpellItems(items, true), ItemsDepth(items), maxDepth);
    case Object(empty, members) =>
      if s.depth + 1 <= maxDepth {
        ScanMembers(Deeper(s), members, true, maxDepth);
      }
      ScanEnclosed(s, '{', '}', empty, SpellMembers(members, true), MembersDepth(members), maxDepth);
  }

  function Deeper(s: State): State {
    s.(depth := s.depth + 1)
  }

  /** A bracketed body: one deeper inside, back outside. */
  lemma ScanEnclosed(s: State, opening: char, closing: char, empty: string, body: string, depth: nat, maxDepth: nat)
    requires Outside(s, maxDepth) && IsSpace(empty)
    requires (opening == '[' && closing == ']') || (opening == '{' && closing == '}')
    requires s.depth + 1 <= maxDepth ==> Scan(Deeper(s), body, maxDepth) == After(Deeper(s), depth, maxDepth)
    ensures Scan(s, [opening] + empty + body + [closing], maxDepth) == After(s, 1 + depth, maxDepth)
  {
    SpaceNeutral(empty);
    hide Scan, IsSpace, Neutral;
    ScanConcat(s, [opening] + empty + body, [closing], maxDepth);
    ScanConcat(s, [opening] + empty, body, maxDepth);
    ScanConcat(s, [opening], empty, maxDepth);
    ScanOne(s, opening, maxDepth);
    if s.depth + 1 <= maxDepth {
      ScanNeutral(Deeper(s), empty, maxDepth);
      ScanOne(Deeper(s), closing, maxDepth);
    }
  }

  lemma ScalarNeutral(text: string)
    requires IsScalarText(text)
    ensures Neutral(text)
  {}

  lemma SpaceNeutral(text: string)
    requires IsSpace(text)
    ensures Neutral(text)
  {}

  lemma CommaNeutral(first: bool)
    ensures Neutral(if first then "" else ",") && Neutral(":")
  {}

  /** A neutral text in front changes nothing. */
  lemma SkipNeutral(s: State, text: string, rest: string, maxDepth: nat)
    requires !s.inString && Neutral(text)
    ensures Scan(s, text + rest, maxDepth) == Scan(s, rest, maxDepth)
  {
    ScanConcat(s, text, rest, maxDepth);
    ScanNeutral(s, text, maxDepth);
  }

  lemma {:induction false} ScanItems(s: State, items: seq<Item>, first: bool, maxDepth: nat)
    requires Outside(s, maxDepth) && LegalItems(items)
    ensures Scan(s, SpellItems(items, first), maxDepth) == After(s, ItemsDepth(items), maxDepth)
    decreases items
  {
    if items == [] {
      ScanNeutral(s, "", maxDepth);
    } else {
      hide Scan, IsSpace, Neutral, Spell, Depth;
      ScanItem(s, items[0], maxDepth);
      ScanItems(s, items[1..], false, maxDepth);
      CommaNeutral(first);
      SpaceNeutral(items[0].before);
      SpaceNeutral(items[0].after);
      var rest := SpellItems(items[1..], false);
      SkipNeutral(s, if first then ""
        else ",", items[0].before + (Spell(items[0].value) + (items[0].after + rest)), maxDepth);
      SkipNeutral(s, items[0].before, Spell(items[0].value) + (items[0].after + rest), maxDepth);
      ScanConcat(s, Spell(items[0].value), items[0].after + rest, maxDepth);
      SkipNeutral(s, items[0].after, rest, maxDepth);
    }
  }

  lemma {:induction false} ScanItem(s: State, item: Item, maxDepth: nat)
    requires Outside(s, maxDepth) && Legal(item.value)
    ensures Scan(s, Spell(item.value), maxDepth) == After(s, Depth(item.value), maxDepth)
    decreases item
  {
    ScanValue(s, item.value, maxDepth);
  }

  lemma {:induction false} ScanMember(s: State, member: Member, maxDepth: nat)
    requires Outside(s, maxDepth) && Legal(member.item.value)
    ensures Scan(s, Spell(member.item.value), maxDepth) == After(s, Depth(member.item.value), maxDepth)
    decreases member
  {
    ScanItem(s, member.item, maxDepth);
  }

  lemma {:induction false} ScanMembers(s: State, members: seq<Member>, first: bool, maxDepth: nat)
    requires Outside(s, maxDepth) && LegalMembers(members)
    ensures Scan(s, SpellMembers(members, first), maxDepth) == After(s, MembersDepth(members), maxDepth)
    decreases members
  {
    if members == [] {
      ScanNeutral(s, "", maxDepth);
    } else {
      hide Scan, IsSpace, Neutral, Spell, Depth, Quoted, LegalParts;
      var m := members[0];
      ScanMember(s, m, maxDepth);
      ScanMembers(s, members[1..], false, maxDepth);
      CommaNeutral(first);
      SpaceNeutral(m.before);
      SpaceNeutral(m.beforeColon);
      SpaceNeutral(m.item.before);
      SpaceNeutral(m.item.after);
      var rest := SpellMembers(members[1..], false);
      var fromValue := Spell(m.item.value) + (m.item.after + rest);
      var fromKey := Quoted(m.key) + (m.beforeColon + (":" + (m.item.before + fromValue)));
      SkipNeutral(s, if first then "" else ",", m.before + fromKey, maxDepth);
      SkipNeutral(s, m.before, fromKey, maxDepth);
      ScanConcat(s, Quoted(m.key), m.beforeColon + (":" + (m.item.before + fromValue)), maxDepth);
      ScanQuoted(s, m.key, maxDepth);
      SkipNeutral(s, m.beforeColon, ":" + (m.item.before + fromValue), maxDepth);
      SkipNeutral(s, ":", m.item.before + fromValue, maxDepth);
      SkipNeutral(s, m.item.before, fromValue, maxDepth);
      ScanConcat(s, Spell(m.item.value), m.item.after + rest, maxDepth);
      SkipNeutral(s, m.item.after, rest, maxDepth);
    }
  }

  /** In every spelling of every value, the guard trips exactly when the value nests too deeply. */
  lemma GuardIsExact(before: string, v: Value, after: string, maxDepth: nat)
    requires IsSpace(before) && Legal(v) && IsSpace(after)
    ensures Scan(INITIAL, before + Spell(v) + after, maxDepth) == None <==> Depth(v) > maxDepth
  {
    SpaceNeutral(before);
    SpaceNeutral(after);
    hide Scan, Spell, Legal, Neutral, Depth;
    ScanConcat(INITIAL, before + Spell(v), after, maxDepth);
    SkipNeutral(INITIAL, before, Spell(v), maxDepth);
    ScanValue(INITIAL, v, maxDepth);
    ScanNeutral(INITIAL, after, maxDepth);
  }
}
