/** Reading texts the way the model builder does: trimming, references, integers, doubles. */
module Numbers {
  import opened Wrappers
  import opened Model
  import opened Text

  // ----- blanks -----

  predicate IsBlank(c: char) {
    c == ' ' || c == '\t' || c == '\r' || c == '\n'
  }

  function TrimStart(s: string): (r: string)
    ensures |r| <= |s|
    ensures r != "" ==> !IsBlank(r[0]) && s != "" && r[|r| - 1] == s[|s| - 1]
  {
    if s != "" && IsBlank(s[0]) then TrimStart(s[1..]) else s
  }

  function TrimEnd(s: string): (r: string)
    ensures |r| <= |s| && s[..|r|] == r
    ensures r != "" ==> !IsBlank(r[|r| - 1])
  {
    if s != "" && IsBlank(s[|s| - 1]) then TrimEnd(s[..|s| - 1]) else s
  }

  function TrimText(s: string): (r: string)
    ensures Trimmed(r)
  {
    TrimEnd(TrimStart(s))
  }

  /** Neither the first nor the last character is blank. */
  predicate Trimmed(s: string) {
    s != "" ==> !IsBlank(s[0]) && !IsBlank(s[|s| - 1])
  }

  lemma TrimTrimmed(s: string)
    requires Trimmed(s)
    ensures TrimText(s) == s
  {}

  // ----- references -----

  /** The text after the last slash. */
  function AfterLastSlash(s: string): (r: string)
    ensures '/' !in r
    ensures |r| <= |s| && s[|s| - |r|..] == r
  {
    if s == "" || s[|s| - 1] == '/' then ""
    else AfterLastSlash(s[..|s| - 1]) + [s[|s| - 1]]
  }

  function ShortNameOfRef(ref: string): (r: string)
    ensures RefName(r)
  {
    AfterLastSlash(TrimText(ref))
  }

  /** What a reference reduces to: no slash, no blank at the end. */
  predicate RefName(s: string) {
    '/' !in s && (s != "" ==> !IsBlank(s[|s| - 1]))
  }

  lemma {:induction false} AfterSlash(prefix: string, name: string)
    requires '/' !in name
    ensures AfterLastSlash(prefix + "/" + name) == name
  {
    var s := prefix + "/" + name;
    if name != "" {
      AfterSlash(prefix, name[..|name| - 1]);
      assert s[..|s| - 1] == prefix + "/" + name[..|name| - 1];
      assert s[|s| - 1] == name[|name| - 1];
      assert '/' !in name && name[|name| - 1] in name;
    } else {
      assert s[|s| - 1] == '/';
    }
  }

  /** A reference into a package reduces to the name it was made from. */
  lemma RefRoundTrip(prefix: string, name: string)
    requires RefName(name) && name != "" && prefix != "" && !IsBlank(prefix[0])
    ensures Trimmed(prefix + "/" + name)
    ensures ShortNameOfRef(prefix + "/" + name) == name
  {
    var s := prefix + "/" + name;
    assert s[0] == prefix[0] && s[|s| - 1] == name[|name| - 1];
    TrimTrimmed(s);
    AfterSlash(prefix, name);
  }

  // ----- integers -----

  function DigitValue(c: char): Option<nat> {
    if '0' <= c <= '9' then Some(c as int - '0' as int)
    else if 'a' <= c <= 'z' then Some(c as int - 'a' as int + 10)
    else if 'A' <= c <= 'Z' then Some(c as int - 'A' as int + 10)
    else None
  }

  predicate IsDigitOf(c: char, base: nat) {
    DigitValue(c).Some? && DigitValue(c).value < base
  }

  /** The longest run of digits at the front. */
  function LeadingDigits(s: string, base: nat): (r: string)
    ensures forall c <- r :: IsDigitOf(c, base)
  {
    if s == "" || !IsDigitOf(s[0], base) then "" else [s[0]] + LeadingDigits(s[1..], base)
  }

  function DigitsValue(s: string, base: nat): nat
    requires forall c <- s :: IsDigitOf(c, base)
  {
    if s == "" then 0
    else
      assert s[|s| - 1] in s && IsDigitOf(s[|s| - 1], base);
      DigitsValue(s[..|s| - 1], base) * base + DigitValue(s[|s| - 1]).value
  }

  /** White space as the C library skips it. */
  function SkipSpace(s: string): string {
    if s != "" && (IsBlank(s[0]) || s[0] as int == 11 || s[0] as int == 12) then SkipSpace(s[1..]) else s
  }

  predicate HexPrefixAt(s: string, i: nat) {
    i + 1 < |s| && s[i] == '0' && (s[i + 1] == 'x' || s[i + 1] == 'X')
  }

  /**
    Sign and magnitude the C library's number readers find at the front of a
    text; garbage after the digits is ignored. None when there are no digits.
   */
  function ScanInteger(s: string, base: nat): Option<(bool, nat)> {
    var t := SkipSpace(s);
    var signed := t != "" && (t[0] == '+' || t[0] == '-');
    var body := if signed then t[1..] else t;
    var digits := if base == 16 && HexPrefixAt(body, 0) && |body| > 2 && IsDigitOf(body[2], 16)
                  then LeadingDigits(body[2..], 16) else LeadingDigits(body, base);
    if digits == "" then None else Some((signed && t[0] == '-', DigitsValue(digits, base)))
  }

  /** Signed read: out of range is an error. */
  function ReadSigned(s: string): Option<int> {
    match ScanInteger(s, 10)
    case None => None
    case Some((negative, magnitude)) =>
      var size: int := magnitude;
      var v := if negative then -size else size;
      if -TWO_63 <= v < TWO_63 then Some(v) else None
  }

  /** Unsigned hexadecimal read: out of range is an error, a minus sign wraps around. */
  function ReadUnsignedHex(s: string): Option<nat> {
    match ScanInteger(s, 16)
    case None => None
    case Some((negative, magnitude)) =>
      if magnitude >= TWO_64 then None
      else Some(if negative then (TWO_64 - magnitude) % TWO_64 else magnitude)
  }

  /** Two's complement wrap-around of a 64-bit value. */
  function Wrap64(v: int): int {
    (v + TWO_63) % TWO_64 - TWO_63
  }

  function ParseInteger(raw: string): Option<int> {
    var text := TrimText(raw);
    if text == "" then None
    else
      var signed := text[0] == '+' || text[0] == '-';
      var pos := if signed then 1 else 0;
      var negative := text[0] == '-';
      if HexPrefixAt(text, pos) then
        match ReadUnsignedHex(text[pos + 2..])
        case None => None
        case Some(magnitude) =>
          if negative then Some(Wrap64(-Wrap64(magnitude)))
          else if magnitude >= TWO_63 then None
          else Some(magnitude)
      else
        match ReadSigned(text[pos..])
        case None => None
        case Some(v) =>
          if negative then Some(Wrap64(-v))
          else
            var magnitude := v % TWO_64;
            if magnitude >= TWO_63 then None else Some(magnitude)
  }

  function ParseUint32(raw: string): Option<nat> {
    match ParseInteger(raw)
    case None => None
    case Some(v) => if 0 <= v < TWO_32 then Some(v) else None
  }

  // ----- doubles -----

  /**
    The two conversions to double, as the C library does them: of a text used
    up to its last character, and of an integer.
   */
  datatype FloatReader = FloatReader(fromText: string -> Option<Double>, fromInteger: int -> Double)

  predicate IsHexPrefixed(text: string)
    requires text != ""
  {
    HexPrefixAt(text, if text[0] == '+' || text[0] == '-' then 1 else 0)
  }

  function ParseDouble(reader: FloatReader, raw: string): Option<Double> {
    var text := TrimText(raw);
    if text == "" then None
    else if IsHexPrefixed(text) then
      match ParseInteger(text)
      case None => None
      case Some(v) => Some(reader.fromInteger(v))
    else reader.fromText(text)
  }

  /** The printed text of a double reads back as that double. */
  predicate ReadsBack(reader: FloatReader, d: Double) {
    d.text != "" && Trimmed(d.text) && !IsHexPrefixed(d.text) && reader.fromText(d.text) == Some(d)
  }

  /** Printing with 17 digits loses no double a reader can produce. */
  ghost predicate Lossless(reader: FloatReader) {
    && (forall s, d :: reader.fromText(s) == Some(d) ==> ReadsBack(reader, d))
    && (forall v :: ReadsBack(reader, reader.fromInteger(v)))
  }

  lemma ParsePrinted(reader: FloatReader, d: Double)
    requires ReadsBack(reader, d)
    ensures ParseDouble(reader, d.text) == Some(d)
  {
    TrimTrimmed(d.text);
  }

  lemma ParsedReadsBack(reader: FloatReader, raw: string)
    requires Lossless(reader)
    ensures ParseDouble(reader, raw).Some? ==> ReadsBack(reader, ParseDouble(reader, raw).value)
  {}

  // ----- printing and reading back -----

  lemma {:induction false} DecimalDigits(n: nat)
    ensures forall c <- NatToString(n) :: '0' <= c <= '9' && IsDigitOf(c, 10)
    ensures DigitsValue(NatToString(n), 10) == n
  {
    if n < 10 {
      assert NatToString(n)[..0] == "";
    } else {
      DecimalDigits(n / 10);
      var s := NatToString(n);
      assert s[..|s| - 1] == NatToString(n / 10);
      forall c | c in s ensures '0' <= c <= '9' && IsDigitOf(c, 10) {
        if c != s[|s| - 1] {
          assert c in NatToString(n / 10);
        }
      }
    }
  }

  lemma {:induction false} AllDigitsLead(s: string, base: nat)
    requires forall c <- s :: IsDigitOf(c, base)
    ensures LeadingDigits(s, base) == s
  {
    if s != "" {
      assert s[0] in s;
      AllDigitsLead(s[1..], base);
    }
  }

  lemma ScanDecimal(n: nat)
    ensures ScanInteger(NatToString(n), 10) == Some((false, n))
    ensures Trimmed(NatToString(n))
  {
    hide LeadingDigits, DigitsValue;
    var s := NatToString(n);
    DecimalDigits(n);
    hide NatToString;
    AllDigitsLead(s, 10);
    assert s[0] in s && s[|s| - 1] in s;
  }

  /** A 32-bit value survives printing and parsing. */
  lemma Uint32RoundTrip(n: nat)
    requires n < TWO_32
    ensures ParseUint32(NatToString(n)) == Some(n)
  {
    hide LeadingDigits, DigitsValue, ScanInteger, TrimText, ReadUnsignedHex;
    var s := NatToString(n);
    DecimalDigits(n);
    ScanDecimal(n);
    hide NatToString, IsDigitOf;
    TrimTrimmed(s);
    assert s[0] in s;
    assert !HexPrefixAt(s, 0) by {
      assert |s| > 1 ==> s[1] in s;
    }
    hide HexPrefixAt;
    assert s[0..] == s;
    assert ReadSigned(s) == Some(n);
  }

  lemma PrintedDigits(n: nat)
    ensures NatToString(n) != "" && Trimmed(NatToString(n))
  {
    ScanDecimal(n);
  }

  /** Different numbers print differently. */
  lemma PrintInjective(m: nat, n: nat)
    requires NatToString(m) == NatToString(n)
    ensures m == n
  {
    DecimalDigits(m);
    DecimalDigits(n);
  }
}
