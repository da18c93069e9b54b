/**
  Raw file bytes and the code units the span scanner works on.

  A code unit is one byte in a single-byte encoding and two bytes in UTF-16.
  Every position the scanner visits is a whole number of units from the start
  of the file, so the scanner is specified over unit indexes and its byte
  positions are those indexes scaled by the unit width.
 */
module RawBytes {
  import opened Wrappers

  type byte = b: int | 0 <= b < 256

  /** Raw-byte width class of one markup character. */
  datatype Encoding = SingleByte | Utf16Le | Utf16Be

  const NO_UNIT: int := -1

  function UnitWidth(enc: Encoding): nat {
    if enc.SingleByte? then 1 else 2
  }

  /** The byte offset of unit number i. */
  function Offset(enc: Encoding, i: nat): nat {
    if enc.SingleByte? then i else 2 * i
  }

  /** ASCII code of the unit at a byte position, or -1 when out of range or not ASCII. */
  function UnitAscii(bytes: seq<byte>, enc: Encoding, pos: nat): int {
    if enc.SingleByte? then
      if pos >= |bytes| then -1 else if bytes[pos] < 0x80 then bytes[pos] else -1
    else if pos + 1 >= |bytes| then -1
    else if enc.Utf16Le? then
      if bytes[pos + 1] == 0 then bytes[pos] else -1
    else
      if bytes[pos] == 0 then bytes[pos + 1] else -1
  }

  predicate UnitIs(bytes: seq<byte>, enc: Encoding, pos: nat, expected: char) {
    UnitAscii(bytes, enc, pos) == expected as int
  }

  predicate UnitIsSpace(bytes: seq<byte>, enc: Encoding, pos: nat) {
    IsSpace(UnitAscii(bytes, enc, pos))
  }

  predicate IsSpace(code: int) {
    code == ' ' as int || code == '\t' as int || code == '\r' as int || code == '\n' as int
  }

  // ----- the code units of a file -----

  /** Number of units, a truncated last UTF-16 unit included. */
  function UnitCount(bytes: seq<byte>, enc: Encoding): nat {
    if enc.SingleByte? then |bytes| else (|bytes| + 1) / 2
  }

  /** Code unit number i; a truncated last UTF-16 unit has no code. */
  function UnitAt(bytes: seq<byte>, enc: Encoding, i: nat): int
    requires i < UnitCount(bytes, enc)
  {
    if enc.SingleByte? then bytes[i]
    else if 2 * i + 1 >= |bytes| then NO_UNIT
    else if enc.Utf16Le? then bytes[2 * i] as int + 256 * (bytes[2 * i + 1] as int)
    else 256 * (bytes[2 * i] as int) + bytes[2 * i + 1] as int
  }

  function Units(bytes: seq<byte>, enc: Encoding): seq<int> {
    seq(UnitCount(bytes, enc), i requires 0 <= i < UnitCount(bytes, enc) => UnitAt(bytes, enc, i))
  }

  /** The unit at index i, or NO_UNIT past the end. */
  function At(u: seq<int>, i: nat): int {
    if i < |u| then u[i] else NO_UNIT
  }

  /**
    Comparing the byte-level ASCII view with an ASCII character is comparing
    the code unit with it, in all three encoding classes.
   */
  lemma UnitAsciiIsCodeUnit(bytes: seq<byte>, enc: Encoding, i: nat, c: int)
    requires 0 <= c < 0x80
    ensures UnitAscii(bytes, enc, Offset(enc, i)) == c <==> At(Units(bytes, enc), i) == c
  {
    var u := Units(bytes, enc);
    if i < |u| {
      assert u[i] == UnitAt(bytes, enc, i);
    }
  }

  // ----- writing units as bytes -----

  predicate IsUnit(enc: Encoding, c: int) {
    0 <= c < if enc.SingleByte? then 256 else 65536
  }

  predicate AllUnits(enc: Encoding, u: seq<int>) {
    forall i :: 0 <= i < |u| ==> IsUnit(enc, u[i])
  }

  /** Byte j of the file that holds the units u. */
  function EncodedByte(enc: Encoding, u: seq<int>, j: nat): byte
    requires AllUnits(enc, u) && j < Offset(enc, |u|)
  {
    if enc.SingleByte? then
      assert IsUnit(enc, u[j]);
      u[j]
    else
      assert IsUnit(enc, u[j / 2]);
      var lowByte := if enc.Utf16Le? then j % 2 == 0 else j % 2 == 1;
      if lowByte then u[j / 2] % 256 else u[j / 2] / 256
  }

  function Encode(enc: Encoding, u: seq<int>): (b: seq<byte>)
    requires AllUnits(enc, u)
    ensures |b| == Offset(enc, |u|)
  {
    seq(Offset(enc, |u|), j requires 0 <= j < Offset(enc, |u|) => EncodedByte(enc, u, j))
  }

  /** Reading the units back from their bytes gives the units. */
  lemma UnitsOfEncode(enc: Encoding, u: seq<int>)
    requires AllUnits(enc, u)
    ensures Units(Encode(enc, u), enc) == u
  {
    var bytes := Encode(enc, u);
    forall i: nat | i < |u| ensures UnitAt(bytes, enc, i) == u[i] {
      assert IsUnit(enc, u[i]);
      if enc.SingleByte? {
        assert bytes[i] == EncodedByte(enc, u, i);
      } else {
        assert bytes[2 * i] == EncodedByte(enc, u, 2 * i);
        assert bytes[2 * i + 1] == EncodedByte(enc, u, 2 * i + 1);
      }
    }
  }

  /** A slice of units encodes to the slice of bytes at the scaled offsets. */
  lemma EncodeSlice(enc: Encoding, u: seq<int>, lo: nat, hi: nat)
    requires AllUnits(enc, u) && lo <= hi <= |u|
    ensures Encode(enc, u)[Offset(enc, lo)..Offset(enc, hi)] == Encode(enc, u[lo..hi])
  {
    var cut := u[lo..hi];
    assert AllUnits(enc, cut);
    hide AllUnits, IsUnit;
    forall j: nat | j < Offset(enc, hi - lo)
      ensures EncodedByte(enc, u, Offset(enc, lo) + j) == EncodedByte(enc, cut, j)
    {
      if enc.SingleByte? {
        assert cut[j] == u[lo + j];
      } else {
        assert (2 * lo + j) / 2 == lo + j / 2 && (2 * lo + j) % 2 == j % 2;
        assert cut[j / 2] == u[lo + j / 2];
      }
    }
  }

  // ----- line numbers -----

  /** Line breaks among the first n units. */
  function LineBreaks(u: seq<int>, n: nat): (breaks: nat)
    requires n <= |u|
  {
    if n == 0 then 0 else LineBreaks(u, n - 1) + if u[n - 1] == '\n' as int then 1 else 0
  }

  lemma {:induction false} LineBreaksMonotone(u: seq<int>, m: nat, n: nat)
    requires m <= n <= |u|
    ensures LineBreaks(u, m) <= LineBreaks(u, n)
  {
    if m < n {
      LineBreaksMonotone(u, m, n - 1);
    }
  }

  lemma UnitsLength(bytes: seq<byte>, enc: Encoding)
    ensures |Units(bytes, enc)| == if enc.SingleByte? then |bytes| else (|bytes| + 1) / 2
  {}

  /** The two bytes of a newline unit, as the line counter tests them. */
  lemma NewlineUnit(bytes: seq<byte>, enc: Encoding, pos: nat)
    requires pos < |bytes| && (!enc.SingleByte? ==> pos % 2 == 0 && pos + 1 < |bytes|)
    ensures var i := if enc.SingleByte? then pos else pos / 2;
      && i < |Units(bytes, enc)|
      && (Units(bytes, enc)[i] == '\n' as int <==>
          match enc
          case SingleByte => bytes[pos] == 0x0A
          case Utf16Le => bytes[pos] == 0x0A && bytes[pos + 1] == 0x00
          case Utf16Be => bytes[pos] == 0x00 && bytes[pos + 1] == 0x0A)
  {}

  /** 1-based line number of a byte offset, counting newline units before it. */
  method LineNumberAt(bytes: seq<byte>, enc: Encoding, offset: nat) returns (line: nat)
    ensures line == LineOf(bytes, enc, offset)
  {
    hide Units;
    UnitsLength(bytes, enc);
    var breaks: nat := 0;
    var scanEnd := Min(offset, |bytes|);
    ghost var u := Units(bytes, enc);
    if enc.SingleByte? {
      var idx := 0;
      while idx < scanEnd
        invariant 0 <= idx <= scanEnd
        invariant breaks == LineBreaks(u, idx)
      {
        NewlineUnit(bytes, enc, idx);
        if bytes[idx] == 0x0A {
          breaks := breaks + 1;
        }
        idx := idx + 1;
      }
    } else {
      var idx := 0;
      while idx + 1 < scanEnd
        invariant idx % 2 == 0 && 0 <= idx <= scanEnd
        invariant breaks == LineBreaks(u, idx / 2)
      {
        NewlineUnit(bytes, enc, idx);
        var isBreak :=
          if enc.Utf16Le? then bytes[idx] == 0x0A && bytes[idx + 1] == 0x00
          else bytes[idx] == 0x00 && bytes[idx + 1] == 0x0A;
        if isBreak {
          breaks := breaks + 1;
        }
        idx := idx + 2;
      }
    }
    line := breaks + 1;
  }

  /** The line of a byte offset: one more than the newline units wholly before it. */
  function LineOf(bytes: seq<byte>, enc: Encoding, offset: nat): nat {
    var u := Units(bytes, enc);
    var before := if enc.SingleByte? then Min(offset, |bytes|) else Min(offset, |bytes|) / 2;
    1 + LineBreaks(u, before)
  }

  lemma LineOfMonotone(bytes: seq<byte>, enc: Encoding, a: nat, b: nat)
    requires a <= b
    ensures LineOf(bytes, enc, a) <= LineOf(bytes, enc, b)
  {
    var u := Units(bytes, enc);
    LineBreaksMonotone(u,
      if enc.SingleByte? then Min(a, |bytes|) else Min(a, |bytes|) / 2,
      if enc.SingleByte? then Min(b, |bytes|) else Min(b, |bytes|) / 2);
  }
}
