/**
  Which bits of a CAN payload a signal occupies: the little-endian run and the
  big-endian walk, which steps down within a byte and on to the next byte's top.
 */
module CanBits {
  import opened Model

  /** An unsigned 32-bit value narrowed to a signed one. */
  function ToInt32(u: nat): int {
    if u % TWO_32 < TWO_31 then u % TWO_32 else u % TWO_32 - TWO_32
  }

  // ----- the two runs -----

  function IntelRun(start: int, n: nat): seq<int> {
    if n == 0 then [] else IntelRun(start, n - 1) + [start + n - 1]
  }

  function NextBit(pos: int): int {
    if pos % 8 == 0 then pos + 15 else pos - 1
  }

  /** Where the walk stands after k steps. */
  function BitAfter(start: int, k: nat): int {
    if k == 0 then start else NextBit(BitAfter(start, k - 1))
  }

  function MotorolaWalk(start: int, n: nat): seq<int> {
    if n == 0 then [] else MotorolaWalk(start, n - 1) + [BitAfter(start, n - 1)]
  }

  /** No bits for a negative start or an empty length. */
  function SignalBits(order: ByteOrder, start: int, length: int): seq<int> {
    if start < 0 || length <= 0 then []
    else if order == LeastSignificantByteFirst then IntelRun(start, length)
    else MotorolaWalk(start, length)
  }

  /** No position the walk computes leaves the signed 32-bit range, the big-endian one's last step included. */
  ghost predicate InIntRange(order: ByteOrder, start: int, length: int) {
    || start < 0 || length <= 0
    || (order == LeastSignificantByteFirst && start + length <= TWO_31)
    || (order == MostSignificantByteFirst && forall k: nat :: k <= length ==> BitAfter(start, k) < TWO_31)
  }

  method PhysicalBitsForIntelSignal(start: int, length: int) returns (bits: seq<int>)
    requires InIntRange(LeastSignificantByteFirst, start, length)
    ensures bits == SignalBits(LeastSignificantByteFirst, start, length)
  {
    bits := [];
    if start < 0 || length <= 0 {
      return;
    }
    for idx := 0 to length
      invariant bits == IntelRun(start, idx)
    {
      assert 0 <= start + idx < TWO_31;
      bits := bits + [start + idx];
    }
  }

  method PhysicalBitsForMotorolaSignal(start: int, length: int) returns (bits: seq<int>)
    requires InIntRange(MostSignificantByteFirst, start, length)
    ensures bits == SignalBits(MostSignificantByteFirst, start, length)
  {
    bits := [];
    if start < 0 || length <= 0 {
      return;
    }
    var pos := start;
    for idx := 0 to length
      invariant bits == MotorolaWalk(start, idx) && pos == BitAfter(start, idx)
    {
      StaysInRange(start, idx + 1);
      bits := bits + [pos];
      if pos % 8 == 0 {
        pos := pos + 15;
      } else {
        pos := pos - 1;
      }
      assert 0 <= pos < TWO_31;
    }
  }

  method PhysicalBitsForSignal(order: ByteOrder, start: int, length: int) returns (bits: seq<int>)
    requires InIntRange(order, start, length)
    ensures bits == SignalBits(order, start, length)
  {
    if order == LeastSignificantByteFirst {
      bits := PhysicalBitsForIntelSignal(start, length);
    } else {
      bits := PhysicalBitsForMotorolaSignal(start, length);
    }
  }

  // ----- the closed form -----

  /** Bit numbering read from the top of each byte instead of from its bottom. */
  function Saw(p: int): int {
    8 * (p / 8) + 7 - p % 8
  }

  lemma SawTwice(p: int)
    ensures Saw(Saw(p)) == p
  {}

  /** One step of the walk is one step up in that numbering. */
  lemma SawStep(p: int)
    ensures Saw(NextBit(p)) == Saw(p) + 1
    ensures NextBit(p) == Saw(Saw(p) + 1)
  {}

  lemma SawNear(p: int)
    ensures p - 7 <= Saw(p) <= p + 7 && (p >= 0 ==> Saw(p) >= 0)
    ensures Saw(p) / 8 == p / 8
  {}

  lemma {:induction false} AfterSteps(start: int, k: nat)
    ensures BitAfter(start, k) == Saw(Saw(start) + k)
  {
    if k == 0 {
      SawTwice(start);
    } else {
      AfterSteps(start, k - 1);
      SawTwice(Saw(start) + k - 1);
      SawStep(BitAfter(start, k - 1));
    }
  }

  lemma StaysInRange(start: nat, k: nat)
    ensures 0 <= BitAfter(start, k) <= start + k + 14
  {
    AfterSteps(start, k);
    SawNear(start);
    SawNear(Saw(start) + k);
  }

  /** Bit k of the walk. */
  lemma {:induction false} MotorolaClosedForm(start: int, n: nat, k: nat)
    requires k < n
    ensures |MotorolaWalk(start, n)| == n && MotorolaWalk(start, n)[k] == Saw(Saw(start) + k)
  {
    hide Saw, BitAfter;
    WalkLength(start, n);
    WalkLength(start, n - 1);
    if k < n - 1 {
      MotorolaClosedForm(start, n - 1, k);
    }
    AfterSteps(start, n - 1);
  }

  lemma {:induction false} WalkLength(start: int, n: nat)
    ensures |MotorolaWalk(start, n)| == n
  {
    if n > 0 {
      WalkLength(start, n - 1);
    }
  }

  lemma {:induction false} IntelClosedForm(start: int, n: nat, k: nat)
    requires k < n
    ensures |IntelRun(start, n)| == n && IntelRun(start, n)[k] == start + k
  {
    IntelLength(start, n);
    if k < n - 1 {
      IntelClosedForm(start, n - 1, k);
    }
    IntelLength(start, n - 1);
  }

  lemma {:induction false} IntelLength(start: int, n: nat)
    ensures |IntelRun(start, n)| == n
  {
    if n > 0 {
      IntelLength(start, n - 1);
    }
  }

  // ----- membership, distinctness, fit -----

  /** The first position in its own numbering. */
  function Origin(order: ByteOrder, start: int): int {
    if order == LeastSignificantByteFirst then start else Saw(start)
  }

  function Position(order: ByteOrder, p: int): int {
    if order == LeastSignificantByteFirst then p else Saw(p)
  }

  /** Bit k of either run. */
  lemma BitAt(order: ByteOrder, start: int, length: int, k: nat)
    requires 0 <= start && k < length
    ensures |SignalBits(order, start, length)| == length
    ensures SignalBits(order, start, length)[k] == Position(order, Origin(order, start) + k)
  {
    if order == LeastSignificantByteFirst {
      IntelClosedForm(start, length, k);
    } else {
      MotorolaClosedForm(start, length, k);
    }
  }

  lemma PositionTwice(order: ByteOrder, p: int)
    ensures Position(order, Position(order, p)) == p
  {
    SawTwice(p);
  }

  /** A bit is occupied exactly when its number lies in the signal's interval. */
  lemma OccupiesInterval(order: ByteOrder, start: int, length: int, bit: int)
    requires 0 <= start && 0 < length
    ensures bit in SignalBits(order, start, length) <==>
      Origin(order, start) <= Position(order, bit) < Origin(order, start) + length
  {
    hide Position, Origin, SignalBits;
    var bits := SignalBits(order, start, length);
    BitAt(order, start, length, 0);
    PositionTwice(order, bit);
    if bit in bits {
      var k :| 0 <= k < |bits| && bits[k] == bit;
      BitAt(order, start, length, k);
      PositionTwice(order, Origin(order, start) + k);
    }
    if Origin(order, start) <= Position(order, bit) < Origin(order, start) + length {
      BitAt(order, start, length, Position(order, bit) - Origin(order, start));
    }
  }

  /** No bit twice. */
  lemma BitsDistinct(order: ByteOrder, start: int, length: int, i: nat, j: nat)
    requires 0 <= start && i < j < length
    ensures |SignalBits(order, start, length)| == length
    ensures SignalBits(order, start, length)[i] != SignalBits(order, start, length)[j]
  {
    hide Position, SignalBits;
    BitAt(order, start, length, i);
    BitAt(order, start, length, j);
    PositionTwice(order, Origin(order, start) + i);
    PositionTwice(order, Origin(order, start) + j);
  }

  /** All bits lie in a payload of that many bytes exactly when the last one does. */
  lemma FitsIff(order: ByteOrder, start: int, length: int, bytes: nat)
    requires 0 <= start && 0 < length
    ensures (forall bit <- SignalBits(order, start, length) :: 0 <= bit < 8 * bytes)
      <==> Origin(order, start) + length <= 8 * bytes
  {
    hide SignalBits, Origin, Position;
    OriginNotNegative(order, start);
    if Origin(order, start) + length <= 8 * bytes {
      forall bit | bit in SignalBits(order, start, length) ensures 0 <= bit < 8 * bytes {
        OccupiesInterval(order, start, length, bit);
        PositionInPayload(order, bit, bytes);
      }
    } else {
      var end := Origin(order, start) + length - 1;
      PositionTwice(order, end);
      OccupiesInterval(order, start, length, Position(order, end));
      PositionInPayload(order, Position(order, end), bytes);
    }
  }

  lemma OriginNotNegative(order: ByteOrder, start: int)
    requires 0 <= start
    ensures 0 <= Origin(order, start)
  {
    SawNear(start);
  }

  /** Renumbering stays within whole bytes. */
  lemma PositionInPayload(order: ByteOrder, bit: int, bytes: nat)
    ensures 0 <= bit < 8 * bytes <==> 0 <= Position(order, bit) < 8 * bytes
  {
    hide Saw;
    SawNear(bit);
    ByteInPayload(bit, bytes);
    ByteInPayload(Position(order, bit), bytes);
  }

  lemma ByteInPayload(p: int, bytes: nat)
    ensures 0 <= p < 8 * bytes <==> 0 <= p / 8 < bytes
  {}

  // ----- placement in a frame -----

  /** A PDU offset in whole bytes moves every bit of a signal by that offset. */
  lemma WholeByteShift(order: ByteOrder, start: int, length: int, offset: nat, k: nat)
    requires 0 <= start && k < length && offset % 8 == 0
    ensures |SignalBits(order, start + offset, length)| == |SignalBits(order, start, length)| == length
    ensures SignalBits(order, start + offset, length)[k] == SignalBits(order, start, length)[k] + offset
  {
    hide SignalBits;
    BitAt(order, start, length, k);
    BitAt(order, start + offset, length, k);
    SawShift(start, offset);
    SawShift(Saw(start) + k, offset);
  }

  lemma SawShift(p: int, offset: int)
    requires offset % 8 == 0
    ensures Saw(p + offset) == Saw(p) + offset
  {}

  function Moved(bits: seq<int>, offset: int): (r: seq<int>)
    ensures |r| == |bits| && forall k :: 0 <= k < |bits| ==> r[k] == bits[k] + offset
  {
    seq(|bits|, k requires 0 <= k < |bits| => bits[k] + offset)
  }

  ghost predicate MovesEverySignal(order: ByteOrder, offset: nat) {
    forall start: nat, length: nat ::
      Moved(SignalBits(order, start, length), offset) == SignalBits(order, start + offset, length)
  }

  lemma WholeBytesMove(order: ByteOrder, start: nat, length: nat, offset: nat)
    requires offset % 8 == 0
    ensures Moved(SignalBits(order, start, length), offset) == SignalBits(order, start + offset, length)
  {
    if length > 0 {
      hide SignalBits, Moved;
      WholeByteShift(order, start, length, offset, 0);
      forall k | 0 <= k < length
        ensures SignalBits(order, start + offset, length)[k] == Moved(SignalBits(order, start, length), offset)[k]
      {
        WholeByteShift(order, start, length, offset, k);
      }
    }
  }

  /** For big-endian signals only whole-byte offsets move every signal intact. */
  lemma MovesIffWholeBytes(offset: nat)
    ensures MovesEverySignal(MostSignificantByteFirst, offset) <==> offset % 8 == 0
  {
    if offset % 8 == 0 {
      forall start: nat, length: nat
        ensures Moved(SignalBits(MostSignificantByteFirst, start, length), offset) ==
          SignalBits(MostSignificantByteFirst, start + offset, length)
      {
        WholeBytesMove(MostSignificantByteFirst, start, length, offset);
      }
    } else {
      BitAt(MostSignificantByteFirst, 0, 2, 1);
      BitAt(MostSignificantByteFirst, 0 + offset, 2, 1);
      var moved := Moved(SignalBits(MostSignificantByteFirst, 0, 2), offset);
      assert moved[1] == 15 + offset;
      assert SignalBits(MostSignificantByteFirst, 0 + offset, 2)[1] == offset - 1;
    }
  }

  ghost predicate DisjointBits(a: seq<int>, b: seq<int>) {
    forall bit :: !(bit in a && bit in b)
  }

  lemma ShiftedMember(order: ByteOrder, start: int, length: int, offset: nat, bit: int)
    requires 0 <= start && 0 < length && offset % 8 == 0
    ensures bit + offset in SignalBits(order, start + offset, length) <==> bit in SignalBits(order, start, length)
  {
    hide SignalBits;
    OccupiesInterval(order, start, length, bit);
    OccupiesInterval(order, start + offset, length, bit + offset);
    SawShift(start, offset);
    SawShift(bit, offset);
  }

  /** The two mappings, moved by that offset, share no bit. */
  ghost predicate Apart(p: PduSignalMapping, pLength: nat, q: PduSignalMapping, qLength: nat, offset: nat) {
    DisjointBits(
      SignalBits(p.byteOrder, p.startPosition + offset, pLength),
        SignalBits(q.byteOrder, q.startPosition + offset, qLength))
  }

  ghost predicate KeepsApart(offset: nat) {
    forall p: PduSignalMapping, pLength: nat, q: PduSignalMapping, qLength: nat ::
      Apart(p, pLength, q, qLength, 0) ==> Apart(p, pLength, q, qLength, offset)
  }

  lemma WholeBytesKeepApart(p: PduSignalMapping, pLength: nat, q: PduSignalMapping, qLength: nat, offset: nat)
    requires offset % 8 == 0 && Apart(p, pLength, q, qLength, 0)
    ensures Apart(p, pLength, q, qLength, offset)
  {
    hide IntelRun, MotorolaWalk;
    if pLength > 0 && qLength > 0 {
      var a := SignalBits(p.byteOrder, p.startPosition + offset, pLength);
      var b := SignalBits(q.byteOrder, q.startPosition + offset, qLength);
      forall bit | bit in a ensures bit !in b {
        ShiftedMember(p.byteOrder, p.startPosition, pLength, offset, bit - offset);
        ShiftedMember(q.byteOrder, q.startPosition, qLength, offset, bit - offset);
      }
    }
  }

  /**
    Signals with disjoint bits in a PDU keep disjoint bits, whatever their byte
    orders, exactly under whole-byte offsets.
   */
  lemma KeepsApartIffWholeBytes(offset: nat)
    ensures KeepsApart(offset) <==> offset % 8 == 0
  {
    if offset % 8 == 0 {
      forall p: PduSignalMapping, pLength: nat, q: PduSignalMapping, qLength: nat | Apart(p, pLength, q, qLength, 0)
        ensures Apart(p, pLength, q, qLength, offset)
      {
        WholeBytesKeepApart(p, pLength, q, qLength, offset);
      }
    } else {
      var p := PduSignalMapping("p", 7, MostSignificantByteFirst);
      var q := PduSignalMapping("q", 8, MostSignificantByteFirst);
      ApartInPlace(p, q);
      MeetWhenMoved(p, q, offset);
    }
  }

  /** Bits 7..0, 15..9 and bits 8, 23. */
  lemma ApartInPlace(p: PduSignalMapping, q: PduSignalMapping)
    requires p.startPosition == 7 && q.startPosition == 8
    requires p.byteOrder == q.byteOrder == MostSignificantByteFirst
    ensures Apart(p, 15, q, 2, 0)
  {
    hide SignalBits;
    var a, b := SignalBits(p.byteOrder, p.startPosition + 0, 15), SignalBits(q.byteOrder, q.startPosition + 0, 2);
    forall bit: int | bit in a ensures bit !in b {
      OccupiesInterval(p.byteOrder, 7, 15, bit);
      OccupiesInterval(q.byteOrder, 8, 2, bit);
    }
  }

  lemma MeetWhenMoved(p: PduSignalMapping, q: PduSignalMapping, offset: nat)
    requires p.startPosition == 7 && q.startPosition == 8 && offset % 8 != 0
    requires p.byteOrder == q.byteOrder == MostSignificantByteFirst
    ensures !Apart(p, 15, q, 2, offset)
  {
    hide SignalBits, Saw;
    SawStep(8 + offset);
    OccupiesInterval(p.byteOrder, 7 + offset, 15, 7 + offset);
    OccupiesInterval(q.byteOrder, 8 + offset, 2, 7 + offset);
  }

  /** Where the exported signal starts in its frame: an unsigned 32-bit sum. */
  function FrameStart(place: PduSignalMapping, mapping: FramePduMapping): nat {
    (place.startPosition + mapping.startPosition) % TWO_32
  }

  /** So a PDU placed at a byte boundary keeps its signals disjoint in the frame. */
  lemma PlacementKeepsDisjointness(p: PduSignalMapping, pLength: nat, q: PduSignalMapping, qLength: nat,
                                   mapping: FramePduMapping)
    requires mapping.startPosition % 8 == 0
    requires p.startPosition + mapping.startPosition < TWO_32 && q.startPosition + mapping.startPosition < TWO_32
    requires DisjointBits(SignalBits(p.byteOrder, p.startPosition, pLength),
                          SignalBits(q.byteOrder, q.startPosition, qLength))
    ensures DisjointBits(SignalBits(p.byteOrder, FrameStart(p, mapping), pLength),
                         SignalBits(q.byteOrder, FrameStart(q, mapping), qLength))
  {
    hide SignalBits;
    WholeBytesKeepApart(p, pLength, q, qLength, mapping.startPosition);
  }
}
