/**
  The overlap check of one PDU: signals claim their bits one after the other,
  a signal that leaves the payload or meets another's bit is reported once.
 */
module CanOverlap {
  import opened CanBits
  import opened Model
  import opened RawTree
  import opened Wrappers

  datatype Finding =
    | SignalOutOfRange(sig: string, bit: int)
    | SignalOverlap(owner: string, sig: string, bit: int)

  type Occupancy = seq<Option<string>>

  // ----- the signals of a file -----

  /** Bit length by name; the first signal of a name wins. */
  function Lengths(signals: seq<Signal>): map<string, nat> {
    if signals == [] then map[]
    else
      var front, last := Lengths(signals[..|signals| - 1]), signals[|signals| - 1];
      if last.common.shortName in front then front else front[last.common.shortName := last.bitLength]
  }

  method IndexSignals(signals: seq<Signal>) returns (lengths: map<string, nat>)
    ensures lengths == Lengths(signals)
  {
    lengths := map[];
    for i := 0 to |signals|
      invariant lengths == Lengths(signals[..i])
    {
      assert signals[..i + 1][..i] == signals[..i];
      if signals[i].common.shortName !in lengths {
        lengths := lengths[signals[i].common.shortName := signals[i].bitLength];
      }
    }
    assert signals[..|signals|] == signals;
  }

  /** A name is known when some signal has it. */
  lemma {:induction false} LengthsKnow(signals: seq<Signal>, name: string)
    ensures name in Lengths(signals) <==> exists s <- signals :: s.common.shortName == name
  {
    if signals != [] {
      var front, last := signals[..|signals| - 1], signals[|signals| - 1];
      LengthsKnow(front, name);
      assert signals == front + [last];
    }
  }

  /** Its length is that of the first signal that has it. */
  lemma {:induction false} LengthsHoldFirst(signals: seq<Signal>, i: nat)
    requires i < |signals|
    requires forall j :: 0 <= j < i ==> signals[j].common.shortName != signals[i].common.shortName
    ensures signals[i].common.shortName in Lengths(signals)
    ensures Lengths(signals)[signals[i].common.shortName] == signals[i].bitLength
  {
    var front, last := signals[..|signals| - 1], signals[|signals| - 1];
    if i < |signals| - 1 {
      LengthsHoldFirst(front, i);
    } else {
      LengthsKnow(front, last.common.shortName);
    }
  }

  /** The bits a mapping claims; none when its signal is unknown or empty. */
  function Claims(m: PduSignalMapping, lengths: map<string, nat>): seq<int> {
    if m.signalShortNameRef !in lengths then []
    else SignalBits(m.byteOrder, ToInt32(m.startPosition), ToInt32(lengths[m.signalShortNameRef]))
  }

  // ----- claiming -----

  /** Claim bits one by one; the first that cannot be claimed ends it with a finding. */
  function Claim(occ: Occupancy, name: string, bits: seq<int>): (Occupancy, Option<Finding>)
    decreases |bits|
  {
    if bits == [] then (occ, None)
    else
      var bit := bits[0];
      if bit < 0 || bit >= |occ| then (occ, Some(SignalOutOfRange(name, bit)))
      else if occ[bit].Some? && occ[bit].value != name then (occ, Some(SignalOverlap(occ[bit].value, name, bit)))
      else Claim(occ[bit := Some(name)], name, bits[1..])
  }

  function Empty(bits: nat): (occ: Occupancy)
    ensures |occ| == bits && forall b :: 0 <= b < bits ==> occ[b] == None
  {
    seq(bits, _ => None)
  }

  /** Occupancy after some mappings of a payload of so many bits. */
  function Occupied(bits: nat, ms: seq<PduSignalMapping>, lengths: map<string, nat>): Occupancy {
    if ms == [] then Empty(bits)
    else
      var m := ms[|ms| - 1];
      Claim(Occupied(bits, ms[..|ms| - 1], lengths), m.signalShortNameRef, Claims(m, lengths)).0
  }

  function Found(bits: nat, ms: seq<PduSignalMapping>, lengths: map<string, nat>): seq<Finding> {
    if ms == [] then []
    else
      var front, m := ms[..|ms| - 1], ms[|ms| - 1];
      Found(bits, front, lengths) +
      match Claim(Occupied(bits, front, lengths), m.signalShortNameRef, Claims(m, lengths)).1
      case None => []
      case Some(finding) => [finding]
  }

  /** An empty payload is not checked. */
  function Findings(pdu: Pdu, lengths: map<string, nat>): seq<Finding> {
    if pdu.length == 0 then [] else Found(8 * pdu.length, pdu.signalMappings, lengths)
  }

  /** Narrowed positions stay in range, so the walk is defined. */
  ghost predicate WalkDefined(m: PduSignalMapping, lengths: map<string, nat>) {
    m.signalShortNameRef in lengths ==>
      InIntRange(m.byteOrder, ToInt32(m.startPosition), ToInt32(lengths[m.signalShortNameRef]))
  }

  method ClaimBits(occupancy: array<Option<string>>, name: string, bits: seq<int>) returns (finding: Option<Finding>)
    modifies occupancy
    ensures (occupancy[..], finding) == Claim(old(occupancy[..]), name, bits)
  {
    for i := 0 to |bits|
      invariant Claim(old(occupancy[..]), name, bits) == Claim(occupancy[..], name, bits[i..])
    {
      assert bits[i..][1..] == bits[i + 1..];
      var bit := bits[i];
      if bit < 0 || bit >= occupancy.Length {
        return Some(SignalOutOfRange(name, bit));
      }
      var owner := occupancy[bit];
      if owner.Some? && owner.value != name {
        return Some(SignalOverlap(owner.value, name, bit));
      }
      ghost var was := occupancy[..];
      occupancy[bit] := Some(name);
      assert occupancy[..] == was[bit := Some(name)];
    }
    return None;
  }

  method CheckSignalOverlap(pdu: Pdu, lengths: map<string, nat>, errors: seq<Finding>) returns (grown: seq<Finding>)
    requires forall m <- pdu.signalMappings :: WalkDefined(m, lengths)
    ensures grown == errors + Findings(pdu, lengths)
  {
    hide Claim, SignalBits, InIntRange, ToInt32;
    grown := errors;
    var pduBits := pdu.length * 8;
    var ms := pdu.signalMappings;
    if pduBits == 0 || ms == [] {
      return;
    }
    var occupancy := new Option<string>[pduBits](_ => None);
    assert occupancy[..] == Empty(pduBits);
    for i := 0 to |ms|
      invariant occupancy[..] == Occupied(pduBits, ms[..i], lengths)
      invariant grown == errors + Found(pduBits, ms[..i], lengths)
    {
      assert ms[..i + 1][..i] == ms[..i];
      var name := ms[i].signalShortNameRef;
      NothingToClaim(occupancy[..], name);
      if name !in lengths {
        continue;
      }
      assert ms[i] in ms;
      if lengths[name] == 0 {
        NoBits(ms[i].byteOrder, ToInt32(ms[i].startPosition));
        continue;
      }
      var bits := PhysicalBitsForSignal(ms[i].byteOrder, ToInt32(ms[i].startPosition), ToInt32(lengths[name]));
      var finding := ClaimBits(occupancy, name, bits);
      if finding.Some? {
        grown := grown + [finding.value];
      }
    }
    assert ms[..|ms|] == ms;
  }

  lemma NothingToClaim(occ: Occupancy, name: string)
    ensures Claim(occ, name, []) == (occ, None)
  {}

  lemma NoBits(order: ByteOrder, start: int)
    ensures SignalBits(order, start, ToInt32(0)) == []
  {}

  // ----- what claiming does -----

  lemma {:induction false} ClaimLength(occ: Occupancy, name: string, bits: seq<int>)
    ensures |Claim(occ, name, bits).0| == |occ|
    decreases |bits|
  {
    if bits != [] && 0 <= bits[0] < |occ| && !(occ[bits[0]].Some? && occ[bits[0]].value != name) {
      ClaimLength(occ[bits[0] := Some(name)], name, bits[1..]);
    }
  }

  /** All bits in the payload, none held by another name. */
  predicate Claimable(occ: Occupancy, name: string, bits: seq<int>) {
    forall bit <- bits :: Free(occ, name, bit)
  }

  predicate Free(occ: Occupancy, name: string, bit: int) {
    0 <= bit < |occ| && (occ[bit] == None || occ[bit] == Some(name))
  }

  /** No finding exactly when everything can be claimed, and then everything is. */
  lemma {:induction false} ClaimSucceeds(occ: Occupancy, name: string, bits: seq<int>)
    ensures Claim(occ, name, bits).1 == None <==> Claimable(occ, name, bits)
    ensures Claimable(occ, name, bits) ==>
      |Claim(occ, name, bits).0| == |occ|
      && forall b :: 0 <= b < |occ| ==> Claim(occ, name, bits).0[b] == if b in bits then Some(name) else occ[b]
    decreases |bits|
  {
    if bits != [] {
      assert bits == [bits[0]] + bits[1..];
      if 0 <= bits[0] < |occ| && !(occ[bits[0]].Some? && occ[bits[0]].value != name) {
        var next := occ[bits[0] := Some(name)];
        ClaimSucceeds(next, name, bits[1..]);
        forall bit ensures Free(next, name, bit) <==> Free(occ, name, bit) {}
      } else {
        assert bits[0] in bits;
      }
    }
  }

  /** Whatever happens, a bit changes hands only to the claimant, and only if it is one of the bits. */
  lemma {:induction false} ClaimOwners(occ: Occupancy, name: string, bits: seq<int>, b: nat)
    requires b < |occ|
    ensures |Claim(occ, name, bits).0| == |occ|
    ensures Claim(occ, name, bits).0[b] == occ[b] || (b in bits && Claim(occ, name, bits).0[b] == Some(name))
    decreases |bits|
  {
    if bits != [] {
      assert bits == [bits[0]] + bits[1..];
      if 0 <= bits[0] < |occ| && !(occ[bits[0]].Some? && occ[bits[0]].value != name) {
        ClaimOwners(occ[bits[0] := Some(name)], name, bits[1..], b);
      }
    }
  }

  /** What a finding of one claim says. */
  lemma {:induction false} FindingMeans(occ: Occupancy, name: string, bits: seq<int>)
    requires Claim(occ, name, bits).1.Some?
    ensures var f := Claim(occ, name, bits).1.value;
      && f.bit in bits && f.sig == name
      && (f.SignalOutOfRange? ==> !(0 <= f.bit < |occ|))
      && (f.SignalOverlap? ==> 0 <= f.bit < |occ| && f.owner != name && occ[f.bit] == Some(f.owner))
    decreases |bits|
  {
    assert bits == [bits[0]] + bits[1..];
    if 0 <= bits[0] < |occ| && !(occ[bits[0]].Some? && occ[bits[0]].value != name) {
      FindingMeans(occ[bits[0] := Some(name)], name, bits[1..]);
    }
  }

  // ----- who owns what -----

  ghost predicate ClaimedBy(ms: seq<PduSignalMapping>, lengths: map<string, nat>, name: string, bit: int) {
    exists m <- ms :: m.signalShortNameRef == name && bit in Claims(m, lengths)
  }

  lemma ClaimedByOneMore(ms: seq<PduSignalMapping>, lengths: map<string, nat>, name: string, bit: int)
    requires ms != []
    ensures ClaimedBy(ms, lengths, name, bit) <==>
      || ClaimedBy(ms[..|ms| - 1], lengths, name, bit)
      || (ms[|ms| - 1].signalShortNameRef == name && bit in Claims(ms[|ms| - 1], lengths))
  {
    hide Claims;
    assert ms == ms[..|ms| - 1] + [ms[|ms| - 1]];
  }

  /** An owner on record really has the bit, findings or not. */
  lemma {:induction false} OwnersAreReal(bits: nat, ms: seq<PduSignalMapping>, lengths: map<string, nat>, b: nat)
    requires b < bits
    ensures |Occupied(bits, ms, lengths)| == bits
    ensures Occupied(bits, ms, lengths)[b].Some? ==> ClaimedBy(ms, lengths, Occupied(bits, ms, lengths)[b].value, b)
  {
    hide Claim, Claims, ClaimedBy;
    if ms != [] {
      var front, m := ms[..|ms| - 1], ms[|ms| - 1];
      OwnersAreReal(bits, front, lengths, b);
      ClaimOwners(Occupied(bits, front, lengths), m.signalShortNameRef, Claims(m, lengths), b);
      var now := Occupied(bits, ms, lengths)[b];
      if now.Some? {
        ClaimedByOneMore(ms, lengths, now.value, b);
      }
    }
  }

  /** As long as nothing was found, the record is complete as well. */
  lemma {:induction false} RecordIsComplete(bits: nat, ms: seq<PduSignalMapping>, lengths: map<string, nat>,
                                            name: string, b: nat)
    requires b < bits && Found(bits, ms, lengths) == []
    ensures |Occupied(bits, ms, lengths)| == bits
    ensures Occupied(bits, ms, lengths)[b] == Some(name) <==> ClaimedBy(ms, lengths, name, b)
  {
    hide Claim, Claims, ClaimedBy;
    OccupiedLength(bits, ms, lengths);
    if ms == [] {
      NobodyClaims(lengths, name, b);
    } else {
      var front, m := ms[..|ms| - 1], ms[|ms| - 1];
      var before := Occupied(bits, front, lengths);
      RecordIsComplete(bits, front, lengths, name, b);
      ClaimSucceeds(before, m.signalShortNameRef, Claims(m, lengths));
      ClaimedByOneMore(ms, lengths, name, b);
    }
  }

  lemma NobodyClaims(lengths: map<string, nat>, name: string, b: int)
    ensures !ClaimedBy([], lengths, name, b)
  {}

  lemma {:induction false} OccupiedLength(bits: nat, ms: seq<PduSignalMapping>, lengths: map<string, nat>)
    ensures |Occupied(bits, ms, lengths)| == bits
  {
    hide Claim, Claims;
    if ms != [] {
      OccupiedLength(bits, ms[..|ms| - 1], lengths);
      ClaimLength(Occupied(bits, ms[..|ms| - 1], lengths), ms[|ms| - 1].signalShortNameRef,
                  Claims(ms[|ms| - 1], lengths));
    }
  }

  // ----- exactness -----

  ghost predicate Fits(m: PduSignalMapping, lengths: map<string, nat>, bits: nat) {
    forall b <- Claims(m, lengths) :: 0 <= b < bits
  }

  ghost predicate Collide(m: PduSignalMapping, m': PduSignalMapping, lengths: map<string, nat>) {
    m.signalShortNameRef != m'.signalShortNameRef && !DisjointBits(Claims(m, lengths), Claims(m', lengths))
  }

  /** Every signal inside the payload, no two differently named ones on one bit. */
  ghost predicate WellPlaced(ms: seq<PduSignalMapping>, lengths: map<string, nat>, bits: nat) {
    && (forall m <- ms :: Fits(m, lengths, bits))
    && (forall m, m' :: m in ms && m' in ms ==> !Collide(m, m', lengths))
  }

  ghost predicate MeetsNone(m: PduSignalMapping, ms: seq<PduSignalMapping>, lengths: map<string, nat>) {
    forall m' :: m' in ms ==> !Collide(m, m', lengths)
  }

  lemma WellPlacedOneMore(ms: seq<PduSignalMapping>, lengths: map<string, nat>, bits: nat)
    requires ms != []
    ensures WellPlaced(ms, lengths, bits) <==>
      && WellPlaced(ms[..|ms| - 1], lengths, bits) && Fits(ms[|ms| - 1], lengths, bits)
      && MeetsNone(ms[|ms| - 1], ms[..|ms| - 1], lengths)
  {
    var front, m := ms[..|ms| - 1], ms[|ms| - 1];
    assert ms == front + [m];
    forall a, b ensures Collide(a, b, lengths) == Collide(b, a, lengths) {}
    hide Fits, Collide;
    assert !Collide(m, m, lengths) by { NoSelfCollision(m, lengths); }
  }

  lemma NoSelfCollision(m: PduSignalMapping, lengths: map<string, nat>)
    ensures !Collide(m, m, lengths)
  {}

  /** With nothing found so far, the next signal can be claimed exactly when it fits and meets no other. */
  lemma ClaimableIff(bits: nat, ms: seq<PduSignalMapping>, lengths: map<string, nat>, m: PduSignalMapping)
    requires Found(bits, ms, lengths) == []
    ensures Claimable(Occupied(bits, ms, lengths), m.signalShortNameRef, Claims(m, lengths))
      <==> Fits(m, lengths, bits) && MeetsNone(m, ms, lengths)
  {
    hide Claim, Claims, Occupied, Found;
    var occ, name := Occupied(bits, ms, lengths), m.signalShortNameRef;
    OccupiedLength(bits, ms, lengths);
    forall b: nat, n | b < bits ensures occ[b] == Some(n) <==> ClaimedBy(ms, lengths, n, b) {
      RecordIsComplete(bits, ms, lengths, n, b);
    }
    forall m', b | m' in ms && b in Claims(m', lengths) && 0 <= b < bits ensures occ[b] == Some(m'.signalShortNameRef) {
      assert ClaimedBy(ms, lengths, m'.signalShortNameRef, b);
    }
    if Claimable(occ, name, Claims(m, lengths)) {
      forall b | b in Claims(m, lengths) ensures 0 <= b < bits && (occ[b] == None || occ[b] == Some(name)) {
        assert Free(occ, name, b);
      }
      forall m' | m' in ms && m'.signalShortNameRef != name
        ensures DisjointBits(Claims(m, lengths), Claims(m', lengths)) {}
    }
    if Fits(m, lengths, bits) && MeetsNone(m, ms, lengths) {
      forall b | b in Claims(m, lengths) ensures Free(occ, name, b) {
        if occ[b].Some? {
          assert ClaimedBy(ms, lengths, occ[b].value, b);
          var m' :| m' in ms && m'.signalShortNameRef == occ[b].value && b in Claims(m', lengths);
          assert !Collide(m, m', lengths);
        }
      }
    }
  }

  /** The check stays silent exactly on well placed signals, early breaks notwithstanding. */
  lemma {:induction false} FoundExact(bits: nat, ms: seq<PduSignalMapping>, lengths: map<string, nat>)
    ensures Found(bits, ms, lengths) == [] <==> WellPlaced(ms, lengths, bits)
  {
    hide Claim, Claims, Occupied, Fits, Collide;
    if ms != [] {
      var front, m := ms[..|ms| - 1], ms[|ms| - 1];
      FoundExact(bits, front, lengths);
      WellPlacedOneMore(ms, lengths, bits);
      if Found(bits, front, lengths) == [] {
        ClaimableIff(bits, front, lengths, m);
        ClaimSucceeds(Occupied(bits, front, lengths), m.signalShortNameRef, Claims(m, lengths));
      }
    }
  }

  lemma OverlapCheckIsExact(pdu: Pdu, lengths: map<string, nat>)
    requires pdu.length > 0
    ensures Findings(pdu, lengths) == [] <==> WellPlaced(pdu.signalMappings, lengths, 8 * pdu.length)
  {
    FoundExact(8 * pdu.length, pdu.signalMappings, lengths);
  }

  /** One finding per mapping at most, in order, and each is true of the signals it names. */
  lemma {:induction false} FindingsAreTrue(bits: nat, ms: seq<PduSignalMapping>, lengths: map<string, nat>, f: Finding)
    requires f in Found(bits, ms, lengths)
    ensures |Found(bits, ms, lengths)| <= |ms|
    ensures ClaimedBy(ms, lengths, f.sig, f.bit)
    ensures f.SignalOutOfRange? ==> !(0 <= f.bit < bits)
    ensures f.SignalOverlap? ==> f.owner != f.sig && ClaimedBy(ms, lengths, f.owner, f.bit)
  {
    hide Claim, Claims, ClaimedBy, Occupied;
    AtMostOneEach(bits, ms, lengths);
    var front, m := ms[..|ms| - 1], ms[|ms| - 1];
    ClaimedByOneMore(ms, lengths, f.sig, f.bit);
    if f.SignalOverlap? {
      ClaimedByOneMore(ms, lengths, f.owner, f.bit);
    }
    OccupiedLength(bits, front, lengths);
    if f in Found(bits, front, lengths) {
      FindingsAreTrue(bits, front, lengths, f);
    } else {
      FindingMeans(Occupied(bits, front, lengths), m.signalShortNameRef, Claims(m, lengths));
      if f.SignalOverlap? {
        OwnersAreReal(bits, front, lengths, f.bit);
      }
    }
  }

  lemma {:induction false} AtMostOneEach(bits: nat, ms: seq<PduSignalMapping>, lengths: map<string, nat>)
    ensures |Found(bits, ms, lengths)| <= |ms|
  {
    hide Claim, Claims, Occupied;
    if ms != [] {
      AtMostOneEach(bits, ms[..|ms| - 1], lengths);
    }
  }
}
