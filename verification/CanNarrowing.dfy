/**
  What the overlap check says of the bits a file states. Starts and lengths are
  unsigned in the file and narrowed to signed integers for the check, which
  leaves a signal that does not survive the narrowing without bits.
 */
module CanNarrowing {
  import opened CanBits
  import opened CanOverlap
  import opened Model
  import opened Sorting

  // ----- the bits meant -----

  /** The bits of a mapping as the file states them, nothing narrowed. */
  function MeantBits(m: PduSignalMapping, lengths: map<string, nat>): seq<int> {
    if m.signalShortNameRef !in lengths then []
    else SignalBits(m.byteOrder, m.startPosition, lengths[m.signalShortNameRef])
  }

  /** Every signal's own bits in the payload, those of two names never meeting. */
  ghost predicate WellMeant(ms: seq<PduSignalMapping>, lengths: map<string, nat>, bits: nat) {
    && (forall m <- ms :: MeantFits(m, lengths, bits))
    && (forall m, m' :: m in ms && m' in ms ==> !MeantMeet(m, m', lengths))
  }

  ghost predicate MeantFits(m: PduSignalMapping, lengths: map<string, nat>, bits: nat) {
    forall b <- MeantBits(m, lengths) :: 0 <= b < bits
  }

  ghost predicate MeantMeet(m: PduSignalMapping, m': PduSignalMapping, lengths: map<string, nat>) {
    m.signalShortNameRef != m'.signalShortNameRef && !DisjointBits(MeantBits(m, lengths), MeantBits(m', lengths))
  }

  // ----- what narrowing keeps -----

  /** As stored in a record: unsigned 32-bit numbers. */
  predicate Stored(ms: seq<PduSignalMapping>, lengths: map<string, nat>) {
    && (forall m <- ms :: m.startPosition < TWO_32)
    && (forall name <- lengths :: lengths[name] < TWO_32)
  }

  /** Start and length survive the narrowing. */
  predicate InRange(m: PduSignalMapping, lengths: map<string, nat>) {
    m.startPosition < TWO_31 && (m.signalShortNameRef in lengths ==> lengths[m.signalShortNameRef] < TWO_31)
  }

  /** The mapping names a signal of the file that has bits at all. */
  predicate HasBits(m: PduSignalMapping, lengths: map<string, nat>) {
    m.signalShortNameRef in lengths && lengths[m.signalShortNameRef] > 0
  }

  function Seen(lengths: map<string, nat>): PduSignalMapping -> bool {
    m => InRange(m, lengths)
  }

  /** The check sees the meant bits of a mapping in range and none of any other. */
  lemma ClaimsOfNarrowed(m: PduSignalMapping, lengths: map<string, nat>)
    requires Stored([m], lengths)
    ensures Claims(m, lengths) == if InRange(m, lengths) then MeantBits(m, lengths) else []
  {
    hide IntelRun, MotorolaWalk;
    assert m in [m];
  }

  /** A signal out of range has a bit no payload of fewer than 2^31 bits has. */
  lemma OutOfRangeNeverFits(m: PduSignalMapping, lengths: map<string, nat>, bytes: nat)
    requires !InRange(m, lengths) && HasBits(m, lengths) && 8 * bytes < TWO_31
    ensures !MeantFits(m, lengths, 8 * bytes)
  {
    hide SignalBits, Saw;
    assert MeantBits(m, lengths) == SignalBits(m.byteOrder, m.startPosition, lengths[m.signalShortNameRef]);
    FitsIff(m.byteOrder, m.startPosition, lengths[m.signalShortNameRef], bytes);
    SawNear(m.startPosition);
    FarByte(m.startPosition, Saw(m.startPosition));
  }

  lemma FarByte(start: nat, p: int)
    requires p / 8 == start / 8
    ensures start >= TWO_31 ==> p >= TWO_31
  {}

  lemma NoMeantBits(m: PduSignalMapping, lengths: map<string, nat>)
    requires !HasBits(m, lengths)
    ensures MeantBits(m, lengths) == []
  {}

  // ----- what silence means -----

  /** The check is silent exactly when the signals in range are well placed; it knows nothing of the others. */
  lemma SilentIff(pdu: Pdu, lengths: map<string, nat>)
    requires pdu.length > 0 && Stored(pdu.signalMappings, lengths)
    ensures Findings(pdu, lengths) == [] <==>
      WellMeant(Filter(pdu.signalMappings, Seen(lengths)), lengths, 8 * pdu.length)
  {
    var ms, bits := pdu.signalMappings, 8 * pdu.length;
    var seen := Filter(ms, Seen(lengths));
    OverlapCheckIsExact(pdu, lengths);
    FilterMembers(ms, Seen(lengths));
    hide Filter, Findings, Claims, MeantBits, DisjointBits;
    forall m | m in ms ensures Claims(m, lengths) == if m in seen then MeantBits(m, lengths) else [] {
      ClaimsOfNarrowed(m, lengths);
    }
    forall m | m in ms ensures Fits(m, lengths, bits) <==> m in seen ==> MeantFits(m, lengths, bits) {}
    forall m, m' | m in ms && m' in ms
      ensures Collide(m, m', lengths) <==> m in seen && m' in seen && MeantMeet(m, m', lengths)
    {
      NothingMeets(Claims(m, lengths));
      NothingMeets(Claims(m', lengths));
    }
    hide Fits, Collide, MeantFits, MeantMeet;
    assert WellPlaced(ms, lengths, bits) <==> WellMeant(seen, lengths, bits);
  }

  lemma NothingMeets(bits: seq<int>)
    ensures DisjointBits([], bits) && DisjointBits(bits, [])
  {}

  /**
    A finding always means that something is misplaced. Silence means that
    nothing is exactly when every signal with bits is in range.
   */
  lemma AnswerIsRightIff(pdu: Pdu, signals: seq<Signal>)
    requires 0 < 8 * pdu.length < TWO_31 && Stored(pdu.signalMappings, Lengths(signals))
    ensures Findings(pdu, Lengths(signals)) != [] ==> !WellMeant(pdu.signalMappings, Lengths(signals), 8 * pdu.length)
    ensures Findings(pdu, Lengths(signals)) == [] ==>
      (WellMeant(pdu.signalMappings, Lengths(signals), 8 * pdu.length) <==>
       forall m <- pdu.signalMappings :: HasBits(m, Lengths(signals)) ==> InRange(m, Lengths(signals)))
  {
    var lengths, ms, bits := Lengths(signals), pdu.signalMappings, 8 * pdu.length;
    var seen := Filter(ms, Seen(lengths));
    SilentIff(pdu, lengths);
    FilterMembers(ms, Seen(lengths));
    hide Filter, Findings, Lengths, MeantFits, MeantMeet, HasBits, InRange;
    forall m | m in ms && HasBits(m, lengths) && !InRange(m, lengths) ensures !MeantFits(m, lengths, bits) {
      OutOfRangeNeverFits(m, lengths, pdu.length);
    }
    forall m | m in ms && !HasBits(m, lengths) ensures Bitless(m, lengths, bits) {
      BitlessIsHarmless(m, lengths, bits);
    }
  }

  ghost predicate Bitless(m: PduSignalMapping, lengths: map<string, nat>, bits: nat) {
    && MeantFits(m, lengths, bits)
    && forall m' :: !MeantMeet(m, m', lengths) && !MeantMeet(m', m, lengths)
  }

  lemma BitlessIsHarmless(m: PduSignalMapping, lengths: map<string, nat>, bits: nat)
    requires !HasBits(m, lengths)
    ensures Bitless(m, lengths, bits)
  {
    NoMeantBits(m, lengths);
    forall m' ensures !MeantMeet(m, m', lengths) && !MeantMeet(m', m, lengths) {
      NothingMeets(MeantBits(m', lengths));
    }
  }

  /** One signal whose start or whose length does not survive the narrowing: misplaced, and nothing is said. */
  lemma OutOfRangeIsMissed(pdu: Pdu, signals: seq<Signal>)
    requires 0 < 8 * pdu.length < TWO_31 && |pdu.signalMappings| == 1
    requires Stored(pdu.signalMappings, Lengths(signals))
    requires HasBits(pdu.signalMappings[0], Lengths(signals)) && !InRange(pdu.signalMappings[0], Lengths(signals))
    ensures Findings(pdu, Lengths(signals)) == []
    ensures !WellMeant(pdu.signalMappings, Lengths(signals), 8 * pdu.length)
  {
    SilentIff(pdu, Lengths(signals));
    FilterMembers(pdu.signalMappings, Seen(Lengths(signals)));
    AnswerIsRightIff(pdu, signals);
  }

  /** Two such inputs, each an eight-byte PDU with one signal. */
  lemma MissedInputs(common: CommonFields, s: Signal, order: ByteOrder)
    requires s.common.shortName == "S"
    ensures var far, one := Pdu(common, 8, [PduSignalMapping("S", TWO_31, order)]), [s.(bitLength := 1)];
      Findings(far, Lengths(one)) == [] && !WellMeant(far.signalMappings, Lengths(one), 64)
    ensures var near, long := Pdu(common, 8, [PduSignalMapping("S", 0, order)]), [s.(bitLength := TWO_31)];
      Findings(near, Lengths(long)) == [] && !WellMeant(near.signalMappings, Lengths(long), 64)
  {
    hide Findings, WellMeant;
    var one, long := [s.(bitLength := 1)], [s.(bitLength := TWO_31)];
    LengthOfOne(one);
    LengthOfOne(long);
    OutOfRangeIsMissed(Pdu(common, 8, [PduSignalMapping("S", TWO_31, order)]), one);
    OutOfRangeIsMissed(Pdu(common, 8, [PduSignalMapping("S", 0, order)]), long);
  }

  lemma LengthOfOne(signals: seq<Signal>)
    requires |signals| == 1
    ensures Lengths(signals) == map[signals[0].common.shortName := signals[0].bitLength]
  {
    assert Lengths(signals[..0]) == map[];
  }

  // ----- a file -----

  /** The overlap findings of a file, PDU by PDU. */
  function FileFindings(pdus: seq<Pdu>, lengths: map<string, nat>): seq<Finding> {
    if pdus == [] then []
    else FileFindings(pdus[..|pdus| - 1], lengths) + Findings(pdus[|pdus| - 1], lengths)
  }

  ghost predicate FileDefined(file: ParsedFile) {
    forall pdu, m :: pdu in file.pdus && m in pdu.signalMappings ==> WalkDefined(m, Lengths(file.signals))
  }

  method CheckFile(file: ParsedFile, errors: seq<Finding>) returns (grown: seq<Finding>)
    requires FileDefined(file)
    ensures grown == errors + FileFindings(file.pdus, Lengths(file.signals))
  {
    hide Findings, Lengths, WalkDefined;
    var lengths := IndexSignals(file.signals);
    grown := errors;
    for i := 0 to |file.pdus|
      invariant grown == errors + FileFindings(file.pdus[..i], lengths)
    {
      assert file.pdus[..i + 1][..i] == file.pdus[..i];
      assert file.pdus[i] in file.pdus;
      grown := CheckSignalOverlap(file.pdus[i], lengths, grown);
    }
    assert file.pdus[..|file.pdus|] == file.pdus;
  }

  /** A file passes exactly when every PDU of it does. */
  lemma {:induction false} FileSilentIff(pdus: seq<Pdu>, lengths: map<string, nat>)
    ensures FileFindings(pdus, lengths) == [] <==> forall pdu <- pdus :: Findings(pdu, lengths) == []
  {
    hide Findings;
    if pdus != [] {
      var front, last := pdus[..|pdus| - 1], pdus[|pdus| - 1];
      FileSilentIff(front, lengths);
      assert pdus == front + [last];
    }
  }

  ghost predicate FileWellMeant(file: ParsedFile) {
    forall pdu <- file.pdus :: pdu.length > 0 ==> WellMeant(pdu.signalMappings, Lengths(file.signals), 8 * pdu.length)
  }

  predicate FileInRange(file: ParsedFile) {
    forall pdu <- file.pdus :: pdu.length > 0 ==>
      forall m <- pdu.signalMappings :: HasBits(m, Lengths(file.signals)) ==> InRange(m, Lengths(file.signals))
  }

  predicate FileStored(file: ParsedFile) {
    forall pdu <- file.pdus :: 8 * pdu.length < TWO_31 && Stored(pdu.signalMappings, Lengths(file.signals))
  }

  /** The same of a whole file: findings are never wrong, silence is right exactly when nothing was narrowed. */
  lemma FileAnswerIsRightIff(file: ParsedFile)
    requires FileStored(file)
    ensures FileFindings(file.pdus, Lengths(file.signals)) != [] ==> !FileWellMeant(file)
    ensures FileFindings(file.pdus, Lengths(file.signals)) == [] ==> (FileWellMeant(file) <==> FileInRange(file))
  {
    var lengths := Lengths(file.signals);
    FileSilentIff(file.pdus, lengths);
    forall pdu | pdu in file.pdus && pdu.length > 0 ensures PduAnswer(pdu, lengths) {
      AnswerIsRightIff(pdu, file.signals);
    }
    hide FileFindings, Lengths, WellMeant, HasBits, InRange, Stored;
    forall pdu | pdu in file.pdus && Findings(pdu, lengths) != [] ensures pdu.length > 0 && PduAnswer(pdu, lengths) {}
  }

  ghost predicate PduAnswer(pdu: Pdu, lengths: map<string, nat>) {
    && (Findings(pdu, lengths) != [] ==> !WellMeant(pdu.signalMappings, lengths, 8 * pdu.length))
    && (Findings(pdu, lengths) == [] ==>
        (WellMeant(pdu.signalMappings, lengths, 8 * pdu.length) <==>
         forall m <- pdu.signalMappings :: HasBits(m, lengths) ==> InRange(m, lengths)))
  }
}
