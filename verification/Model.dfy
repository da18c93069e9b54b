/** The domain records the parser builds, the writer prints and the diff engine compares. */
module Model {
  import opened Wrappers
  import opened RawTree

  // Limits of the machine integers.
  const TWO_31: int := 0x8000_0000
  const TWO_32: int := 0x1_0000_0000
  const TWO_63: int := 0x8000_0000_0000_0000
  const TWO_64: int := 0x1_0000_0000_0000_0000

  /** A double, known by the 17-digit text it prints as. */
  datatype Double = Double(text: string)

  datatype ByteOrder = MostSignificantByteFirst | LeastSignificantByteFirst

  datatype CommonFields = CommonFields(shortName: string, category: Option<string>, rawSpanRef: RawSpan)

  datatype Cluster = Cluster(common: CommonFields, baudrate: Option<nat>, physicalChannels: seq<string>)

  datatype EcuInstance = EcuInstance(common: CommonFields, connectedChannels: seq<string>, controllers: seq<string>)

  datatype FramePduMapping = FramePduMapping(pduShortNameRef: string, startPosition: nat)

  datatype Frame = Frame(common: CommonFields, length: nat, transmitters: seq<string>, pdus: seq<FramePduMapping>)

  datatype PduSignalMapping = PduSignalMapping(signalShortNameRef: string, startPosition: nat, byteOrder: ByteOrder)

  datatype Pdu = Pdu(common: CommonFields, length: nat, signalMappings: seq<PduSignalMapping>)

  datatype ValueTableEntry = ValueTableEntry(value: int, labelText: string)

  datatype Signal = Signal(
    common: CommonFields,
    startBit: nat,
    bitLength: nat,
    byteOrder: ByteOrder,
    isSigned: bool,
    factor: Double,
    offset: Double,
    min: Option<Double>,
    max: Option<Double>,
    unit: Option<string>,
    initValue: Option<Double>,
    receivers: seq<string>,
    valueTable: Option<seq<ValueTableEntry>>)

  datatype SignalGroup = SignalGroup(common: CommonFields, members: seq<string>)

  datatype ParsedFile = ParsedFile(
    clusters: seq<Cluster>,
    ecuInstances: seq<EcuInstance>,
    frames: seq<Frame>,
    pdus: seq<Pdu>,
    signals: seq<Signal>,
    signalGroups: seq<SignalGroup>)

  const EMPTY_FILE := ParsedFile([], [], [], [], [], [])

  datatype ParsedProject = ParsedProject(files: seq<ParsedFile>)

  /** Any of the six top-level records; the six instances of the source's templates share it. */
  datatype Element =
    | ClusterElement(cluster: Cluster)
    | EcuElement(ecu: EcuInstance)
    | FrameElement(frame: Frame)
    | PduElement(pdu: Pdu)
    | SignalElement(sig: Signal)
    | GroupElement(group: SignalGroup)
  {
    function Common(): CommonFields {
      match this
      case ClusterElement(c) => c.common
      case EcuElement(e) => e.common
      case FrameElement(f) => f.common
      case PduElement(p) => p.common
      case SignalElement(s) => s.common
      case GroupElement(g) => g.common
    }
  }

  /** Element type names, in their alphabetical order. */
  datatype ElementType = ClusterType | EcuInstanceType | FrameType | PduType | SignalType | SignalGroupType

  function Rank(t: ElementType): nat {
    match t
    case ClusterType => 0
    case EcuInstanceType => 1
    case FrameType => 2
    case PduType => 3
    case SignalType => 4
    case SignalGroupType => 5
  }

  lemma RankTellsTypesApart(a: ElementType, b: ElementType)
    requires Rank(a) == Rank(b)
    ensures a == b
  {}

  predicate HasType(e: Element, t: ElementType) {
    match e
    case ClusterElement(_) => t == ClusterType
    case EcuElement(_) => t == EcuInstanceType
    case FrameElement(_) => t == FrameType
    case PduElement(_) => t == PduType
    case SignalElement(_) => t == SignalType
    case GroupElement(_) => t == SignalGroupType
  }

  /** The records of one type in one file. */
  function FileElements(file: ParsedFile, t: ElementType): (r: seq<Element>)
    ensures forall e <- r :: HasType(e, t)
  {
    match t
    case ClusterType => seq(|file.clusters|, i requires 0 <= i < |file.clusters| => ClusterElement(file.clusters[i]))
    case EcuInstanceType => seq(|file.ecuInstances|,
                                i requires 0 <= i < |file.ecuInstances| => EcuElement(file.ecuInstances[i]))
    case FrameType => seq(|file.frames|, i requires 0 <= i < |file.frames| => FrameElement(file.frames[i]))
    case PduType => seq(|file.pdus|, i requires 0 <= i < |file.pdus| => PduElement(file.pdus[i]))
    case SignalType => seq(|file.signals|, i requires 0 <= i < |file.signals| => SignalElement(file.signals[i]))
    case SignalGroupType => seq(|file.signalGroups|,
                                i requires 0 <= i < |file.signalGroups| => GroupElement(file.signalGroups[i]))
  }
}
