/** Diff entries and reports. */
module DiffReport {
  import opened Model
  import opened Sorting
  import opened Text

  datatype DiffKind = Added | Removed | Moved | Modified

  /** Field names: a field, an item of a keyed collection, or a field of such an item. */
  datatype Field =
    | CommonField | Baudrate | PhysicalChannels | ConnectedChannels | Controllers | Length | Transmitters | Pdus
    | PduShortNameRef | StartPosition | SignalShortNameRef | ByteOrderField | SignalMappings | Value | Label
    | StartBit | BitLength | IsSigned | Factor | Offset | Min | Max | Unit | InitValue | Receivers | ValueTable
    | Members

  datatype FieldName = Plain(field: Field) | Item(field: Field, key: string) | ItemField(field: Field, key: string,
    sub: Field)

  datatype FieldDiff = FieldDiff(fieldName: FieldName, oldValue: string, newValue: string)

  datatype DiffEntry = DiffEntry(
    kind: DiffKind,
    elementType: ElementType,
    oldPath: string,
    newPath: string,
    fieldDiffs: seq<FieldDiff>)

  datatype DiffDiagnostic = DiffDiagnostic(message: string, elementType: ElementType)

  /** newPath, except that a removed element sorts by the only path it has. */
  function SortKey(e: DiffEntry): string {
    match e.kind
    case Removed => e.oldPath
    case _ => e.newPath
  }

  predicate EntryLeq(a: DiffEntry, b: DiffEntry) {
    if SortKey(a) != SortKey(b) then StrLeq(SortKey(a), SortKey(b))
    else Rank(a.elementType) <= Rank(b.elementType)
  }

  predicate DiagnosticLeq(a: DiffDiagnostic, b: DiffDiagnostic) {
    if a.message != b.message then StrLeq(a.message, b.message)
    else Rank(a.elementType) <= Rank(b.elementType)
  }

  lemma EntryOrder()
    ensures TotalPreorder(EntryLeq)
  {
    hide StrLeq, SortKey;
    forall x, y ensures EntryLeq(x, y) || EntryLeq(y, x) {
      StrTotal(SortKey(x), SortKey(y));
    }
    forall x, y, z | EntryLeq(x, y) && EntryLeq(y, z) ensures EntryLeq(x, z) {
      var a, b, c := SortKey(x), SortKey(y), SortKey(z);
      if a != b && b != c {
        StrTransitive(a, b, c);
        if a == c {
          StrAntisymmetric(a, b);
        }
      }
    }
  }

  lemma DiagnosticOrder()
    ensures TotalPreorder(DiagnosticLeq)
  {
    hide StrLeq;
    forall x, y ensures DiagnosticLeq(x, y) || DiagnosticLeq(y, x) {
      StrTotal(x.message, y.message);
    }
    forall x, y, z | DiagnosticLeq(x, y) && DiagnosticLeq(y, z) ensures DiagnosticLeq(x, z) {
      var a, b, c := x.message, y.message, z.message;
      if a != b && b != c {
        StrTransitive(a, b, c);
        if a == c {
          StrAntisymmetric(a, b);
        }
      }
    }
  }

  /** Diagnostics have no field the order ignores, so sorting them has one outcome. */
  lemma DiagnosticsSortOneWay(a: seq<DiffDiagnostic>, b: seq<DiffDiagnostic>, s: seq<DiffDiagnostic>)
    requires SortOf(a, s, DiagnosticLeq) && SortOf(b, s, DiagnosticLeq)
    ensures a == b
  {
    hide StrLeq;
    forall x, y | x in a && y in a && DiagnosticLeq(x, y) && DiagnosticLeq(y, x) ensures x == y {
      if x.message != y.message {
        StrAntisymmetric(x.message, y.message);
      }
      RankTellsTypesApart(x.elementType, y.elementType);
    }
    SortedUnique(a, b, DiagnosticLeq);
  }

  class Report {
    var entries: seq<DiffEntry>
    var diagnostics: seq<DiffDiagnostic>

    constructor ()
      ensures entries == [] && diagnostics == []
    {
      entries, diagnostics := [], [];
    }

    /** Appends the other report, each side in its own order. */
    method Merge(other: Report)
      modifies this, other
      requires other != this
      ensures entries == old(entries) + old(other.entries)
      ensures diagnostics == old(diagnostics) + old(other.diagnostics)
      ensures other.entries == [] && other.diagnostics == []
    {
      entries := entries + other.entries;
      other.entries := [];
      diagnostics := diagnostics + other.diagnostics;
      other.diagnostics := [];
    }

    /** The final ordering pass; the library sort it uses is not stable. */
    method SortDeterministically()
      modifies this
      ensures SortOf(entries, old(entries), EntryLeq)
      ensures SortOf(diagnostics, old(diagnostics), DiagnosticLeq)
    {
      EntryOrder();
      DiagnosticOrder();
      entries := UnstableSort(entries, EntryLeq);
      diagnostics := UnstableSort(diagnostics, DiagnosticLeq);
    }
  }
}
