/**
  The CSV export against a reader written from RFC 4180, section 2: one record
  per line ended by CRLF, fields in double quotes where needed.
 */
module Csv {
  import opened Model
  import opened Sorting
  import opened Text
  import opened Wrappers

  const CRLF := "\r\n"

  // ----- the writer -----

  predicate IsSpecial(c: char) {
    c == ',' || c == '\"' || c == '\r' || c == '\n'
  }

  predicate NeedsQuotes(field: string) {
    exists c <- field :: IsSpecial(c)
  }

  function Doubled(text: string): string {
    if text == "" then ""
    else Doubled(text[..|text| - 1]) + if text[|text| - 1] == '\"' then "\"\"" else [text[|text| - 1]]
  }

  function FieldText(field: string): string {
    if NeedsQuotes(field) then "\"" + Doubled(field) + "\"" else field
  }

  function FieldsText(cells: seq<string>): string {
    if cells == [] then ""
    else if |cells| == 1 then FieldText(cells[0])
    else FieldsText(cells[..|cells| - 1]) + "," + FieldText(cells[|cells| - 1])
  }

  function RowText(cells: seq<string>): string {
    FieldsText(cells) + CRLF
  }

  function RowsText(rows: seq<seq<string>>): string {
    if rows == [] then "" else RowsText(rows[..|rows| - 1]) + RowText(rows[|rows| - 1])
  }

  method AppendField(text: string, field: string) returns (out: string)
    ensures out == text + FieldText(field)
  {
    hide Doubled, NeedsQuotes;
    out := text;
    if !NeedsQuotes(field) {
      out := out + field;
      return;
    }
    out := out + "\"";
    DoubledNothing();
    for i := 0 to |field|
      invariant out == text + "\"" + Doubled(field[..i])
    {
      DoubledStep(field, i);
      if field[i] == '\"' {
        out := out + "\"";
      }
      out := out + [field[i]];
    }
    assert field[..|field|] == field;
    out := out + "\"";
  }

  lemma DoubledStep(field: string, i: nat)
    requires i < |field|
    ensures Doubled(field[..i + 1]) == Doubled(field[..i]) + (if field[i] == '\"' then "\"" else "") + [field[i]]
  {
    assert field[..i + 1][..i] == field[..i];
    assert "\"\"" == "\"" + "\"";
  }

  lemma FieldsStep(cells: seq<string>, i: nat)
    requires i < |cells|
    ensures FieldsText(cells[..i + 1]) == FieldsText(cells[..i]) + (if i == 0 then "" else ",") + FieldText(cells[i])
  {
    assert cells[..i + 1][..i] == cells[..i];
  }

  method AppendRow(text: string, cells: seq<string>) returns (out: string)
    ensures out == text + RowText(cells)
  {
    hide FieldText, FieldsText;
    out := text;
    NoFields();
    for i := 0 to |cells|
      invariant out == text + FieldsText(cells[..i])
    {
      FieldsStep(cells, i);
      if i != 0 {
        out := out + ",";
      }
      out := AppendField(out, cells[i]);
    }
    assert cells[..|cells|] == cells;
    out := out + CRLF;
  }

  lemma NoFields()
    ensures FieldsText([]) == ""
  {}

  // ----- what is exported -----

  datatype ExportSignal = ExportSignal(
    name: string,
    startBit: nat,
    bitLength: nat,
    byteOrder: ByteOrder,
    isSigned: bool,
    factor: Double,
    offset: Double,
    min: Option<Double>,
    max: Option<Double>,
    unit: string,
    initValue: Option<Double>,
    receivers: seq<string>,
    valueTable: seq<ValueTableEntry>)

  datatype ExportFrame = ExportFrame(
    name: string,
    id: nat,
    extended: bool,
    canFd: bool,
    length: nat,
    transmitters: seq<string>,
    signals: seq<ExportSignal>)

  const COLUMNS: seq<string> := [
    "frame", "frame_id", "extended", "can_fd", "length", "transmitters", "signal", "start_bit", "bit_length",
      "byte_order", "signed",
    "factor", "offset", "min", "max", "unit", "init_value", "receivers", "value_table"]

  const SIGNAL_COLUMNS := 13

  function BoolCell(b: bool): string {
    if b then "true" else "false"
  }

  function HexDigit(d: nat): char
    requires d < 16
  {
    if d < 10 then ('0' as int + d) as char else ('A' as int + d - 10) as char
  }

  function Hex(n: nat): string {
    if n < 16 then [HexDigit(n)] else Hex(n / 16) + [HexDigit(n % 16)]
  }

  /** Items joined by semicolons; while nothing has been written no separator is. */
  function JoinSemicolon(items: seq<string>): string {
    if items == [] then ""
    else
      var front := JoinSemicolon(items[..|items| - 1]);
      front + (if front == "" then "" else ";") + items[|items| - 1]
  }

  method JoinWithSemicolons(items: seq<string>) returns (out: string)
    ensures out == JoinSemicolon(items)
  {
    out := "";
    for i := 0 to |items|
      invariant out == JoinSemicolon(items[..i])
    {
      assert items[..i + 1][..i] == items[..i];
      if out != "" {
        out := out + ";";
      }
      out := out + items[i];
    }
    assert items[..|items|] == items;
  }

  function TableCell(e: ValueTableEntry): string {
    IntToString(e.value) + "=" + e.labelText
  }

  function OptionalCell(format: Double -> string, d: Option<Double>): string {
    match d
    case None => ""
    case Some(v) => format(v)
  }

  function FrameCells(f: ExportFrame): (r: seq<string>)
    ensures |r| == |COLUMNS| - SIGNAL_COLUMNS
  {
    [f.name, "0x" + Hex(f.id), BoolCell(f.extended), BoolCell(f.canFd), NatToString(f.length),
     JoinSemicolon(f.transmitters)]
  }

  function SignalCells(format: Double -> string, s: ExportSignal): (r: seq<string>)
    ensures |r| == SIGNAL_COLUMNS
  {
    [s.name, NatToString(s.startBit), NatToString(s.bitLength),
     if s.byteOrder == MostSignificantByteFirst then "big_endian" else "little_endian",
     BoolCell(s.isSigned), format(s.factor), format(s.offset), OptionalCell(format, s.min), OptionalCell(format, s.max),
       s.unit,
     OptionalCell(format, s.initValue), JoinSemicolon(s.receivers), JoinSemicolon(MapSeq(s.valueTable, TableCell))]
  }

  function Blanks(n: nat): (r: seq<string>)
    ensures |r| == n && forall x <- r :: x == ""
  {
    if n == 0 then [] else Blanks(n - 1) + [""]
  }

  function SignalRows(format: Double -> string, f: ExportFrame, signals: seq<ExportSignal>): seq<seq<string>> {
    if signals == [] then []
    else SignalRows(format, f, signals[..|signals| - 1]) + [FrameCells(f) + SignalCells(format, signals[|signals| - 1])]
  }

  /** A row per signal; a frame without signals has one row with blank signal cells. */
  function FrameRows(format: Double -> string, f: ExportFrame): seq<seq<string>> {
    if f.signals == [] then [FrameCells(f) + Blanks(SIGNAL_COLUMNS)] else SignalRows(format, f, f.signals)
  }

  function BodyRows(format: Double -> string, frames: seq<ExportFrame>): seq<seq<string>> {
    if frames == [] then [] else BodyRows(format, frames[..|frames| - 1]) + FrameRows(format, frames[|frames| - 1])
  }

  /** Header and body. */
  function Rows(format: Double -> string, frames: seq<ExportFrame>): seq<seq<string>> {
    [COLUMNS] + BodyRows(format, frames)
  }

  method SignalRow(format: Double -> string, f: ExportFrame, s: ExportSignal) returns (cells: seq<string>)
    ensures cells == FrameCells(f) + SignalCells(format, s)
  {
    var receivers := JoinWithSemicolons(s.receivers);
    var table := JoinWithSemicolons(MapSeq(s.valueTable, TableCell));
    cells := FrameCells(f) + [
      s.name, NatToString(s.startBit), NatToString(s.bitLength),
      if s.byteOrder == MostSignificantByteFirst then "big_endian" else "little_endian",
      BoolCell(s.isSigned), format(s.factor), format(s.offset), OptionalCell(format, s.min),
        OptionalCell(format, s.max), s.unit,
      OptionalCell(format, s.initValue), receivers, table];
  }

  lemma {:induction false} RowsTextConcat(a: seq<seq<string>>, b: seq<seq<string>>)
    ensures RowsText(a + b) == RowsText(a) + RowsText(b)
  {
    hide RowText;
    if b == [] {
      assert a + b == a;
    } else {
      var r := a + b;
      assert r[..|r| - 1] == a + b[..|b| - 1];
      RowsTextConcat(a, b[..|b| - 1]);
    }
  }

  lemma OneRow(row: seq<string>)
    ensures RowsText([row]) == RowText(row) && RowsText([]) == ""
  {
    hide RowText;
    assert [row][..0] == [];
  }

  method AppendFrame(format: Double -> string, text: string, f: ExportFrame) returns (out: string)
    ensures out == text + RowsText(FrameRows(format, f))
  {
    hide FrameCells, SignalCells, RowsText, RowText, Blanks;
    out := text;
    if f.signals == [] {
      var row := FrameCells(f) + Blanks(SIGNAL_COLUMNS);
      out := AppendRow(out, row);
      OneRow(row);
      return;
    }
    OneRow([]);
    for i := 0 to |f.signals|
      invariant out == text + RowsText(SignalRows(format, f, f.signals[..i]))
    {
      assert f.signals[..i + 1][..i] == f.signals[..i];
      var cells := SignalRow(format, f, f.signals[i]);
      out := AppendRow(out, cells);
      OneRow(cells);
      RowsTextConcat(SignalRows(format, f, f.signals[..i]), [cells]);
    }
    assert f.signals[..|f.signals|] == f.signals;
  }

  method ToCsv(format: Double -> string, frames: seq<ExportFrame>) returns (out: string)
    ensures out == RowsText(Rows(format, frames))
  {
    HeaderIsRow();
    hide FrameRows, RowsText, RowText, FieldsText, Join;
    out := Join(COLUMNS, ",");
    out := out + CRLF;
    ghost var header := out;
    OneRow(COLUMNS);
    for i := 0 to |frames|
      invariant out == header + RowsText(BodyRows(format, frames[..i]))
    {
      assert frames[..i + 1][..i] == frames[..i];
      out := AppendFrame(format, out, frames[i]);
      RowsTextConcat(BodyRows(format, frames[..i]), FrameRows(format, frames[i]));
    }
    assert frames[..|frames|] == frames;
    RowsTextConcat([COLUMNS], BodyRows(format, frames));
  }

  /** The header names need no quotes. */
  lemma HeaderIsRow()
    ensures RowText(COLUMNS) == Join(COLUMNS, ",") + CRLF
  {
    forall i | 0 <= i < |COLUMNS| ensures !NeedsQuotes(COLUMNS[i]) {
      PlainColumn(i);
    }
    PlainFields(COLUMNS);
  }

  lemma PlainColumn(i: nat)
    requires i < |COLUMNS|
    ensures !NeedsQuotes(COLUMNS[i])
  {}

  lemma {:induction false} PlainFields(cells: seq<string>)
    requires forall i :: 0 <= i < |cells| ==> !NeedsQuotes(cells[i])
    ensures FieldsText(cells) == Join(cells, ",")
  {
    hide NeedsQuotes;
    if |cells| > 1 {
      PlainFields(cells[..|cells| - 1]);
    }
  }

  // ----- the reader of RFC 4180 -----

  /** A field read up to a position. */
  datatype Field = Field(cell: string, end: nat)

  /** The rest of a quoted field: two quotes stand for one, a single one ends it. */
  function ReadQuoted(text: string, pos: nat): Option<Field>
    requires pos <= |text|
    ensures ReadQuoted(text, pos).Some? ==> pos < ReadQuoted(text, pos).value.end <= |text|
    decreases |text| - pos
  {
    if pos == |text| then None
    else if text[pos] == '\"' then
      if pos + 1 < |text| && text[pos + 1] == '\"' then
        match ReadQuoted(text, pos + 2)
        case None => None
        case Some(rest) => Some(Field("\"" + rest.cell, rest.end))
      else Some(Field("", pos + 1))
    else
      match ReadQuoted(text, pos + 1)
      case None => None
      case Some(rest) => Some(Field([text[pos]] + rest.cell, rest.end))
  }

  /** Plain text up to a character that cannot stand in an unquoted field. */
  function ReadPlain(text: string, pos: nat): (f: Field)
    requires pos <= |text|
    ensures pos <= f.end <= |text|
    decreases |text| - pos
  {
    if pos == |text| || IsSpecial(text[pos]) then Field("", pos)
    else
      var rest := ReadPlain(text, pos + 1);
      Field([text[pos]] + rest.cell, rest.end)
  }

  function ReadField(text: string, pos: nat): Option<Field>
    requires pos <= |text|
    ensures ReadField(text, pos).Some? ==> pos <= ReadField(text, pos).value.end <= |text|
  {
    if pos < |text| && text[pos] == '\"' then ReadQuoted(text, pos + 1) else Some(ReadPlain(text, pos))
  }

  datatype Record = Record(cells: seq<string>, end: nat)

  /** Fields separated by commas, ended by CRLF. */
  function ReadRecord(text: string, pos: nat): Option<Record>
    requires pos <= |text|
    ensures ReadRecord(text, pos).Some? ==> pos < ReadRecord(text, pos).value.end <= |text|
    decreases |text| - pos
  {
    match ReadField(text, pos)
    case None => None
    case Some(field) =>
      if field.end < |text| && text[field.end] == ',' then
        match ReadRecord(text, field.end + 1)
        case None => None
        case Some(rest) => Some(Record([field.cell] + rest.cells, rest.end))
      else if field.end + 1 < |text| && text[field.end] == '\r' && text[field.end + 1] == '\n' then
        Some(Record([field.cell], field.end + 2))
      else None
  }

  function ReadRecords(text: string, pos: nat): Option<seq<seq<string>>>
    requires pos <= |text|
    decreases |text| - pos
  {
    if pos == |text| then Some([])
    else
      match ReadRecord(text, pos)
      case None => None
      case Some(record) =>
        match ReadRecords(text, record.end)
        case None => None
        case Some(rest) => Some([record.cells] + rest)
  }

  // ----- reading back -----

  /** What a text offers at a position. */
  predicate Offers(text: string, pos: nat, part: string) {
    pos + |part| <= |text| && text[pos..pos + |part|] == part
  }

  lemma OffersSplit(text: string, pos: nat, a: string, b: string)
    requires Offers(text, pos, a + b)
    ensures Offers(text, pos, a) && Offers(text, pos + |a|, b)
  {
    assert text[pos..pos + |a + b|][..|a|] == a;
    assert text[pos..pos + |a + b|][|a|..] == b;
    assert text[pos..pos + |a|] == text[pos..pos + |a + b|][..|a|];
    assert text[pos + |a|..pos + |a + b|] == text[pos..pos + |a + b|][|a|..];
  }

  lemma OffersChar(text: string, pos: nat, part: string, i: nat)
    requires Offers(text, pos, part) && i < |part|
    ensures pos + |part| <= |text| && text[pos + i] == part[i]
  {
    assert text[pos..pos + |part|][i] == part[i];
  }

  lemma {:induction false} DoubledFront(c: char, rest: string)
    ensures Doubled([c] + rest) == (if c == '\"' then "\"\"" else [c]) + Doubled(rest)
  {
    var whole := [c] + rest;
    if rest == "" {
      assert whole[..0] == "" && Doubled("") == "";
      assert whole == [c];
    } else {
      assert whole[..|whole| - 1] == [c] + rest[..|rest| - 1];
      DoubledFront(c, rest[..|rest| - 1]);
    }
  }

  lemma DoubledNothing()
    ensures Doubled("") == ""
  {}

  /** Quotes around doubled text give the text back. */
  lemma {:induction false} QuotedReadsBack(text: string, pos: nat, field: string)
    requires Offers(text, pos, Doubled(field) + "\"")
    requires pos + |Doubled(field)| + 1 < |text| ==> text[pos + |Doubled(field)| + 1] != '\"'
    ensures ReadQuoted(text, pos) == Some(Field(field, pos + |Doubled(field)| + 1))
    decreases |field|
  {
    DoubledNothing();
    hide Doubled, Offers;
    if field == "" {
      OffersChar(text, pos, Doubled(field) + "\"", 0);
    } else {
      var c, rest := field[0], field[1..];
      var head := if c == '\"' then "\"\"" else [c];
      assert field == [c] + rest;
      DoubledFront(c, rest);
      assert Doubled(field) + "\"" == head + (Doubled(rest) + "\"");
      OffersSplit(text, pos, head, Doubled(rest) + "\"");
      QuotedReadsBack(text, pos + |head|, rest);
      OffersChar(text, pos, head, 0);
      if c == '\"' {
        OffersChar(text, pos, head, 1);
      }
    }
  }

  lemma {:induction false} PlainReadsBack(text: string, pos: nat, field: string)
    requires Offers(text, pos, field) && !NeedsQuotes(field)
    requires pos + |field| < |text| && IsSpecial(text[pos + |field|])
    ensures ReadPlain(text, pos) == Field(field, pos + |field|)
    decreases |field|
  {
    hide IsSpecial;
    if field != "" {
      OffersChar(text, pos, field, 0);
      assert field[0] in field;
      assert field == [field[0]] + field[1..];
      OffersSplit(text, pos, [field[0]], field[1..]);
      assert !NeedsQuotes(field[1..]) by {
        forall c | c in field[1..] ensures c in field {}
      }
      PlainReadsBack(text, pos + 1, field[1..]);
    }
  }

  /** A written field, followed by a comma or a line end, reads back as its cell. */
  lemma FieldReadsBack(text: string, pos: nat, field: string)
    requires Offers(text, pos, FieldText(field))
    requires pos + |FieldText(field)| < |text| && text[pos + |FieldText(field)|] in {',', '\r'}
    ensures ReadField(text, pos) == Some(Field(field, pos + |FieldText(field)|))
  {
    hide ReadQuoted, ReadPlain, Doubled;
    if NeedsQuotes(field) {
      assert FieldText(field) == "\"" + (Doubled(field) + "\"");
      OffersSplit(text, pos, "\"", Doubled(field) + "\"");
      OffersChar(text, pos, "\"", 0);
      QuotedReadsBack(text, pos + 1, field);
    } else {
      PlainReadsBack(text, pos, field);
      if field != "" {
        OffersChar(text, pos, field, 0);
        assert field[0] in field;
      }
    }
  }

  lemma {:induction false} FieldsFront(cell: string, rest: seq<string>)
    requires rest != []
    ensures FieldsText([cell] + rest) == FieldText(cell) + "," + FieldsText(rest)
  {
    hide FieldText;
    var whole := [cell] + rest;
    assert whole[..|whole| - 1] == [cell] + rest[..|rest| - 1];
    if |rest| == 1 {
      assert whole[..1] == [cell];
    } else {
      FieldsFront(cell, rest[..|rest| - 1]);
    }
  }

  lemma {:induction false} RecordReadsBack(text: string, pos: nat, cells: seq<string>)
    requires cells != [] && Offers(text, pos, RowText(cells))
    ensures ReadRecord(text, pos) == Some(Record(cells, pos + |RowText(cells)|))
    decreases |cells|
  {
    hide ReadField, FieldText, FieldsText, Offers;
    if |cells| == 1 {
      SingleField(cells[0]);
      assert cells == [cells[0]];
      OffersSplit(text, pos, FieldText(cells[0]), CRLF);
      OffersChar(text, pos + |FieldText(cells[0])|, CRLF, 0);
      OffersChar(text, pos + |FieldText(cells[0])|, CRLF, 1);
      FieldReadsBack(text, pos, cells[0]);
    } else {
      var cell, rest := cells[0], cells[1..];
      assert cells == [cell] + rest;
      FieldsFront(cell, rest);
      assert RowText(cells) == FieldText(cell) + ("," + RowText(rest));
      OffersSplit(text, pos, FieldText(cell), "," + RowText(rest));
      OffersSplit(text, pos + |FieldText(cell)|, ",", RowText(rest));
      OffersChar(text, pos + |FieldText(cell)|, ",", 0);
      FieldReadsBack(text, pos, cell);
      RecordReadsBack(text, pos + |FieldText(cell)| + 1, rest);
    }
  }

  lemma SingleField(cell: string)
    ensures FieldsText([cell]) == FieldText(cell)
  {}

  lemma {:induction false} RowsFront(row: seq<string>, rest: seq<seq<string>>)
    ensures RowsText([row] + rest) == RowText(row) + RowsText(rest)
  {
    RowsTextConcat([row], rest);
    OneRow(row);
  }

  lemma {:induction false} RecordsReadBack(text: string, pos: nat, rows: seq<seq<string>>)
    requires Offers(text, pos, RowsText(rows)) && pos + |RowsText(rows)| == |text|
    requires forall row <- rows :: row != []
    ensures ReadRecords(text, pos) == Some(rows)
    decreases |rows|
  {
    hide ReadRecord, RowText;
    if rows == [] {
      OneRow([]);
    } else {
      var row, rest := rows[0], rows[1..];
      hide RowsText;
      assert rows == [row] + rest && row in rows;
      forall r | r in rest ensures r in rows {}
      RowsFront(row, rest);
      RowLength(row);
      OffersSplit(text, pos, RowText(row), RowsText(rest));
      RecordReadsBack(text, pos, row);
      RecordsReadBack(text, pos + |RowText(row)|, rest);
    }
  }

  lemma RowLength(row: seq<string>)
    ensures |RowText(row)| >= 2
  {}

  /** Reading any written rows gives exactly their cells, whatever the cells hold. */
  lemma RowsRoundTrip(rows: seq<seq<string>>)
    requires forall row <- rows :: row != []
    ensures ReadRecords(RowsText(rows), 0) == Some(rows)
  {
    hide RowsText, ReadRecords;
    assert RowsText(rows)[0..] == RowsText(rows);
    RecordsReadBack(RowsText(rows), 0, rows);
  }

  // ----- shape -----

  lemma {:induction false} SignalRowsShape(format: Double -> string, f: ExportFrame, signals: seq<ExportSignal>)
    ensures |SignalRows(format, f, signals)| == |signals| && forall row <- SignalRows(format, f, signals) ::
      |row| == |COLUMNS|
  {
    hide FrameCells, SignalCells;
    if signals != [] {
      SignalRowsShape(format, f, signals[..|signals| - 1]);
    }
  }

  function RowCount(frames: seq<ExportFrame>): nat {
    if frames == [] then 0
    else RowCount(frames[..|frames| - 1]) + var n := |frames[|frames| - 1].signals|; if n == 0 then 1 else n
  }

  lemma {:induction false} BodyShape(format: Double -> string, frames: seq<ExportFrame>)
    ensures |BodyRows(format, frames)| == RowCount(frames) && forall row <- BodyRows(format, frames) ::
      |row| == |COLUMNS|
  {
    hide FrameCells, SignalCells, SignalRows;
    if frames != [] {
      BodyShape(format, frames[..|frames| - 1]);
      SignalRowsShape(format, frames[|frames| - 1], frames[|frames| - 1].signals);
    }
  }

  /** The export read back: header and body cells as they were, 19 to a record, one record per signal. */
  lemma ExportRoundTrip(format: Double -> string, frames: seq<ExportFrame>)
    ensures ReadRecords(RowsText(Rows(format, frames)), 0) == Some(Rows(format, frames))
    ensures forall row <- Rows(format, frames) :: |row| == 19
    ensures |Rows(format, frames)| == 1 + RowCount(frames)
  {
    hide RowsText, ReadRecords, BodyRows;
    BodyShape(format, frames);
    RowsRoundTrip(Rows(format, frames));
  }
}
