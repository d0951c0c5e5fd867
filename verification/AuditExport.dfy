/** The CSV export of the audit log: all rows of the filter or an error, within fixed bounds. */
module AuditExport {
  import opened Wrappers
  import opened Audit
  import Text

  const MAX_ROWS := 10000
  const MAX_BYTES := 10 * 1024 * 1024
  const FLUSH_INTERVAL := 64
  const BOM: Bytes := "\U{00EF}\U{00BB}\U{00BF}"
  const HEADER := ["id", "tenant_id", "at", "actor_subject_id", "host_initiator", "operation", "phase", "target_type",
                   "target_id", "outcome", "reason_code", "request_id", "role_version"]

  // ---------- Cells ----------

  // = + - @ and their full-width forms.
  const FORMULA_STARTS := ['=', '+', '-', '@', '\U{FF1D}', '\U{FF0B}', '\U{FF0D}', '\U{FF20}']

  predicate LooksLikeFormula(value: string) {
    var trimmed := Text.TrimLeft(value);
    (value != "" && value[0] in ['\t', '\r', '\n']) || (trimmed != "" && trimmed[0] in FORMULA_STARTS)
  }

  // auditCSVText
  function Cell(value: string): string {
    if LooksLikeFormula(value) then "\t" + value else value
  }

  // No cell can be read as a formula unless a tab marks it as text.
  lemma CellIsHarmless(value: string)
    ensures (Cell(value) != "" && Cell(value)[0] == '\t') || !LooksLikeFormula(Cell(value))
  {
  }

  // The value can be recovered: a leading tab is always the mark.
  lemma CellIsReversible(value: string)
    ensures value == if Cell(value) != "" && Cell(value)[0] == '\t' then Cell(value)[1..] else Cell(value)
  {
  }

  // ---------- The document ----------

  // Number and time formats, and the quoting of encoding/csv, which writes one line for a record.
  datatype Format = Format(number: int -> string, time: Time -> string, line: seq<string> -> Bytes)

  // auditCSVFields, before and after the cells are made harmless.
  function RawFields(row: AuditRow, format: Format): seq<string> {
    [format.number(row.id), row.tenant, format.time(row.at), row.actor, row.hostInitiator, row.operation, row.phase,
     row.targetType, row.targetID, row.outcome, row.reason, row.request, format.number(row.roleVersion)]
  }

  function Cells(fields: seq<string>): (cells: seq<string>)
    ensures |cells| == |fields| && forall i | 0 <= i < |fields| :: cells[i] == Cell(fields[i])
  {
    seq(|fields|, i requires 0 <= i < |fields| => Cell(fields[i]))
  }

  method Fields(row: AuditRow, format: Format) returns (fields: seq<string>)
    ensures fields == Cells(RawFields(row, format))
  {
    fields := RawFields(row, format);
    for i := 0 to |fields|
      invariant |fields| == |RawFields(row, format)|
      invariant forall k | 0 <= k < i :: fields[k] == Cell(RawFields(row, format)[k])
      invariant forall k | i <= k < |fields| :: fields[k] == RawFields(row, format)[k]
    {
      fields := fields[i := Cell(fields[i])];
    }
  }

  function Lines(rows: seq<AuditRow>, format: Format): Bytes {
    if rows == [] then ""
    else Lines(rows[..|rows| - 1], format) + format.line(Cells(RawFields(rows[|rows| - 1], format)))
  }

  function Document(rows: seq<AuditRow>, format: Format): Bytes {
    BOM + format.line(HEADER) + Lines(rows, format)
  }

  // ---------- The writer ----------

  // auditCSVBuffer: refuses a write that would pass the byte bound.
  class Sink {
    var data: Bytes

    constructor ()
      ensures data == ""
    {
      data := "";
    }

    method Write(chunk: Bytes) returns (failed: bool)
      modifies this
      ensures failed <==> |old(data)| + |chunk| > MAX_BYTES
      ensures data == if failed then old(data) else old(data) + chunk
    {
      failed := |data| + |chunk| > MAX_BYTES;
      if !failed {
        data := data + chunk;
      }
    }
  }

  // csv.Writer over a buffered writer, which passes data on in pieces of its own choice; the first failed
  // piece makes every later call fail.
  class Writer {
    const sink: Sink
    var pending: Bytes
    var failed: bool
    // Everything that was to be written since the sink was opened.
    ghost var written: Bytes

    ghost predicate Valid()
      reads this, sink
    {
      (!failed ==> sink.data + pending == written) && (failed ==> |written| > MAX_BYTES) && |sink.data| <= MAX_BYTES
    }

    constructor (sink: Sink)
      requires |sink.data| <= MAX_BYTES
      ensures Valid() && !failed && written == sink.data && this.sink == sink
    {
      this.sink, pending, failed, written := sink, "", false, sink.data;
    }

    method Push(n: nat)
      requires Valid() && !failed && n <= |pending|
      modifies this, sink
      ensures Valid() && written == old(written) && (!failed ==> pending == old(pending)[n..])
    {
      var refused := sink.Write(pending[..n]);
      if refused {
        failed := true;
      } else {
        assert pending == pending[..n] + pending[n..];
        pending := pending[n..];
      }
    }

    method Write(record: Bytes) returns (error: bool)
      requires Valid()
      modifies this, sink
      ensures Valid() && error == failed && written == old(written) + record
    {
      written := written + record;
      if failed {
        return true;
      }
      pending := pending + record;
      assert sink.data + pending == written;
      var n: nat := *;
      if n <= |pending| {
        Push(n);
      }
      error := failed;
    }

    method Flush() returns (error: bool)
      requires Valid()
      modifies this, sink
      ensures Valid() && error == failed && written == old(written) && (!failed ==> sink.data == written)
    {
      if !failed {
        Push(|pending|);
      }
      error := failed;
    }
  }

  // ---------- The export ----------

  // The rows that the export is about; a page cursor in the filter is ignored.
  function ExportRows(input: AuditFilter, table: seq<AuditRow>, lower: string -> string): seq<AuditRow> {
    Matching(table, Normalized(input).(before := 0), lower)
  }

  predicate WithinBounds(rows: seq<AuditRow>, format: Format) {
    |rows| <= MAX_ROWS && |Document(rows, format)| <= MAX_BYTES
  }

  // Row number n of the document; the buffer is emptied every so many rows.
  method AppendRow(writer: Writer, format: Format, ghost all: seq<AuditRow>, row: AuditRow, n: nat)
    returns (error: bool)
    requires writer.Valid() && 0 < n <= |all| && row == all[n - 1] && writer.written == Document(all[..n - 1], format)
    modifies writer, writer.sink
    ensures writer.Valid() && error == writer.failed && writer.written == Document(all[..n], format)
  {
    assert all[..n][..n - 1] == all[..n - 1];
    var fields := Fields(row, format);
    error := writer.Write(format.line(fields));
    assert writer.written == Document(all[..n], format);
    if !error && n % FLUSH_INTERVAL == 0 {
      error := writer.Flush();
    }
  }

  lemma TooLong(rows: seq<AuditRow>, format: Format, n: nat)
    requires n <= |rows| && |Document(rows[..n], format)| > MAX_BYTES
    ensures !WithinBounds(rows, format)
  {
    DocumentGrows(rows, format, n);
  }

  // The row loop: at most MAX_ROWS rows of a query limited to one more. Reading a row can fail at any time.
  method WriteRows(writer: Writer, format: Format, all: seq<AuditRow>) returns (error: bool, ghost faulted: bool)
    requires writer.Valid() && !writer.failed && writer.written == Document([], format)
    modifies writer, writer.sink
    ensures writer.Valid()
    ensures (!error ==> !faulted && |all| <= MAX_ROWS && !writer.failed && writer.written == Document(all, format))
    ensures error && !faulted ==> !WithinBounds(all, format)
  {
    hide Document, WithinBounds;
    var rows := if |all| > MAX_ROWS + 1 then all[..MAX_ROWS + 1] else all;
    assert all[..0] == [];
    for i := 0 to |rows|
      invariant i <= MAX_ROWS && writer.Valid() && !writer.failed && writer.written == Document(all[..i], format)
    {
      var fails: bool := *;
      if fails {
        return true, true;
      }
      if i + 1 > MAX_ROWS {
        TooMany(all, format);
        return true, false;
      }
      error := AppendRow(writer, format, all, rows[i], i + 1);
      if error {
        TooLong(all, format, i + 1);
        return true, false;
      }
    }
    var fails: bool := *;
    assert all[..|rows|] == all;
    return fails, fails;
  }

  lemma TooMany(rows: seq<AuditRow>, format: Format)
    requires |rows| > MAX_ROWS
    ensures !WithinBounds(rows, format)
  {
  }

  // Either the whole document or nothing.
  method Export(input: AuditFilter, table: seq<AuditRow>, lower: string -> string, format: Format)
    returns (r: Option<Bytes>, ghost faulted: bool)
    ensures r.Some? ==>
      && ValidFilter(input)
      && WithinBounds(ExportRows(input, table, lower), format)
      && r.value == Document(ExportRows(input, table, lower), format)
    ensures !faulted ==> (r.Some? <==> ValidFilter(input) && WithinBounds(ExportRows(input, table, lower), format))
  {
    hide ExportRows, ValidFilter, Lines;
    faulted := false;
    if !ValidFilter(input) {
      return None, faulted;
    }
    var all := ExportRows(input, table, lower);
    var output := new Sink();
    var ignored := output.Write(BOM);
    var writer := new Writer(output);
    var error := writer.Write(format.line(HEADER));
    EmptyDocument(all, format);
    if error {
      TooLong(all, format, 0);
      return None, faulted;
    }
    error, faulted := WriteRows(writer, format, all);
    if error {
      return None, faulted;
    }
    error := writer.Flush();
    r := if error then None else Some(output.data);
  }

  lemma EmptyDocument(rows: seq<AuditRow>, format: Format)
    ensures Document([], format) == BOM + format.line(HEADER) && rows[..0] == []
  {
  }

  lemma {:induction false} DocumentGrows(rows: seq<AuditRow>, format: Format, n: nat)
    requires n <= |rows|
    ensures |Document(rows[..n], format)| <= |Document(rows, format)|
    decreases |rows| - n
  {
    if n < |rows| {
      assert rows[..n + 1][..n] == rows[..n];
      DocumentGrows(rows, format, n + 1);
    } else {
      assert rows[..n] == rows;
    }
  }

  // The export holds exactly the rows that a session over the pages of the same filter shows.
  lemma ExportIsAllPages(input: AuditFilter, table: seq<AuditRow>, lower: string -> string, format: Format,
                         pages: seq<NumberedPage<AuditRow>>, limits: seq<nat>)
    requires Descending(table, RowNumber)
    requires Session(Matching(table, Normalized(input), lower), RowNumber, 0, pages, limits)
    ensures Shown(pages) == ExportRows(input, table, lower)
    ensures Document(Shown(pages), format) == Document(ExportRows(input, table, lower), format)
  {
    MatchingDescends(table, Normalized(input), lower);
    SessionShowsEverything(Matching(table, Normalized(input), lower), RowNumber, pages, limits);
    BeforeIsNoFilter(table, Normalized(input), 0, lower);
  }

  // The cursor is not part of the filter.
  lemma {:induction false} BeforeIsNoFilter(table: seq<AuditRow>, f: AuditFilter, before: int, lower: string -> string)
    ensures Matching(table, f.(before := before), lower) == Matching(table, f, lower)
  {
    if table != [] {
      BeforeIsNoFilter(table[1..], f, before, lower);
    }
  }

  // ---------- Reading the document ----------

  // A field of a record by the name of its column.
  function FieldNamed(row: AuditRow, format: Format, name: string): string {
    if name == "id" then format.number(row.id)
    else if name == "tenant_id" then row.tenant
    else if name == "at" then format.time(row.at)
    else if name == "actor_subject_id" then row.actor
    else if name == "host_initiator" then row.hostInitiator
    else if name == "operation" then row.operation
    else if name == "phase" then row.phase
    else if name == "target_type" then row.targetType
    else if name == "target_id" then row.targetID
    else if name == "outcome" then row.outcome
    else if name == "reason_code" then row.reason
    else if name == "request_id" then row.request
    else if name == "role_version" then format.number(row.roleVersion)
    else ""
  }

  // The value of a cell, without the tab that marks it as text.
  function ValueOf(cell: string): string {
    if cell != "" && cell[0] == '\t' then cell[1..] else cell
  }

  // A reader of CSV lines that undoes the writer's quoting.
  ghost predicate Reads(read: Bytes -> Option<(seq<string>, Bytes)>, format: Format) {
    forall fields, rest :: read(format.line(fields) + rest) == Some((fields, rest))
  }

  // Its first n records.
  function Records(read: Bytes -> Option<(seq<string>, Bytes)>, data: Bytes, n: nat): seq<seq<string>>
    decreases n
  {
    if n == 0 then []
    else match read(data)
      case None => []
      case Some((fields, rest)) => [fields] + Records(read, rest, n - 1)
  }

  lemma {:induction false} LinesFront(rows: seq<AuditRow>, format: Format)
    requires rows != []
    ensures Lines(rows, format) == format.line(Cells(RawFields(rows[0], format))) + Lines(rows[1..], format)
  {
    var last := |rows| - 1;
    if last > 0 {
      LinesFront(rows[..last], format);
      assert rows[..last][1..] == rows[1..][..last - 1] && rows[1..][last - 1] == rows[last];
    }
  }

  lemma {:induction false} LinesRead(read: Bytes -> Option<(seq<string>, Bytes)>, rows: seq<AuditRow>, format: Format)
    requires Reads(read, format)
    ensures var records := Records(read, Lines(rows, format), |rows|);
            |records| == |rows| && forall i | 0 <= i < |rows| :: records[i] == Cells(RawFields(rows[i], format))
  {
    hide RawFields, Cells;
    if rows != [] {
      LinesFront(rows, format);
      LinesRead(read, rows[1..], format);
    }
  }

  // Every field stands under the name of its column.
  lemma ColumnsNamed(row: AuditRow, format: Format, k: nat)
    requires k < |HEADER|
    ensures |RawFields(row, format)| == |HEADER| && RawFields(row, format)[k] == FieldNamed(row, format, HEADER[k])
  {
  }

  // And it is recovered from its cell.
  lemma ColumnsRead(row: AuditRow, format: Format, k: nat)
    requires k < |HEADER|
    ensures |Cells(RawFields(row, format))| == |HEADER|
    ensures ValueOf(Cells(RawFields(row, format))[k]) == FieldNamed(row, format, HEADER[k])
  {
    hide RawFields, FieldNamed;
    ColumnsNamed(row, format, k);
    CellIsReversible(RawFields(row, format)[k]);
  }

  ghost predicate ShowsFields(record: seq<string>, row: AuditRow, format: Format) {
    |record| == |HEADER| && forall k | 0 <= k < |HEADER| :: ValueOf(record[k]) == FieldNamed(row, format, HEADER[k])
  }

  lemma RowShowsFields(row: AuditRow, format: Format)
    ensures ShowsFields(Cells(RawFields(row, format)), row, format)
  {
    hide RawFields, Cells, FieldNamed, ValueOf;
    ColumnsRead(row, format, 0);
    forall k | 0 <= k < |HEADER|
      ensures ValueOf(Cells(RawFields(row, format))[k]) == FieldNamed(row, format, HEADER[k])
    {
      ColumnsRead(row, format, k);
    }
  }

  // Reading an export gives the header and then, row by row and the newest first, the rows that were asked for, every
  // field under its name.
  lemma ExportReads(input: AuditFilter, table: seq<AuditRow>, lower: string -> string, format: Format,
                    read: Bytes -> Option<(seq<string>, Bytes)>)
    requires Descending(table, RowNumber) && Reads(read, format)
    ensures var rows := ExportRows(input, table, lower);
      var records := Records(read, Document(rows, format)[3..], |rows| + 1);
      && (forall row :: row in rows <==> row in AskedFor(table, input, lower))
      && (forall i, j | 0 <= i < j < |rows| :: rows[i].id > rows[j].id)
      && |records| == |rows| + 1 && records[0] == HEADER
      && forall i | 0 <= i < |rows| :: ShowsFields(records[i + 1], rows[i], format)
  {
    hide RawFields, Cells, FieldNamed, ValueOf, ShowsFields;
    var rows := ExportRows(input, table, lower);
    assert Document(rows, format)[3..] == format.line(HEADER) + Lines(rows, format);
    LinesRead(read, rows, format);
    ExportedRows(input, table, lower);
    forall i | 0 <= i < |rows| ensures ShowsFields(Cells(RawFields(rows[i], format)), rows[i], format) {
      RowShowsFields(rows[i], format);
    }
  }

  lemma ExportedRows(input: AuditFilter, table: seq<AuditRow>, lower: string -> string)
    requires Descending(table, RowNumber)
    ensures var rows := ExportRows(input, table, lower);
      && (forall row :: row in rows <==> row in AskedFor(table, input, lower))
      && (forall i, j | 0 <= i < j < |rows| :: rows[i].id > rows[j].id)
  {
    var rows := ExportRows(input, table, lower);
    BeforeIsNoFilter(table, Normalized(input), 0, lower);
    MatchingExactly(table, input, lower);
    MatchingDescends(table, Normalized(input), lower);
    forall i, j | 0 <= i < j < |rows| ensures rows[i].id > rows[j].id {
      assert RowNumber(rows[i]) > RowNumber(rows[j]);
    }
  }
}
