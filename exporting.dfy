/**
 * The export writers: a CSV stream, an XLSX sheet and a PDF table built from
 * `queryset.values_list(*fields)`, each refusing mismatched fields and
 * headers before writing anything, and the download file name they share.
 *
 * The clock is a parameter (`ts`, already formatted), the third-party
 * libraries are present or not (`available`), and the files are the cell
 * grids the libraries receive.
 */
module Exporting {
  import opened Wrappers
  import opened Text
  import opened Rows

  // ---------------------------------------------------------------------
  // File names

  /** The characters `_default_filename` keeps as they are. */
  predicate IsSafe(c: char)
  {
    IsAlnum(c) || c == '-' || c == '_'
  }

  /** A letter, digit, "-" or "_" is kept; anything else becomes "_". */
  function SafeChar(c: char): (r: char)
    ensures IsSafe(r)
    ensures IsSafe(c) ==> r == c
  {
    if IsSafe(c) then c else '_'
  }

  /** Every character replaced by its safe form, so the length never changes. */
  function Sanitize(s: string): (r: string)
    ensures |r| == |s|
    ensures forall i :: 0 <= i < |s| ==> r[i] == SafeChar(s[i])
  {
    if s == [] then [] else [SafeChar(s[0])] + Sanitize(s[1..])
  }

  /** `_default_filename(base, ext)` with the formatted timestamp `ts`. */
  function DefaultFilename(base: string, ext: string, ts: string): string
  {
    var safe := Sanitize(Strip(base));
    (if safe == "" then "export" else safe) + "_" + ts + "." + ext
  }

  /** The name part of a download file name: the sanitised base, or "export" when that is empty. */
  function FilenameStem(base: string): string
  {
    if Strip(base) == "" then "export" else Sanitize(Strip(base))
  }

  /**
   * A file name is a stem of safe characters, as long as the stripped base
   * (or "export" when that is blank), then "_", the timestamp, "." and the
   * extension.
   */
  lemma {:induction false} DefaultFilenameShape(base: string, ext: string, ts: string)
    ensures DefaultFilename(base, ext, ts) == FilenameStem(base) + "_" + ts + "." + ext
    ensures FilenameStem(base) != []
    ensures |FilenameStem(base)| == if Strip(base) == "" then 6 else |Strip(base)|
    ensures forall c :: c in FilenameStem(base) ==> IsSafe(c)
  {
    var stem := FilenameStem(base);
    if Strip(base) == "" {
      assert stem == "export";
      assert forall k :: 0 <= k < 6 ==> IsAlnum(stem[k]);
    } else {
      forall c | c in stem ensures IsSafe(c) {
        var k :| 0 <= k < |stem| && stem[k] == c;
      }
    }
  }

  /** Sanitising text that is already safe leaves it unchanged, so sanitising twice is sanitising once. */
  lemma SanitizeIdempotent(s: string)
    ensures (forall c :: c in s ==> IsSafe(c)) ==> Sanitize(s) == s
    ensures Sanitize(Sanitize(s)) == Sanitize(s)
  {
    if forall c :: c in s ==> IsSafe(c) {
      forall k | 0 <= k < |s| ensures Sanitize(s)[k] == s[k] {
        assert s[k] in s;
      }
    }
  }

  /**
   * A file name cannot break out of the quoted `Content-Disposition`
   * value: a quote can only come from the timestamp or the extension.
   */
  lemma FilenameQuoteFree(base: string, ext: string, ts: string)
    requires '"' !in ts && '"' !in ext
    ensures '"' !in DefaultFilename(base, ext, ts)
  {
    DefaultFilenameShape(base, ext, ts);
    var stem := FilenameStem(base);
    var r := DefaultFilename(base, ext, ts);
    forall k | 0 <= k < |r| ensures r[k] != '"' {
      if k < |stem| {
        assert r[k] == stem[k] && stem[k] in stem;
      } else if |stem| < k < |stem| + 1 + |ts| {
        assert r[k] == ts[k - |stem| - 1];
      } else if k > |stem| + 1 + |ts| {
        assert r[k] == ext[k - |stem| - |ts| - 2];
      }
    }
  }

  // ---------------------------------------------------------------------
  // Cells

  /** `_convert_datetime`: an aware datetime loses its zone and keeps its wall-clock time. */
  function ConvertDatetime(v: Value): Value
  {
    if v.VDateTime? && v.offset.Some? then VDateTime(v.wall, None) else v
  }

  /**
   * Only aware datetimes change, their wall-clock time is kept, nothing
   * converted is aware, and converting twice is converting once.
   */
  lemma ConvertDatetimeProps(v: Value)
    ensures ConvertDatetime(v) != v <==> v.VDateTime? && v.offset.Some?
    ensures ConvertDatetime(v).VDateTime? ==> ConvertDatetime(v).offset.None? && ConvertDatetime(v).wall == v.wall
    ensures ConvertDatetime(ConvertDatetime(v)) == ConvertDatetime(v)
  {
  }

  /** The text of a CSV or PDF cell: empty for a missing value, otherwise its `str`. */
  function Cell(v: Value): string
  {
    if v.VNone? then "" else TextOf(v)
  }

  /** One record of `values_list(*fields)`, written as text cells. */
  function TextRecord(r: Row, fields: seq<string>): seq<string>
  {
    seq(|fields|, i requires 0 <= i < |fields| => Cell(Field(r, fields[i])))
  }

  /** One record of `values_list(*fields)` as the sheet receives it. */
  function SheetRecord(r: Row, fields: seq<string>): seq<Value>
  {
    seq(|fields|, i requires 0 <= i < |fields| => ConvertDatetime(Field(r, fields[i])))
  }

  /** The text grid of an export: the header row, then one record per row of the queryset, in order. */
  function TextTable(qs: seq<Row>, fields: seq<string>, headers: seq<string>): seq<seq<string>>
  {
    [headers] + seq(|qs|, i requires 0 <= i < |qs| => TextRecord(qs[i], fields))
  }

  /** The sheet grid: the header row as text values, then one converted record per row. */
  function SheetTable(qs: seq<Row>, fields: seq<string>, headers: seq<string>): seq<seq<Value>>
  {
    [seq(|headers|, i requires 0 <= i < |headers| => VStr(headers[i]))]
      + seq(|qs|, i requires 0 <= i < |qs| => SheetRecord(qs[i], fields))
  }

  /**
   * With as many headers as fields, the text grid is rectangular: the
   * header row comes first, one line follows per row, each record's cell
   * `j` is field `j` of its row, and a missing value is an empty cell.
   */
  lemma TextTableShape(qs: seq<Row>, fields: seq<string>, headers: seq<string>)
    requires |fields| == |headers|
    ensures var t := TextTable(qs, fields, headers);
            |t| == |qs| + 1 && t[0] == headers &&
            (forall i :: 0 <= i < |t| ==> |t[i]| == |headers|) &&
            (forall i, j :: 0 <= i < |qs| && 0 <= j < |fields| ==>
               t[i + 1][j] == (if Field(qs[i], fields[j]).VNone? then "" else TextOf(Field(qs[i], fields[j]))))
  {
  }

  /** No cell of a sheet is an aware datetime, and every line has one cell per header. */
  lemma SheetTableShape(qs: seq<Row>, fields: seq<string>, headers: seq<string>)
    requires |fields| == |headers|
    ensures var t := SheetTable(qs, fields, headers);
            |t| == |qs| + 1 &&
            (forall i :: 0 <= i < |t| ==> |t[i]| == |headers|) &&
            (forall i, j :: 0 <= i < |t| && 0 <= j < |t[i]| && t[i][j].VDateTime? ==> t[i][j].offset.None?)
  {
    var t: seq<seq<Value>> := SheetTable(qs, fields, headers);
    forall i: int, j: int | 0 <= i < |t| && 0 <= j < |t[i]| && t[i][j].VDateTime?
      ensures t[i][j].offset.None?
    {
      if i > 0 {
        ConvertDatetimeProps(Field(qs[i - 1], fields[j]));
      }
    }
  }

  // ---------------------------------------------------------------------
  // Writers

  datatype ExportError = ValueError(message: string) | RuntimeError(message: string)

  const LengthMismatch := "fields y headers deben tener el mismo tamaño"

  /** The UTF-8 byte order mark the CSV stream starts with. */
  const Bom: seq<bv8> := [0xEF, 0xBB, 0xBF]

  /** A CSV download: the byte order mark, then one line per entry of `lines`. */
  datatype CsvStream = CsvStream(filename: string, bom: seq<bv8>, lines: seq<seq<string>>)

  /** An XLSX download with its one sheet. */
  datatype Workbook = Workbook(filename: string, sheetTitle: string, sheet: seq<seq<Value>>)

  /** A PDF download: its title paragraph, the date line and the table data. */
  datatype PdfTable = PdfTable(filename: string, title: string, subtitle: string, data: seq<seq<string>>)

  /** The file an export view answers with. */
  datatype Download = CsvFile(csv: CsvStream) | XlsxFile(xlsx: Workbook) | PdfFile(pdf: PdfTable)

  /**
   * `stream_csv`: mismatched fields and headers raise before any output;
   * otherwise the stream is the BOM, the header row and one line per
   * record.
   */
  method StreamCsv(qs: seq<Row>, fields: seq<string>, headers: seq<string>, filenameBase: string, ts: string)
    returns (r: Result<CsvStream, ExportError>)
    ensures |fields| != |headers| <==> r == Err(ValueError(LengthMismatch))
    ensures r.Ok? ==> r.value == CsvStream(DefaultFilename(filenameBase, "csv", ts), Bom, TextTable(qs, fields, headers))
  {
    if |fields| != |headers| {
      return Err(ValueError(LengthMismatch));
    }
    var lines := [headers];
    for i := 0 to |qs|
      invariant lines == TextTable(qs[..i], fields, headers)
    {
      lines := lines + [TextRecord(qs[i], fields)];
    }
    assert qs[..|qs|] == qs;
    return Ok(CsvStream(DefaultFilename(filenameBase, "csv", ts), Bom, lines));
  }

  /** `sheet_name[:31]` */
  function SheetTitle(name: string): (r: string)
    ensures |r| <= 31 && r <= name
    ensures |name| <= 31 ==> r == name
  {
    if |name| <= 31 then name else name[..31]
  }

  /**
   * `build_xlsx`: the length check comes first, then the openpyxl import;
   * the sheet title is cut to 31 characters and every datetime is stored
   * without its zone.
   */
  method BuildXlsx(qs: seq<Row>, fields: seq<string>, headers: seq<string>, filenameBase: string,
                   sheetName: string, ts: string, available: bool)
    returns (r: Result<Workbook, ExportError>)
    ensures |fields| != |headers| <==> r == Err(ValueError(LengthMismatch))
    ensures |fields| == |headers| && !available <==> r == Err(RuntimeError("Dependencia faltante: openpyxl"))
    ensures r.Ok? ==> r.value == Workbook(DefaultFilename(filenameBase, "xlsx", ts), SheetTitle(sheetName),
                                          SheetTable(qs, fields, headers))
  {
    if |fields| != |headers| {
      return Err(ValueError(LengthMismatch));
    }
    if !available {
      return Err(RuntimeError("Dependencia faltante: openpyxl"));
    }
    var title := SheetTitle(sheetName);
    var sheet := [seq(|headers|, i requires 0 <= i < |headers| => VStr(headers[i]))];
    for i := 0 to |qs|
      invariant sheet == SheetTable(qs[..i], fields, headers)
    {
      sheet := sheet + [SheetRecord(qs[i], fields)];
    }
    assert qs[..|qs|] == qs;
    return Ok(Workbook(DefaultFilename(filenameBase, "xlsx", ts), title, sheet));
  }

  /**
   * `build_pdf_table`: the same length check, then the reportlab import;
   * the table data is the header row followed by one text record per row,
   * the same grid the CSV stream writes.
   */
  method BuildPdfTable(qs: seq<Row>, fields: seq<string>, headers: seq<string>, title: string,
                       filenameBase: string, ts: string, subtitle: string, available: bool)
    returns (r: Result<PdfTable, ExportError>)
    ensures |fields| != |headers| <==> r == Err(ValueError(LengthMismatch))
    ensures |fields| == |headers| && !available <==> r == Err(RuntimeError("Dependencia faltante: reportlab"))
    ensures r.Ok? ==> r.value == PdfTable(DefaultFilename(filenameBase, "pdf", ts), title, subtitle,
                                          TextTable(qs, fields, headers))
  {
    if |fields| != |headers| {
      return Err(ValueError(LengthMismatch));
    }
    if !available {
      return Err(RuntimeError("Dependencia faltante: reportlab"));
    }
    var data := [headers];
    for i := 0 to |qs|
      invariant data == TextTable(qs[..i], fields, headers)
    {
      data := data + [TextRecord(qs[i], fields)];
    }
    assert qs[..|qs|] == qs;
    return Ok(PdfTable(DefaultFilename(filenameBase, "pdf", ts), title, subtitle, data));
  }
}
