/**
 * `save_to_excel` and `save_to_pdf`: the empty-results guard, the sheet handed to
 * pandas, and the title block and `table_data` handed to reportlab.
 *
 * The file writers themselves are not modelled: `writeError` is what the writer
 * raised (None when it succeeded), and `handed` is the document given to it, None
 * when the guard returned before any writer was called.
 */
module Export {
  import opened Wrappers
  import opened Text
  import opened Records

  /** The keys of every record's dictionary, in insertion order. */
  const FieldNames: seq<string> := ["Sr No.", "Business Name", "Address", "Phone", "Website",
                                    "Rating", "Reviews", "Category", "Location", "Scraped Date"]

  const NoData := "No data to save"

  /** A spreadsheet cell as pandas receives it: the number is kept as a number. */
  datatype Cell = NumberCell(n: int) | TextCell(s: string)

  /** The sheet `pd.DataFrame(self.results)` describes: the keys as columns, one row
      of values per record. */
  datatype Sheet = Sheet(columns: seq<string>, rows: seq<seq<Cell>>)

  /** The PDF's content: the title lines and the table. */
  datatype Report = Report(title: seq<string>, table: seq<seq<string>>)

  /** What an export returns, `(success, message)`, plus the document handed to the writer. */
  datatype Saved<D> = Saved(ok: bool, message: string, handed: Option<D>)

  /** A record's values, in key order, as a DataFrame row. */
  function SheetRow(r: Record): seq<Cell> {
    [NumberCell(r.srNo), TextCell(r.businessName), TextCell(r.address), TextCell(r.phone), TextCell(r.website),
     TextCell(r.rating), TextCell(r.reviews), TextCell(r.category), TextCell(r.location), TextCell(r.scrapedDate)]
  }

  function Frame(results: seq<Record>): Sheet {
    Sheet(FieldNames, seq(|results|, i requires 0 <= i < |results| => SheetRow(results[i])))
  }

  /** `str()` of a cell. */
  function CellText(c: Cell): string {
    match c
    case NumberCell(n) => IntToString(n)
    case TextCell(s) => s
  }

  /** One row of the PDF table: every value of the record passed through `str`. */
  function PdfRow(r: Record): seq<string> {
    [IntToString(r.srNo), r.businessName, r.address, r.phone, r.website,
     r.rating, r.reviews, r.category, r.location, r.scrapedDate]
  }

  /** `table_data`: the first record's keys as the header, then one row per record in
      list order. */
  function TableData(results: seq<Record>): seq<seq<string>>
    requires results != []
  {
    [FieldNames] + seq(|results|, i requires 0 <= i < |results| => PdfRow(results[i]))
  }

  const TotalPrefix := "Total Businesses: "

  /** The five lines of the title paragraph. */
  function TitleLines(keyword: string, location: string, stamp: string, count: nat): seq<string> {
    ["Google Maps Business Extraction Report", "Keyword: " + keyword, "Location: " + location,
     "Date: " + stamp, TotalPrefix + IntToString(count)]
  }

  /** `save_to_excel(filename)`. */
  function SaveToExcel(results: seq<Record>, filename: string, writeError: Option<string>): Saved<Sheet> {
    if results == [] then Saved(false, NoData, None)
    else
      var sheet := Frame(results);
      match writeError
      case None => Saved(true, "Data saved successfully to " + filename, Some(sheet))
      case Some(e) => Saved(false, "Error saving file: " + e, Some(sheet))
  }

  /** `save_to_pdf(filename)`; `stamp` is the formatted current date and time. */
  function SaveToPdf(results: seq<Record>, keyword: string, location: string, filename: string,
                     stamp: string, writeError: Option<string>): Saved<Report> {
    if results == [] then Saved(false, NoData, None)
    else
      var report := Report(TitleLines(keyword, location, stamp, |results|), TableData(results));
      match writeError
      case None => Saved(true, "PDF saved successfully to " + filename, Some(report))
      case Some(e) => Saved(false, "Error saving PDF: " + e, Some(report))
  }

  // ---------------------------------------------------------------------------

  /** Both exporters refuse an empty result list before calling any writer, and
      succeed exactly when there is something to save and the writer succeeds. */
  lemma ExportGuards(results: seq<Record>, keyword: string, location: string, filename: string,
                     stamp: string, writeError: Option<string>)
    ensures var x := SaveToExcel(results, filename, writeError);
      && (x.handed.None? <==> results == [])
      && (x.ok <==> results != [] && writeError.None?)
      && (results == [] ==> x.message == NoData)
    ensures var p := SaveToPdf(results, keyword, location, filename, stamp, writeError);
      && (p.handed.None? <==> results == [])
      && (p.ok <==> results != [] && writeError.None?)
      && (results == [] ==> p.message == NoData)
  {
  }

  /** Reads a PDF row back into the record it was made from; None for a row that is
      not ten cells or whose first cell is not a number. */
  function RecordOfRow(row: seq<string>): Option<Record> {
    if |row| != 10 then None
    else match ParseInt(row[0])
      case None => None
      case Some(n) => Some(Record(n, row[1], row[2], row[3], row[4], row[5], row[6], row[7], row[8], row[9]))
  }

  /** The PDF table is the header followed by the records, in list order and nothing
      else: it has one more row than there are records, and each data row reads back
      as the record at the same position. */
  lemma TableDataRoundTrip(results: seq<Record>)
    requires results != []
    ensures |TableData(results)| == |results| + 1
    ensures TableData(results)[0] == FieldNames
    ensures forall i :: 0 <= i < |results| ==>
              |TableData(results)[i + 1]| == |FieldNames| && RecordOfRow(TableData(results)[i + 1]) == Some(results[i])
  {
    forall i | 0 <= i < |results|
      ensures |TableData(results)[i + 1]| == |FieldNames| && RecordOfRow(TableData(results)[i + 1]) == Some(results[i])
    {
      ParseIntOfIntToString(results[i].srNo);
    }
  }

  /** With records numbered 1..n, the first cell of data row i reads as i. */
  lemma TableNumbering(results: seq<Record>)
    requires results != [] && Numbered(results)
    ensures forall i :: 1 <= i <= |results| ==> ParseInt(TableData(results)[i][0]) == Some(i)
  {
    forall i | 1 <= i <= |results| ensures ParseInt(TableData(results)[i][0]) == Some(i) {
      ParseIntOfIntToString(results[i - 1].srNo);
    }
  }

  /** The spreadsheet and the PDF agree: the same columns, in the same order, and each
      PDF cell is `str` of the spreadsheet cell at the same place. */
  lemma SheetMatchesTable(results: seq<Record>)
    requires results != []
    ensures Frame(results).columns == TableData(results)[0]
    ensures |Frame(results).rows| + 1 == |TableData(results)|
    ensures forall i, k :: 0 <= i < |results| && 0 <= k < |FieldNames| ==>
              |Frame(results).rows[i]| == |TableData(results)[i + 1]| == |FieldNames|
              && CellText(Frame(results).rows[i][k]) == TableData(results)[i + 1][k]
  {
  }

  /** The title's last line states the number of records, and reads back as it. */
  lemma TitleReportsCount(results: seq<Record>, keyword: string, location: string, filename: string,
                          stamp: string, writeError: Option<string>)
    requires results != []
    ensures var p := SaveToPdf(results, keyword, location, filename, stamp, writeError);
      p.handed.Some? && |p.handed.value.title| == 5
      && p.handed.value.title[4][..|TotalPrefix|] == TotalPrefix
      && ParseInt(p.handed.value.title[4][|TotalPrefix|..]) == Some(|results|)
  {
    var line := TotalPrefix + IntToString(|results|);
    assert line[|TotalPrefix|..] == IntToString(|results|);
    ParseIntOfIntToString(|results|);
  }
}
