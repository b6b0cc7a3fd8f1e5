/** `parseFile`: chooses a decoder from the file's MIME type and lower-cased name, then
    assembles the text the decoder's library produced. The libraries themselves (pdf.js,
    mammoth, SheetJS) and the FileReader are not modelled: what they produce from the bytes
    is an input, `LibraryOutput`. */
module FileParser {
  import opened Wrappers
  import opened JsText
  import opened Seqs

  /** A selected file as `parseFile` sees it: its name and its browser-declared MIME type. */
  datatype SourceFile = SourceFile(name: string, mimeType: string)

  /** An item of a PDF page's text content: a text run (it has a `str`), or a
      marked-content marker (it has none). */
  datatype PdfItem = TextItem(str: string) | MarkedContent

  /** A worksheet, by its name, with the CSV text the spreadsheet library renders for it. */
  datatype Sheet = Sheet(name: string, csv: string)

  /** What each library would produce from the file's bytes, or the message it fails with:
      the pages of text items (pdf.js), the raw text (mammoth), the sheets in workbook order
      (SheetJS), and the file read as text (FileReader). */
  datatype LibraryOutput = LibraryOutput(
    pdfPages: Result<seq<seq<PdfItem>>>,
    docxText: Result<string>,
    workbook: Result<seq<Sheet>>,
    plainText: Result<string>)

  /** The value `parseFile` resolves to. */
  datatype ParsedFile = ParsedFile(name: string, text: string)

  /** The four decoders, in the order `parseFile` tries them. */
  datatype Format = Pdf | Docx | Spreadsheet | PlainText

  const PdfMime := "application/pdf"
  const DocxMime := "application/vnd.openxmlformats-officedocument.wordprocessingml.document"
  const XlsxMime := "application/vnd.openxmlformats-officedocument.spreadsheetml.sheet"
  const XlsMime := "application/vnd.ms-excel"

  // ---------------------------------------------------------------------------------------
  // Dispatch
  // ---------------------------------------------------------------------------------------

  /** Position of a format's branch in the if/else-if chain. */
  function Rank(f: Format): nat {
    match f
    case Pdf => 0
    case Docx => 1
    case Spreadsheet => 2
    case PlainText => 3
  }

  /** The condition of a format's branch. MIME types are compared exactly; extensions are
      tested on `lowerName`, the lower-cased file name. */
  predicate Accepts(f: Format, lowerName: string, mime: string) {
    match f
    case Pdf => mime == PdfMime || EndsWith(lowerName, ".pdf")
    case Docx => mime == DocxMime || EndsWith(lowerName, ".docx")
    case Spreadsheet =>
      mime == XlsxMime || mime == XlsMime || EndsWith(lowerName, ".xlsx") || EndsWith(lowerName, ".xls")
    case PlainText => StartsWith(mime, "text/") || EndsWith(lowerName, ".md")
  }

  /** The branch `parseFile` takes for a file, or `None` for the final `else`. */
  function Dispatch(name: string, mime: string): (r: Option<Format>)
    ensures r.Some? ==> Accepts(r.value, ToLower(name), mime)
    ensures r.None? <==> forall f: Format :: !Accepts(f, ToLower(name), mime)
  {
    var lowerName := ToLower(name);
    if Accepts(Pdf, lowerName, mime) then Some(Pdf)
    else if Accepts(Docx, lowerName, mime) then Some(Docx)
    else if Accepts(Spreadsheet, lowerName, mime) then Some(Spreadsheet)
    else if Accepts(PlainText, lowerName, mime) then Some(PlainText)
    else None
  }

  /** The first branch whose condition holds wins: `Dispatch` picks `f` exactly when `f`'s
      condition holds and no earlier branch's does, and picks none exactly when no condition
      holds. */
  lemma DispatchFirstMatch(name: string, mime: string, f: Format)
    ensures Dispatch(name, mime) == Some(f) <==>
      Accepts(f, ToLower(name), mime) && forall g: Format :: Rank(g) < Rank(f) ==> !Accepts(g, ToLower(name), mime)
    ensures Dispatch(name, mime) == None <==> forall g: Format :: !Accepts(g, ToLower(name), mime)
  {
    var lowerName := ToLower(name);
    if Dispatch(name, mime) == None {
      forall g: Format ensures !Accepts(g, lowerName, mime) {
        match g
        case Pdf =>
        case Docx =>
        case Spreadsheet =>
        case PlainText =>
      }
    }
  }

  /** A file declared `application/pdf` is decoded as a PDF whatever its name, so a `.docx`
      name with that MIME type still goes to the PDF branch. */
  lemma PdfMimeWins(name: string)
    ensures Dispatch(name, PdfMime) == Some(Pdf)
    ensures Dispatch("proposal.docx", PdfMime) == Some(Pdf)
  {
  }

  /** Names that differ only in the case of their letters are dispatched alike. */
  lemma DispatchIgnoresNameCase(name1: string, name2: string, mime: string)
    requires ToLower(name1) == ToLower(name2)
    ensures Dispatch(name1, mime) == Dispatch(name2, mime)
  {
  }

  /** Extensions are matched whatever their case: an upper-case `.PDF` name is a PDF. */
  lemma UpperCasePdfExtension()
    ensures Dispatch("BID.PDF", "") == Some(Pdf)
  {
    var n := "bid.pdf";
    assert ToLower("BID.PDF") == n;
    assert EndsWith(n, ".pdf");
  }

  /** An upper-case `.XLSX` name is a spreadsheet. */
  lemma UpperCaseXlsxExtension()
    ensures Dispatch("Pricing.XLSX", "") == Some(Spreadsheet)
  {
    PricingXlsxLower();
    PricingXlsxExtension();
  }

  lemma PricingXlsxLower()
    ensures ToLower("Pricing.XLSX") == "pricing.xlsx"
  {
    var u := "Pricing.XLSX";
    assert ToLower(u[8..]) == "xlsx";
    assert ToLower(u) == "pricing." + ToLower(u[8..]);
  }

  lemma PricingXlsxExtension()
    ensures !EndsWith("pricing.xlsx", ".pdf") && !EndsWith("pricing.xlsx", ".docx")
    ensures EndsWith("pricing.xlsx", ".xlsx")
  {
    var n := "pricing.xlsx";
    assert !EndsWith(n, ".pdf") by { assert n[8] != '.'; }
    assert !EndsWith(n, ".docx") by { assert n[8] != 'd'; }
    assert EndsWith(n, ".xlsx");
  }

  /** MIME types are compared exactly: a differently capitalised one matches nothing. */
  lemma MimeIsCaseSensitive()
    ensures Dispatch("scan", "Application/PDF") == None
  {
    var mime := "Application/PDF";
    assert ToLower("scan") == "scan";
    assert mime[0] != PdfMime[0];
    assert !StartsWith(mime, "text/") by { assert mime[0] != "text/"[0]; }
  }

  /** The text branch needs a `text/` MIME type or a `.md` name. */
  lemma PlainTextNeedsTextMime(name: string, mime: string)
    ensures Dispatch(name, mime) == Some(PlainText) ==> StartsWith(mime, "text/") || EndsWith(ToLower(name), ".md")
  {
  }

  /** A `.txt` name alone is not enough for the text branch. */
  lemma TxtNameAloneUnsupported()
    ensures Dispatch("notes.txt", "application/octet-stream") == None
  {
    var name := "notes.txt";
    NotesTxtExtension();
    var octet := "application/octet-stream";
    assert octet != PdfMime && octet != DocxMime && octet != XlsxMime && octet != XlsMime;
    assert !StartsWith(octet, "text/") by { assert octet[0] != "text/"[0]; }
  }

  /** With a `text/` MIME type the same name goes to the text branch. */
  lemma TxtNameWithTextMime()
    ensures Dispatch("notes.txt", "text/plain") == Some(PlainText)
  {
    var mime := "text/plain";
    NotesTxtExtension();
    assert mime != PdfMime && mime != DocxMime && mime != XlsxMime && mime != XlsMime;
    assert StartsWith(mime, "text/");
  }

  lemma NotesTxtExtension()
    ensures ToLower("notes.txt") == "notes.txt"
    ensures !EndsWith("notes.txt", ".pdf") && !EndsWith("notes.txt", ".docx") && !EndsWith("notes.txt", ".xlsx")
    ensures !EndsWith("notes.txt", ".xls") && !EndsWith("notes.txt", ".md")
  {
    var name := "notes.txt";
    assert ToLower(name) == name;
    assert !EndsWith(name, ".pdf") by { assert name[6] != 'p'; }
    assert !EndsWith(name, ".docx") by { assert name[4] != '.'; }
    assert !EndsWith(name, ".xlsx") by { assert name[4] != '.'; }
    assert !EndsWith(name, ".xls") by { assert name[6] != 'x'; }
    assert !EndsWith(name, ".md") by { assert name[6] != '.'; }
  }

  /** The message of the error thrown for an unsupported file. */
  function UnsupportedMessage(name: string): (m: string)
    ensures |m| >= 18 + |name| && m[18..18 + |name|] == name
  {
    "Unsupported file: " + name + ". Please upload a PDF, DOCX, XLSX, XLS, TXT, or MD file."
  }

  // ---------------------------------------------------------------------------------------
  // PDF text assembly
  // ---------------------------------------------------------------------------------------

  /** `'str' in item ? item.str : ''`. */
  function ItemText(item: PdfItem): string {
    match item
    case TextItem(s) => s
    case MarkedContent => ""
  }

  /** One page: its items' texts joined by single spaces. */
  function PageText(items: seq<PdfItem>): (r: string)
    ensures items == [] ==> r == ""
    ensures |items| == 1 ==> r == ItemText(items[0])
  {
    Join(seq(|items|, i requires 0 <= i < |items| => ItemText(items[i])), " ")
  }

  /** The document: each page's text followed by a blank line, pages in order. */
  function PdfText(pages: seq<seq<PdfItem>>): (r: string)
    ensures |r| >= 2 * |pages|
    ensures pages != [] ==> EndsWith(r, "\n\n")
  {
    if pages == [] then "" else PageText(pages[0]) + "\n\n" + PdfText(pages[1..])
  }

  /** The text of two runs of pages is the text of the first followed by that of the second. */
  lemma {:induction false} PdfTextAppend(a: seq<seq<PdfItem>>, b: seq<seq<PdfItem>>)
    ensures PdfText(a + b) == PdfText(a) + PdfText(b)
  {
    if a == [] {
      assert a + b == b;
    } else {
      assert (a + b)[1..] == a[1..] + b;
      PdfTextAppend(a[1..], b);
    }
  }

  /** Page `k`'s text, with its blank line, sits right after the text of the pages before it. */
  lemma PdfTextPageAt(pages: seq<seq<PdfItem>>, k: nat)
    requires k < |pages|
    ensures PdfText(pages) == PdfText(pages[..k]) + PageText(pages[k]) + "\n\n" + PdfText(pages[k + 1..])
  {
    var tail := pages[k..];
    SplitAt(pages, k);
    PdfTextUnfold(tail);
    PdfTextAppend(pages[..k], tail);
    Regroup(PdfText(pages[..k]), PageText(pages[k]), "\n\n", PdfText(pages[k + 1..]));
  }

  /** One step of the page loop's text. */
  lemma PdfTextUnfold(t: seq<seq<PdfItem>>)
    requires t != []
    ensures PdfText(t) == PageText(t[0]) + "\n\n" + PdfText(t[1..])
  {
  }

  /** A marked-content item adds nothing but still takes a place between separators. */
  lemma PageTextExample(a: string, b: string)
    ensures PageText([TextItem(a), MarkedContent, TextItem(b)]) == a + "  " + b
    ensures PageText([]) == ""
  {
    var items := [TextItem(a), MarkedContent, TextItem(b)];
    var texts := [a, "", b];
    assert seq(|items|, i requires 0 <= i < |items| => ItemText(items[i])) == texts;
    assert texts[1..][1..] == [b];
    assert Join(texts[1..], " ") == "" + " " + b;
  }

  /** One more page adds its text and a blank line at the end. */
  lemma PdfTextStep(prior: seq<seq<PdfItem>>, page: seq<PdfItem>)
    ensures PdfText(prior + [page]) == PdfText(prior) + PageText(page) + "\n\n"
  {
    PdfTextAppend(prior, [page]);
    assert PdfText([page]) == PageText(page) + "\n\n" by {
      assert [page][1..] == [];
    }
    ConcatAssoc(PdfText(prior), PageText(page), "\n\n");
  }

  /** `parsePdf` after the document is loaded: the `for` loop over pages `1..numPages`. */
  method ParsePdf(pages: seq<seq<PdfItem>>) returns (textContent: string)
    ensures textContent == PdfText(pages)
  {
    textContent := "";
    var i := 1;
    while i <= |pages|
      invariant 1 <= i <= |pages| + 1
      invariant textContent == PdfText(pages[..i - 1])
    {
      var page := pages[i - 1];
      textContent := textContent + PageText(page);
      textContent := textContent + "\n\n";
      assert pages[..i] == pages[..i - 1] + [page];
      PdfTextStep(pages[..i - 1], page);
      i := i + 1;
    }
    assert pages[..i - 1] == pages;
  }

  // ---------------------------------------------------------------------------------------
  // Spreadsheet text assembly
  // ---------------------------------------------------------------------------------------

  function SheetHeader(name: string): string {
    "--- Sheet: " + name + " ---\n\n"
  }

  /** One sheet: its header line, a blank line, its CSV, a blank line. */
  function SheetBlock(sheet: Sheet): (r: string)
    ensures StartsWith(r, "--- Sheet: " + sheet.name + " ---\n\n")
    ensures EndsWith(r, sheet.csv + "\n\n")
  {
    SheetHeader(sheet.name) + sheet.csv + "\n\n"
  }

  /** The workbook: the blocks of the sheets in workbook order. */
  function WorkbookText(sheets: seq<Sheet>): (r: string)
    ensures r == [] <==> sheets == []
    ensures sheets != [] ==> EndsWith(r, "\n\n")
  {
    if sheets == [] then "" else SheetBlock(sheets[0]) + WorkbookText(sheets[1..])
  }

  lemma {:induction false} WorkbookTextAppend(a: seq<Sheet>, b: seq<Sheet>)
    ensures WorkbookText(a + b) == WorkbookText(a) + WorkbookText(b)
  {
    if a == [] {
      assert a + b == b;
    } else {
      assert (a + b)[1..] == a[1..] + b;
      WorkbookTextAppend(a[1..], b);
    }
  }

  /** One more sheet appends its header, its CSV and a blank line. */
  lemma WorkbookTextStep(prior: seq<Sheet>, sheet: Sheet)
    ensures WorkbookText(prior + [sheet])
         == WorkbookText(prior) + "--- Sheet: " + sheet.name + " ---\n\n" + sheet.csv + "\n\n"
  {
    WorkbookTextAppend(prior, [sheet]);
    assert WorkbookText([sheet]) == SheetBlock(sheet) by {
      assert [sheet][1..] == [];
    }
    AppendChain(WorkbookText(prior), "--- Sheet: ", sheet.name, " ---\n\n", sheet.csv, "\n\n");
  }

  /** Sheet `k`'s block sits right after the blocks of the sheets before it. */
  lemma WorkbookTextSheetAt(sheets: seq<Sheet>, k: nat)
    requires k < |sheets|
    ensures WorkbookText(sheets) == WorkbookText(sheets[..k]) + SheetBlock(sheets[k]) + WorkbookText(sheets[k + 1..])
  {
    var tail := sheets[k..];
    SplitAt(sheets, k);
    assert WorkbookText(tail) == SheetBlock(tail[0]) + WorkbookText(tail[1..]);
    WorkbookTextAppend(sheets[..k], tail);
    ConcatAssoc(WorkbookText(sheets[..k]), SheetBlock(sheets[k]), WorkbookText(sheets[k + 1..]));
  }

  /** The offset at which sheet `k`'s header starts. */
  function HeaderOffset(sheets: seq<Sheet>, k: nat): nat
    requires k <= |sheets|
  {
    |WorkbookText(sheets[..k])|
  }

  lemma MiddleSlice(a: string, b: string, c: string, d: string)
    ensures (a + (b + c) + d)[|a|..|a| + |b|] == b
  {
    assert a + (b + c) + d == a + b + (c + d);
  }

  /** Every sheet's header appears at its offset and the headers appear in workbook order:
      an earlier sheet's whole block ends before a later sheet's header starts. */
  lemma SheetHeadersInOrder(sheets: seq<Sheet>, i: nat, j: nat)
    requires i < j < |sheets|
    ensures var text, h := WorkbookText(sheets), SheetHeader(sheets[i].name);
      HeaderOffset(sheets, i) + |h| <= |text| && text[HeaderOffset(sheets, i)..HeaderOffset(sheets, i) + |h|] == h
    ensures HeaderOffset(sheets, i) + |SheetBlock(sheets[i])| <= HeaderOffset(sheets, j)
  {
    HeaderAtOffset(sheets, i);
    BlockEndsBeforeLater(sheets, i, j);
  }

  lemma HeaderAtOffset(sheets: seq<Sheet>, i: nat)
    requires i < |sheets|
    ensures var text, h := WorkbookText(sheets), SheetHeader(sheets[i].name);
      HeaderOffset(sheets, i) + |h| <= |text| && text[HeaderOffset(sheets, i)..HeaderOffset(sheets, i) + |h|] == h
  {
    var before := WorkbookText(sheets[..i]);
    var h := SheetHeader(sheets[i].name);
    var tb := sheets[i].csv + "\n\n";
    var rest := WorkbookText(sheets[i + 1..]);
    assert WorkbookText(sheets) == before + (h + tb) + rest by {
      WorkbookTextSheetAt(sheets, i);
      ConcatAssoc(h, sheets[i].csv, "\n\n");
    }
    MiddleSlice(before, h, tb, rest);
  }

  lemma BlockEndsBeforeLater(sheets: seq<Sheet>, i: nat, j: nat)
    requires i < j < |sheets|
    ensures HeaderOffset(sheets, i) + |SheetBlock(sheets[i])| <= HeaderOffset(sheets, j)
  {
    var prefix := sheets[..j];
    assert prefix[..i] == sheets[..i] && prefix[i] == sheets[i];
    WorkbookTextSheetAt(prefix, i);
  }

  /** Two sheets named `Sheet1` and `Sheet2` give both headers, in that order. */
  lemma TwoSheetExample(csv1: string, csv2: string)
    ensures WorkbookText([Sheet("Sheet1", csv1), Sheet("Sheet2", csv2)])
      == "--- Sheet: Sheet1 ---\n\n" + csv1 + "\n\n" + "--- Sheet: Sheet2 ---\n\n" + csv2 + "\n\n"
  {
    var s1, s2 := Sheet("Sheet1", csv1), Sheet("Sheet2", csv2);
    WorkbookTextStep([], s1);
    WorkbookTextStep([s1], s2);
    assert [] + [s1] == [s1] && [s1] + [s2] == [s1, s2];
    SheetHeaderLiterals();
    Regroup("--- Sheet: Sheet1 ---\n\n" + csv1 + "\n\n", "--- Sheet: ", "Sheet2", " ---\n\n");
  }

  lemma SheetHeaderLiterals()
    ensures "" + "--- Sheet: " + "Sheet1" + " ---\n\n" == "--- Sheet: Sheet1 ---\n\n"
    ensures "--- Sheet: " + "Sheet2" + " ---\n\n" == "--- Sheet: Sheet2 ---\n\n"
  {
  }

  /** `parseXlsx` after the workbook is read: the `forEach` over `SheetNames`. */
  method ParseXlsx(sheets: seq<Sheet>) returns (fullText: string)
    ensures fullText == WorkbookText(sheets)
  {
    fullText := "";
    for k := 0 to |sheets|
      invariant fullText == WorkbookText(sheets[..k])
    {
      var sheet := sheets[k];
      fullText := fullText + "--- Sheet: " + sheet.name + " ---\n\n";
      fullText := fullText + sheet.csv + "\n\n";
      assert sheets[..k + 1] == sheets[..k] + [sheet];
      WorkbookTextStep(sheets[..k], sheet);
    }
    assert sheets[..|sheets|] == sheets;
  }

  // ---------------------------------------------------------------------------------------
  // parseFile
  // ---------------------------------------------------------------------------------------

  /** The text a format's decoder produces, or the failure of its library. */
  function DecodedText(f: Format, libs: LibraryOutput): (r: Result<string>)
    ensures f == Docx ==> r == libs.docxText
    ensures f == PlainText ==> r == libs.plainText
    ensures f == Pdf ==> (r.Ok? <==> libs.pdfPages.Ok?)
    ensures f == Pdf && r.Ok? ==> r.value == PdfText(libs.pdfPages.value)
    ensures f == Pdf && r.Err? ==> r.message == libs.pdfPages.message
    ensures f == Spreadsheet ==> (r.Ok? <==> libs.workbook.Ok?)
    ensures f == Spreadsheet && r.Ok? ==> r.value == WorkbookText(libs.workbook.value)
    ensures f == Spreadsheet && r.Err? ==> r.message == libs.workbook.message
  {
    match f
    case Pdf => (match libs.pdfPages case Ok(pages) => Ok(PdfText(pages)) case Err(m) => Err(m))
    case Docx => libs.docxText
    case Spreadsheet => (match libs.workbook case Ok(sheets) => Ok(WorkbookText(sheets)) case Err(m) => Err(m))
    case PlainText => libs.plainText
  }

  /** `parseFile`: an unsupported file fails with a message naming it; otherwise the chosen
      decoder's text (or its failure) is returned under the file's original, not lower-cased,
      name. */
  method ParseFile(file: SourceFile, libs: LibraryOutput) returns (r: Result<ParsedFile>)
    ensures Dispatch(file.name, file.mimeType).None? ==> r == Err(UnsupportedMessage(file.name))
    ensures Dispatch(file.name, file.mimeType).Some? ==>
      r == match DecodedText(Dispatch(file.name, file.mimeType).value, libs)
           case Ok(text) => Ok(ParsedFile(file.name, text))
           case Err(m) => Err(m)
    ensures r.Ok? ==> r.value.name == file.name
  {
    var format := Dispatch(file.name, file.mimeType);
    var text: string;
    match format {
      case None =>
        return Err(UnsupportedMessage(file.name));
      case Some(Pdf) =>
        match libs.pdfPages {
          case Err(m) => return Err(m);
          case Ok(pages) => text := ParsePdf(pages);
        }
      case Some(Docx) =>
        match libs.docxText {
          case Err(m) => return Err(m);
          case Ok(t) => text := t;
        }
      case Some(Spreadsheet) =>
        match libs.workbook {
          case Err(m) => return Err(m);
          case Ok(sheets) => text := ParseXlsx(sheets);
        }
      case Some(PlainText) =>
        match libs.plainText {
          case Err(m) => return Err(m);
          case Ok(t) => text := t;
        }
    }
    return Ok(ParsedFile(file.name, text));
  }
}
