# Gemini Bid Analyzer — a verified model of its data-shaping core

Gemini Bid Analyzer is a browser app. A user pastes the text of a government bid
solicitation, or uploads a document. The app asks a Gemini model to extract a structured
`BidAnalysis` record, shows it, and exports it as JSON or its line items as CSV.

This Dafny project models the deterministic logic around that one model call:

- the `BidAnalysis` record (`Types`);
- the file-to-text decoding rules: an ordered MIME-type/extension dispatch, then the
  assembly of PDF pages and spreadsheet sheets into one text (`FileParser`);
- the guards of `analyzeBid`, the two request shapes, the reply handling and the response
  schema constant (`GeminiService`);
- the app's five state cells and its handlers, as a class (`App.AppState`), including the
  analysis cycle and the JSON export file name;
- the line-item CSV writer, its file name and the detail-card formatters
  (`AnalysisResults`). A CSV reader in the style of section 2 of RFC 4180 sits beside the writer,
  and the export is proved to read back as the table it was built from;
- the upload payload extraction from a data URL and the form's `disabled` predicates
  (`BidInputForm`).

`JsText` models the JavaScript string built-ins the code relies on:
- `trim`, over the ECMAScript white-space and line-terminator set;
- `toLowerCase`;
- `join`;
- `replace(/\W+/g, '_')`, `replace(/"/g, '""')` and `replace(/_/g, ' ')`;
- `toString` on integers.

`Wrappers` holds `Option` (for `null`) and `Result` (for a thrown `Error` and its message).

Inputs the code gets from outside become parameters:
- what pdf.js, mammoth, SheetJS and the FileReader produce (`LibraryOutput`, and
  `readAsDataUrl` in `BidInputForm.HandleFileChange`);
- the model's reply (`reply`) and `JSON.parse` (`parse`);
- the API key (`apiKey`, absent or empty when not configured);
- the fixed prompt text (`basePrompt`).

`parsePdf` and `parseXlsx` are methods with loops. Each is proved equal to a recursive
specification function, `PdfText` and `WorkbookText`, and the lemmas about layout are
proved about those functions. The app's handlers are methods on `App.AppState`. Each one
keeps the invariant `Exclusive` (pasted text and an uploaded file are never both present).

### Behaviour as the code has it
- `handleAnalyze` clears the previous result before the new request is made. A failing
  second analysis therefore leaves no result shown, only the error (`App.AppState.StartAnalysis`).
- The parsed reply is returned as it is. A reply that parses as JSON but does not match the
  schema is not rejected: only a `JSON.parse` failure becomes an error
  (`GeminiService.HandleResponse`).
- There is no aggregation of several documents into one request, and no document boundary
  format: one text or one file is sent per analysis.
- Whitespace-only text selects the text-shaped request when a file is also given
  (`GeminiService.NonEmptyTextWins`). The app never sends both, because a file takes
  precedence (`App.FileTakesPrecedence`).

## Model

| member | source | states |
|---|---|---|
| Types.ProductFitTypeFromName | types.ts:22 | a product-fit type string is recognised exactly when it is one of the three allowed names |
| Types.ProductFitTypeNameRoundTrip | types.ts:21-25 | the three types have three names, and reading a name back gives its type |
| JsText.TrimStart | services/geminiService.ts:158 | leading white space is removed: what is dropped is all white space and what is left starts with a non-space |
| JsText.TrimEnd | services/geminiService.ts:158 | trailing white space is removed, symmetrically |
| JsText.Trim | App.tsx:41 | the text between the leading and the trailing white space, empty when the text is all white space; neither end of the result is white space |
| JsText.TrimEmptyIff | services/geminiService.ts:120 | a string trims to empty exactly when all its characters are white space |
| JsText.TrimStartAppend | services/geminiService.ts:158 | trimming the start of `s + q` either skips all of `s` (all white space) or keeps `q` whole |
| JsText.TrimEndAppend | services/geminiService.ts:158 | trailing white space appended to a string does not change its end-trimmed form |
| JsText.TrimPadding | services/geminiService.ts:158 | white space added at either end leaves `trim` unchanged |
| JsText.ToLower | utils/fileParser.ts:74 | each ASCII upper-case letter becomes its lower-case letter, others are kept, and no upper-case letter is left |
| JsText.ToLowerIdempotent | utils/fileParser.ts:74 | lower-casing twice is lower-casing once |
| JsText.NonWordPrefix | components/AnalysisResults.tsx:105 | the length of the longest run of non-word characters at the front |
| JsText.ReplaceNonWordRuns | components/AnalysisResults.tsx:105 | the sanitised text holds only `[A-Za-z0-9_]`, is no longer than the input, and is empty exactly when the input is |
| JsText.ReplaceNonWordRunsKeepsWords | components/AnalysisResults.tsx:105 | a text of word characters only is left unchanged |
| JsText.ReplaceNonWordRunsIdempotent | components/AnalysisResults.tsx:105 | sanitising twice is sanitising once |
| JsText.ReplaceNonWordRunsRun | components/AnalysisResults.tsx:105 | a maximal run of non-word characters of any length becomes exactly one `_`, and each side is sanitised on its own |
| JsText.UnderscoresToSpaces | components/AnalysisResults.tsx:141 | same length, every `_` becomes a space, every other character kept |
| JsText.NatToString | components/AnalysisResults.tsx:94 | the decimal digits of a number in canonical form: only digits, not empty, no leading zero, and `0` exactly for zero |
| JsText.NatToStringRoundTrip | components/AnalysisResults.tsx:94 | reading the decimal digits of a number back gives the number |
| JsText.CanonicalIsNatToString | components/AnalysisResults.tsx:94 | every canonical digit string is the rendering of its value, so the rendering is the only canonical one |
| JsText.IntToString | components/AnalysisResults.tsx:94 | `toString` of an integer: a minus sign exactly for negatives, then canonical digits (no leading zero, no `-0`) whose value is the magnitude; no double quote |
| JsText.DoubleQuotes | components/AnalysisResults.tsx:93-96 | never shorter than the value, and a value without double quotes is kept as it is; `ReadEscapedOfDoubled` reads the doubled form back to the value |
| FileParser.Dispatch | utils/fileParser.ts:74-95 | a chosen format accepts the lower-cased name and the MIME type; no format is chosen exactly when none accepts them |
| FileParser.DispatchFirstMatch | utils/fileParser.ts:78-95 | a format is chosen exactly when its condition holds and no earlier branch's does; none is chosen exactly when no condition holds |
| FileParser.PdfMimeWins | utils/fileParser.ts:78 | an `application/pdf` file is decoded as PDF whatever its name, including a `.docx` name |
| FileParser.DispatchIgnoresNameCase | utils/fileParser.ts:74-75 | names equal up to letter case are dispatched alike |
| FileParser.UpperCasePdfExtension | utils/fileParser.ts:74-78 | `BID.PDF` with no MIME type is a PDF |
| FileParser.UpperCaseXlsxExtension | utils/fileParser.ts:74-87 | `Pricing.XLSX` with no MIME type is a spreadsheet |
| FileParser.MimeIsCaseSensitive | utils/fileParser.ts:78-89 | MIME types are compared exactly: `Application/PDF` matches no branch |
| FileParser.PlainTextNeedsTextMime | utils/fileParser.ts:89 | the text branch is taken only for a `text/` MIME type or a `.md` name |
| FileParser.TxtNameAloneUnsupported | utils/fileParser.ts:89-94 | `notes.txt` declared `application/octet-stream` is unsupported |
| FileParser.TxtNameWithTextMime | utils/fileParser.ts:89 | `notes.txt` declared `text/plain` goes to the text branch |
| FileParser.UnsupportedMessage | utils/fileParser.ts:92-94 | the unsupported-file message holds the original-case file name at a fixed offset |
| FileParser.PageText | utils/fileParser.ts:48 | a page without items gives the empty text, and a page of one item gives that item's text |
| FileParser.PdfText | utils/fileParser.ts:44-51 | every page adds at least its blank line, and a document with pages ends in a blank line; `ParsePdf` builds it and `PdfTextPageAt` places each page |
| FileParser.PdfTextAppend | utils/fileParser.ts:45-50 | the text of two runs of pages is the first run's text followed by the second's |
| FileParser.PdfTextPageAt | utils/fileParser.ts:45-50 | page `k`'s text and its blank line come right after the text of the pages before it, in page order |
| FileParser.PageTextExample | utils/fileParser.ts:48 | an item without `str` adds an empty string between separators, and a page without items gives an empty text |
| FileParser.ParsePdf | utils/fileParser.ts:44-51 | the loop over pages `1..numPages` builds exactly `PdfText(pages)`, which is empty for no pages |
| FileParser.SheetBlock | utils/fileParser.ts:65-68 | a sheet's block starts with `--- Sheet: <name> ---` and a blank line and ends with its CSV and a blank line |
| FileParser.WorkbookText | utils/fileParser.ts:63-70 | the text is empty exactly when there are no sheets, and otherwise ends in a blank line; `ParseXlsx` builds it and `WorkbookTextSheetAt` places each sheet |
| FileParser.WorkbookTextAppend | utils/fileParser.ts:64-69 | the text of two runs of sheets is the first run's text followed by the second's |
| FileParser.WorkbookTextSheetAt | utils/fileParser.ts:64-69 | sheet `k`'s block comes right after the blocks of the sheets before it |
| FileParser.SheetHeadersInOrder | utils/fileParser.ts:64-69 | each sheet header appears at its offset, and an earlier sheet's whole block ends before a later sheet's header |
| FileParser.TwoSheetExample | utils/fileParser.ts:65-68 | two sheets give `--- Sheet: Sheet1 ---`, its CSV, then `--- Sheet: Sheet2 ---` and its CSV, each followed by a blank line |
| FileParser.ParseXlsx | utils/fileParser.ts:63-70 | the loop over sheet names builds exactly `WorkbookText(sheets)` |
| FileParser.DecodedText | utils/fileParser.ts:78-90 | DOCX and text files give the library's text or failure; a PDF gives `PdfText` of its pages and a spreadsheet `WorkbookText` of its sheets, or the library's failure |
| FileParser.ParseFile | utils/fileParser.ts:73-98 | when no branch accepts the file, it fails with the unsupported message; otherwise it gives the chosen decoder's text or the decoder's failure; the name returned is the original `file.name` |
| GeminiService.Truthy | services/geminiService.ts:123-131 | an optional string is truthy exactly when it is present and not empty |
| GeminiService.IsEmptyContent | services/geminiService.ts:120 | the emptiness guard fires exactly when there is no file and the text is absent or all white space |
| GeminiService.TextPrompt | services/geminiService.ts:132 | the text request is the prompt, then `\n\n--- BID TEXT ---\n`, then the text, then `\n--- END BID TEXT ---`: its length is their sum and the prompt and both markers sit at their places |
| GeminiService.TextPromptRoundTrip | services/geminiService.ts:132 | the bid text can be read back from between the markers unchanged and untrimmed |
| GeminiService.PrepareRequest | services/geminiService.ts:120-147 | empty content fails with "Bid text or file cannot be empty." before the key is checked; a missing key fails with "API key is not configured."; a request is built exactly when both guards pass; "No content provided to analyze." is never produced |
| GeminiService.EmptyCheckedBeforeKey | services/geminiService.ts:120-126 | empty content is reported as empty with an absent key and with an empty key |
| GeminiService.NonEmptyTextWins | services/geminiService.ts:131-132 | any non-empty text picks the text request and ignores the file, even whitespace-only text when a file is present |
| GeminiService.WhitespaceTextIsEmpty | services/geminiService.ts:120-122 | whitespace-only text with no file fails as empty |
| GeminiService.FileRequestCarriesFile | services/geminiService.ts:133-144 | without text, the request has two parts: the prompt, then the file's MIME type and data unchanged |
| GeminiService.TextShapeCarriesText | services/geminiService.ts:131-144 | once both guards pass, the text request is built exactly when the text is truthy, and it carries that text |
| GeminiService.HandleResponse | services/geminiService.ts:158-164 | the reply is trimmed and parsed; success returns the parsed value unchecked; failure gives "The AI returned an invalid data structure. Please try again." |
| GeminiService.ReplyPaddingIgnored | services/geminiService.ts:158 | white space around the reply does not change the outcome |
| GeminiService.AnalyzeBid | services/geminiService.ts:119-165 | the guard errors as for `PrepareRequest`; a result means a request was built, the model replied, and the trimmed reply parsed to it; the guards' error is returned as it is; once the request is built, a successful reply gives exactly `HandleResponse` of it and a failed model call gives its own message |
| GeminiService.LineItemSchemaRequiredDeclared | services/geminiService.ts:31-43 | the line-item schema requires only declared properties |
| GeminiService.KeyRequirementsSchemaRequiredDeclared | services/geminiService.ts:26-55 | the key-requirements schema, including its nested line-item and product-fit schemas, requires only declared properties |
| GeminiService.BidAnalysisSchemaRequiredDeclared | services/geminiService.ts:6-100 | at every depth of the response schema, each `required` name is a property of that object |
| GeminiService.SchemaRequiredLists | services/geminiService.ts:41-99 | the top level requires exactly its seven declared sections, in order; a line item requires only `name` |
| AnalysisResults.TitleFileStem | components/AnalysisResults.tsx:105 | a null or empty title gives the fallback; any other title gives its `\W+`-sanitised form (`ReplaceNonWordRuns`), a non-empty stem of word characters |
| AnalysisResults.TitleFileStemIdempotent | components/AnalysisResults.tsx:105 | sanitising an already-sanitised stem leaves it unchanged |
| AnalysisResults.CsvFileName | components/AnalysisResults.tsx:105-106 | the name is the title's stem (`TitleFileStem` with fallback `bid_line_items`) followed by `.csv`; the stem is non-empty and of word characters |
| AnalysisResults.CsvFileNameExample | components/AnalysisResults.tsx:105-106 | the title `RFP #42` is saved as `RFP_42.csv` |
| AnalysisResults.QuantityString | components/AnalysisResults.tsx:94 | null gives empty, text is kept, a number is rendered by `IntToString` (canonical decimal, a sign exactly when it is negative) |
| AnalysisResults.ItemFields | components/AnalysisResults.tsx:92-97 | an item gives one value per header column |
| AnalysisResults.QuoteField | components/AnalysisResults.tsx:93-96 | a field is wrapped in double quotes, and an empty value becomes `""` |
| AnalysisResults.CsvRow | components/AnalysisResults.tsx:92-97 | a data row read back as a CSV record gives exactly the item's four values |
| AnalysisResults.HeaderLine | components/AnalysisResults.tsx:89-91 | the header line is `Item / Service,Quantity,Part #,Description`, unquoted |
| AnalysisResults.CsvText | components/AnalysisResults.tsx:89-100 | the text starts with the header line and, with items, ends with the last item's row; `CsvRoundTrip` reads it back |
| AnalysisResults.CsvTextShape | components/AnalysisResults.tsx:89-100 | the text starts with the header line, is the header alone for no items, and otherwise ends with a closing quote rather than a line break |
| AnalysisResults.DownloadCsv | components/AnalysisResults.tsx:85-106 | nothing happens exactly when there are no line items; otherwise the CSV text of the items is saved under the title-derived name |
| AnalysisResults.ReadEscapedOfDoubled | components/AnalysisResults.tsx:93-96 | reading a quote-doubled value and its closing quote gives the value back |
| AnalysisResults.ReadQuotedField | components/AnalysisResults.tsx:93-96 | a quoted field followed by a comma, a line break or the end reads back as the original value |
| AnalysisResults.ReadPlainField | components/AnalysisResults.tsx:89 | an unquoted field without commas, quotes or line breaks reads back as itself |
| AnalysisResults.ReadRecordOfJoin | components/AnalysisResults.tsx:97 | a comma-joined record of written fields reads back as its fields |
| AnalysisResults.ReadCsvOfJoin | components/AnalysisResults.tsx:100 | records joined by line breaks read back as the table of their fields |
| AnalysisResults.CsvRoundTrip | components/AnalysisResults.tsx:89-100 | reading the export back with the CSV reader gives the header names, then, row by row and in order, each item's name, quantity, part number and description, quotes included |
| AnalysisResults.CapitaliseWords | components/AnalysisResults.tsx:141 | the length is kept; `CapitaliseWordsAt` gives each character |
| AnalysisResults.CapitaliseWordsAt | components/AnalysisResults.tsx:141 | a character is upper-cased exactly when it is a word character at a word boundary; all others are kept |
| AnalysisResults.CapitaliseWordsAppend | components/AnalysisResults.tsx:141 | capitalising a concatenation capitalises each part, the second part knowing whether the first ended in a word character |
| AnalysisResults.FormatProductFitType | components/AnalysisResults.tsx:141 | the shown type has the name's length and no underscore |
| AnalysisResults.FormatBrandNameOrEqual | components/AnalysisResults.tsx:141 | `brand_name_or_equal` is shown as `Brand Name Or Equal` |
| AnalysisResults.FormatSpecificBrand | components/AnalysisResults.tsx:141 | `specific_brand` is shown as `Specific Brand` |
| AnalysisResults.FormatUnspecified | components/AnalysisResults.tsx:141 | `unspecified` is shown as `Unspecified` |
| AnalysisResults.CarriedBrandLabel | components/AnalysisResults.tsx:143 | `N/A` exactly for null, `Yes` exactly for true, `No` exactly for false |
| AnalysisResults.DetailItemText | components/AnalysisResults.tsx:16 | the cell is never blank: a null or empty value shows `N/A`, and any other value shows itself |
| AnalysisResults.DetailListLines | components/AnalysisResults.tsx:23-29 | the list shown is never empty: the items themselves, or the single line `None specified` |
| BidInputForm.IndexOf | components/BidInputForm.tsx:23 | -1 exactly when the character does not occur; otherwise its first position |
| BidInputForm.Substring | components/BidInputForm.tsx:23 | `substring` clamps its start into the string |
| BidInputForm.PayloadOf | components/BidInputForm.tsx:23 | with no comma the whole data URL; otherwise the data URL is its text before the first comma, the comma, then the payload |
| BidInputForm.PayloadAfterFirstComma | components/BidInputForm.tsx:22-23 | a data URL `header,payload` with no comma in the header yields exactly the payload, commas in it included |
| BidInputForm.PayloadWithoutComma | components/BidInputForm.tsx:23 | with no comma the whole string is the payload |
| BidInputForm.MimeOrDefault | components/BidInputForm.tsx:26 | an empty browser type becomes `application/octet-stream`; any other type is kept |
| BidInputForm.HandleFileChange | components/BidInputForm.tsx:17-35 | nothing is uploaded exactly when no file is selected or the read fails; otherwise the first file's name, its MIME type or the fallback, and the data-URL payload |
| BidInputForm.OnlyFirstFileUsed | components/BidInputForm.tsx:18 | files after the first have no effect |
| BidInputForm.FormControls | components/BidInputForm.tsx:48-96 | Analyze is disabled exactly while loading or when the text is all white space and no file is uploaded; the text area exactly while loading or with a file; the upload and remove buttons exactly while loading |
| BidInputForm.LoadingDisablesAll | components/BidInputForm.tsx:48-96 | while loading every control is disabled; otherwise the file buttons are enabled |
| App.NothingToAnalyze | App.tsx:41 | the app's guard fires exactly when no file is uploaded and the text is all white space |
| App.ContentFor | App.tsx:45-47 | with a file uploaded only the file is sent; without one only the text |
| App.AnalysisOutcome | App.tsx:41-50 | empty input ends with "Please paste bid text or upload a file to analyze."; otherwise the outcome is the service's for the chosen content |
| App.AppGuardImpliesServiceGuard | App.tsx:41-49 | past the app's guard, the service's emptiness guard passes, and with a key set a request is built |
| App.FileTakesPrecedence | App.tsx:45-47 | with a file uploaded the request is the two-part file request, whatever the text |
| App.TextSentUntrimmed | App.tsx:47 | without a file, text that passed the guard is sent untrimmed in the text request |
| App.AnalyzeEnabledPassesGuard | components/BidInputForm.tsx:96 | when the Analyze button is enabled, the guard of `handleAnalyze` does not fire |
| App.EmptyInputMessage | App.tsx:41-43 | whitespace-only text with no file ends the cycle with the app's own message |
| App.JsonFileName | App.tsx:70-71 | the name is the title's stem (`TitleFileStem` with fallback `bid_analysis`) followed by `.json`; the stem is non-empty and of word characters |
| App.AppState.Exclusive | App.tsx:17-33 | pasted text and an uploaded file are never both present: non-empty text means no file, and a file means empty text |
| App.AppState.constructor | App.tsx:11-15 | the initial state is empty text, no file, no result, not loading, no error, and it is exclusive |
| App.AppState.SetBidText | App.tsx:17-22 | stores the text; non-empty text clears the file and empty text leaves it; nothing else changes; the state is exclusive |
| App.AppState.HandleFileUpload | App.tsx:24-29 | stores the file and clears the text; nothing else changes; the state is exclusive |
| App.AppState.ClearUploadedFile | App.tsx:31-33 | clears the file and changes nothing else |
| App.AppState.StartAnalysis | App.tsx:36-38 | loading is set and both the error and any previous result are cleared |
| App.AppState.FinishAnalysis | App.tsx:49-59 | a result or an error message is stored from the outcome, and loading stops |
| App.AppState.HandleAnalyze | App.tsx:35-60 | afterwards loading is false, exactly one of result and error is set, to the cycle's outcome, and the inputs and exclusivity are unchanged |
| App.AppState.HandleDownloadJson | App.tsx:62-71 | nothing without a result; otherwise the title-derived `.json` name |

## Left out

- Reading files (`readAsArrayBuffer`, `readAsText`, `readAsDataURL`) is browser I/O with callbacks.
  It is modelled by its results only, given as inputs.
- The internals of pdf.js, mammoth and SheetJS are foreign libraries, so their outputs are
  inputs. This includes `sheet_to_csv`'s own quoting and the DOCX text.
- The Gemini call and `JSON.parse` are external calls. They are the parameters `reply` and `parse`.
- The prompt wording is an opaque parameter, `basePrompt`. Its rules are instructions to the
  model and are not enforced by any code.
- The model name, the response MIME type and the `description` strings of the line-item schema
  are not modelled. They are request metadata and carry no logic.
- No validation of the parsed response is modelled, because the code does none.
- Types.ProductFitType: the field holds one of the three declared types. A reply with another
  string is outside the model, because the record is typed as the interface declares it.
- AnalysisResults.QuantityString: a numeric quantity is an integer. `toString` of fractional or
  exponent-form numbers is not modelled.
- JsText.ToLower: only ASCII letters are lower-cased. Non-ASCII case mappings are not modelled.
  Every extension the dispatch tests is ASCII.
- App.AppState.HandleAnalyze: the `'An unknown error occurred.'` branch is not modelled. Every
  failure in the modelled code is an `Error` with a message.
- App.AppState.HandleAnalyze: a reply that parses to `null` (or to any other non-object) ends the
  cycle with neither a result nor an error in the code, because `setAnalysisResult(null)` runs
  with the error still cleared. The model rules this case out by the type of `parse`, which yields
  a `BidAnalysis` or nothing, with nothing treated as the invalid-structure error.
- App.AppState.HandleAnalyze: asynchrony is reduced to sequencing. The loading phase is the state
  after `StartAnalysis`.
- The JSON export content (`JSON.stringify` pretty-printing, `encodeURIComponent`) and the
  Blob/anchor/URL download plumbing are left out. Only the file names and the CSV text are
  modelled.
- React rendering, tabs, the raw-JSON toggle and `window.print` are left out, along with the
  layout-only components (header, cards, spinner, line-item table, executive summary).
- The CSV reader separates records by a line feed alone, as the writer does. The CRLF of RFC 4180
  is not accepted.
- The CSV reader accepts any character other than a comma, a double quote, a line feed and a
  carriage return in an unquoted field. RFC 4180's TEXTDATA is printable ASCII only, so the export
  is RFC 4180 CSV only when every cell is printable ASCII; the round trip holds for all cells.
- Logging is not modelled: the `console.error` calls on a parse failure
  (services/geminiService.ts:162) and on a failed file read (components/BidInputForm.tsx:31) have
  no effect on the state or the results.
