/** The results view: the line-item CSV export and its file name, and the text formatters
    the detail cards use. A CSV reader in the manner of RFC 4180 section 2 is defined beside
    the writer so that the export can be shown to read back as the table it was built from. */
module AnalysisResults {
  import opened Wrappers
  import opened JsText
  import opened Seqs
  import opened Types

  // ---------------------------------------------------------------------------------------
  // Download file names
  // ---------------------------------------------------------------------------------------

  /** `title?.replace(/\W+/g, '_') || fallback`: the title with each run of non-word
      characters turned into one `_`, or the fallback when the title is null or empty. */
  function TitleFileStem(title: Option<string>, fallback: string): (r: string)
    ensures title.None? || title.value == "" ==> r == fallback
    ensures title.Some? && title.value != "" ==> r == ReplaceNonWordRuns(title.value)
    ensures title.Some? && title.value != "" ==> r != "" && AllWordChars(r)
    ensures AllWordChars(fallback) ==> AllWordChars(r)
  {
    if title.None? then fallback
    else
      var sanitised := ReplaceNonWordRuns(title.value);
      if sanitised == "" then fallback else sanitised
  }

  /** A stem is already sanitised: using it as the title again gives the same stem. */
  lemma TitleFileStemIdempotent(title: Option<string>, fallback: string)
    requires AllWordChars(fallback)
    ensures TitleFileStem(Some(TitleFileStem(title, fallback)), fallback) == TitleFileStem(title, fallback)
  {
    var stem := TitleFileStem(title, fallback);
    ReplaceNonWordRunsKeepsWords(stem);
  }

  const CsvFallbackStem := "bid_line_items"

  /** The name the CSV export is saved under. */
  function CsvFileName(title: Option<string>): (r: string)
    ensures EndsWith(r, ".csv")
    ensures AllWordChars(r[..|r| - 4]) && r[..|r| - 4] != ""
    ensures title.None? || title.value == "" ==> r == "bid_line_items.csv"
    ensures r[..|r| - 4] == TitleFileStem(title, CsvFallbackStem)
  {
    assert AllWordChars(CsvFallbackStem);
    TitleFileStem(title, CsvFallbackStem) + ".csv"
  }

  /** Punctuation and spaces in a title collapse to single underscores. */
  lemma CsvFileNameExample()
    ensures CsvFileName(Some("RFP #42")) == "RFP_42.csv"
  {
    SanitisedExample();
    assert CsvFileName(Some("RFP #42")) == "RFP_42" + ".csv";
    CsvNameLiteral();
  }

  lemma CsvNameLiteral()
    ensures "RFP_42" + ".csv" == "RFP_42.csv"
  {
  }

  lemma SanitisedExample()
    ensures ReplaceNonWordRuns("RFP #42") == "RFP_42"
  {
    var u, run, v := "RFP", " #", "42";
    TitleLiterals();
    WordsExample();
    ReplaceNonWordRunsRun(u, run, v);
    ReplaceNonWordRunsKeepsWords(u);
    ReplaceNonWordRunsKeepsWords(v);
  }

  lemma TitleLiterals()
    ensures "RFP" + " #" + "42" == "RFP #42"
    ensures "RFP" + "_" + "42" == "RFP_42"
  {
  }

  lemma WordsExample()
    ensures AllWordChars("RFP") && AllWordChars("42") && NoWordChars(" #")
  {
  }

  // ---------------------------------------------------------------------------------------
  // CSV writer
  // ---------------------------------------------------------------------------------------

  const CsvHeaders := ["Item / Service", "Quantity", "Part #", "Description"]

  /** `quantity?.toString() || ''`: text as it is, a number in decimal, null as empty. */
  function QuantityString(q: Option<Quantity>): (r: string)
    ensures q.None? ==> r == ""
    ensures q.Some? && q.value.QuantityText? ==> r == q.value.text
    ensures q.Some? && q.value.QuantityNumber? ==> r == IntToString(q.value.number)
    ensures q.Some? && q.value.QuantityNumber? ==> r != "" && ((r[0] == '-') <==> q.value.number < 0)
  {
    match q
    case None => ""
    case Some(QuantityText(t)) => t
    case Some(QuantityNumber(n)) => IntToString(n)
  }

  function OrEmpty(s: Option<string>): string {
    if s.None? then "" else s.value
  }

  /** The four values a line item contributes, in column order, before quoting. */
  function ItemFields(item: LineItem): (r: seq<string>)
    ensures |r| == |CsvHeaders|
  {
    [item.name, QuantityString(item.quantity), OrEmpty(item.partNumber), OrEmpty(item.description)]
  }

  /** A field wrapped in double quotes, with each inner double quote doubled. */
  function QuoteField(v: string): (r: string)
    ensures |r| >= 2 && r[0] == '"' && r[|r| - 1] == '"'
    ensures v == "" ==> r == "\"\""
  {
    "\"" + DoubleQuotes(v) + "\""
  }

  function QuoteFields(fs: seq<string>): (r: seq<string>)
    ensures |r| == |fs|
  {
    seq(|fs|, i requires 0 <= i < |fs| => QuoteField(fs[i]))
  }

  /** One data row: the item's four values, each quoted, separated by commas. Read back as a
      CSV record, it gives exactly those four values. */
  function CsvRow(item: LineItem): (r: string)
    ensures ReadRecord(r) == Some(RecordRead(ItemFields(item), [], false))
  {
    var fs := ItemFields(item);
    EncodeQuoted(fs);
    ReadRecordOfJoin(fs, true, []);
    assert Join(QuoteFields(fs), ",") + [] == Join(QuoteFields(fs), ",");
    Join(QuoteFields(fs), ",")
  }

  function CsvRows(items: seq<LineItem>): (r: seq<string>)
    ensures |r| == |items|
  {
    seq(|items|, i requires 0 <= i < |items| => CsvRow(items[i]))
  }

  /** The CSV text: the unquoted header line, then one row per item in order, separated by
      `\n`, with no line break at the end. */
  function CsvText(items: seq<LineItem>): (r: string)
    ensures StartsWith(r, Join(CsvHeaders, ","))
    ensures items != [] ==> EndsWith(r, CsvRow(items[|items| - 1]))
  {
    var lines := [Join(CsvHeaders, ",")] + CsvRows(items);
    JoinStartsWithFirst(lines, "\n");
    JoinEndsWithLast(lines, "\n");
    Join(lines, "\n")
  }

  /** The first part of a join begins it. */
  lemma JoinStartsWithFirst(parts: seq<string>, sep: string)
    requires |parts| >= 1
    ensures StartsWith(Join(parts, sep), parts[0])
  {
    if |parts| > 1 {
      var j := Join(parts[1..], sep);
      ConcatAssoc(parts[0], sep, j);
      assert (parts[0] + (sep + j))[..|parts[0]|] == parts[0];
    }
  }

  /** The last part of a join ends it. */
  lemma {:induction false} JoinEndsWithLast(parts: seq<string>, sep: string)
    requires |parts| >= 1
    ensures EndsWith(Join(parts, sep), parts[|parts| - 1])
  {
    if |parts| > 1 {
      JoinEndsWithLast(parts[1..], sep);
      var j := Join(parts[1..], sep);
      assert Join(parts, sep) == (parts[0] + sep) + j;
    }
  }

  /** The text begins with the header line; with no items it is the header line alone, and
      otherwise it ends with the closing quote of the last row, not with a line break. */
  lemma CsvTextShape(items: seq<LineItem>)
    ensures StartsWith(CsvText(items), "Item / Service,Quantity,Part #,Description")
    ensures items == [] ==> CsvText(items) == "Item / Service,Quantity,Part #,Description"
    ensures items != [] ==> CsvText(items)[|CsvText(items)| - 1] == '"'
  {
    HeaderLine();
    CsvTextStartsWithHeader(items);
    if items != [] {
      CsvTextEndsWithQuote(items);
    }
  }

  lemma CsvTextStartsWithHeader(items: seq<LineItem>)
    ensures StartsWith(CsvText(items), Join(CsvHeaders, ","))
    ensures items == [] ==> CsvText(items) == Join(CsvHeaders, ",")
  {
    var header := Join(CsvHeaders, ",");
    var rows := CsvRows(items);
    if items == [] {
      assert [header] + rows == [header];
    } else {
      JoinCons(header, rows, "\n");
    }
  }

  lemma CsvTextEndsWithQuote(items: seq<LineItem>)
    requires items != []
    ensures CsvText(items)[|CsvText(items)| - 1] == '"'
  {
    var item := items[|items| - 1];
    var fields := QuoteFields(ItemFields(item));
    assert fields[|fields| - 1] == QuoteField(ItemFields(item)[|fields| - 1]);
    JoinLastChar(fields, ",");
    EndsWithLastChar(CsvText(items), CsvRow(item));
  }

  /** A join whose last part is not empty ends with that part's last character. */
  lemma JoinLastChar(parts: seq<string>, sep: string)
    requires |parts| >= 1 && parts[|parts| - 1] != []
    ensures Join(parts, sep) != [] && Join(parts, sep)[|Join(parts, sep)| - 1] == parts[|parts| - 1][|parts[|parts| - 1]| - 1]
  {
    JoinEndsWithLast(parts, sep);
    EndsWithLastChar(Join(parts, sep), parts[|parts| - 1]);
  }

  /** A text ending with a non-empty suffix ends with the suffix's last character. */
  lemma EndsWithLastChar(s: string, suffix: string)
    requires EndsWith(s, suffix) && suffix != []
    ensures s != [] && s[|s| - 1] == suffix[|suffix| - 1]
  {
    assert s[|s| - |suffix|..][|suffix| - 1] == s[|s| - 1];
  }

  lemma HeaderLine()
    ensures Join(CsvHeaders, ",") == "Item / Service,Quantity,Part #,Description"
  {
    var d := ["Description"];
    var p := ["Part #"] + d;
    var q := ["Quantity"] + p;
    assert CsvHeaders == ["Item / Service"] + q;
    assert Join(d, ",") == "Description";
    JoinCons("Part #", d, ",");
    JoinCons("Quantity", p, ",");
    JoinCons("Item / Service", q, ",");
    HeaderLiteral();
  }

  /** Joining a part in front of a non-empty list. */
  lemma JoinCons(x: string, xs: seq<string>, sep: string)
    requires |xs| >= 1
    ensures Join([x] + xs, sep) == x + (sep + Join(xs, sep))
  {
    assert ([x] + xs)[0] == x && ([x] + xs)[1..] == xs;
    JoinUnfold([x] + xs, sep);
  }

  lemma HeaderLiteral()
    ensures "Item / Service" + ("," + ("Quantity" + ("," + ("Part #" + ("," + "Description")))))
         == "Item / Service,Quantity,Part #,Description"
  {
  }

  /** What clicking the CSV button saves: a file name and its text. */
  datatype CsvDownload = CsvDownload(fileName: string, text: string)

  /** `handleDownloadCsv`: nothing without line items; otherwise the CSV of the line items
      under a name derived from the title. */
  function DownloadCsv(data: BidAnalysis): (r: Option<CsvDownload>)
    ensures r.None? <==> data.keyRequirements.lineItems == []
    ensures r.Some? ==> r.value.text == CsvText(data.keyRequirements.lineItems)
    ensures r.Some? ==> r.value.fileName == CsvFileName(data.solicitationDetails.title)
  {
    var items := data.keyRequirements.lineItems;
    if |items| == 0 then None
    else Some(CsvDownload(CsvFileName(data.solicitationDetails.title), CsvText(items)))
  }

  // ---------------------------------------------------------------------------------------
  // CSV reader (after RFC 4180 section 2, with records separated by a line feed)
  // ---------------------------------------------------------------------------------------

  /** A field read off the front of a text, and what follows it. */
  datatype FieldRead = FieldRead(field: string, rest: string)

  /** The fields of a record, what follows it, and whether a line break ended it. */
  datatype RecordRead = RecordRead(fields: seq<string>, rest: string, more: bool)

  /** The characters this reader accepts in an unquoted field: all but comma, double quote,
      line feed and carriage return (wider than the printable ASCII of RFC 4180's TEXTDATA). */
  predicate IsTextData(c: char) {
    c != ',' && c != '"' && c != '\n' && c != '\r'
  }

  predicate AllTextData(s: string) {
    forall i :: 0 <= i < |s| ==> IsTextData(s[i])
  }

  /** Reads the inside of a quoted field, opening quote already consumed: `""` stands for
      one quote, and a lone quote closes the field. */
  function ReadEscaped(s: string): (r: Option<FieldRead>)
    ensures r.Some? ==> |r.value.rest| < |s|
  {
    if s == [] then None
    else if s[0] == '"' then
      if |s| >= 2 && s[1] == '"' then
        match ReadEscaped(s[2..])
        case None => None
        case Some(p) => Some(FieldRead("\"" + p.field, p.rest))
      else Some(FieldRead("", s[1..]))
    else
      match ReadEscaped(s[1..])
      case None => None
      case Some(p) => Some(FieldRead([s[0]] + p.field, p.rest))
  }

  /** The length of the longest TEXTDATA prefix. */
  function PlainPrefix(s: string): (n: nat)
    ensures n <= |s|
  {
    if s != [] && IsTextData(s[0]) then 1 + PlainPrefix(s[1..]) else 0
  }

  /** Reads one field: a quoted one if it opens with a quote, else the TEXTDATA prefix. */
  function ReadField(s: string): (r: Option<FieldRead>)
    ensures r.Some? ==> |r.value.rest| <= |s|
  {
    if s != [] && s[0] == '"' then ReadEscaped(s[1..])
    else
      var n := PlainPrefix(s);
      Some(FieldRead(s[..n], s[n..]))
  }

  /** Reads comma-separated fields up to a line break or the end of the text. */
  function ReadRecord(s: string): (r: Option<RecordRead>)
    ensures r.Some? ==> |r.value.rest| < |s| || (!r.value.more && r.value.rest == [])
    ensures r.Some? && !r.value.more ==> r.value.rest == []
    decreases |s|
  {
    match ReadField(s)
    case None => None
    case Some(p) =>
      if p.rest == [] then Some(RecordRead([p.field], [], false))
      else if p.rest[0] == '\n' then Some(RecordRead([p.field], p.rest[1..], true))
      else if p.rest[0] == ',' then
        match ReadRecord(p.rest[1..])
        case None => None
        case Some(q) => Some(RecordRead([p.field] + q.fields, q.rest, q.more))
      else None
  }

  /** Reads every record of a text. */
  function ReadCsv(s: string): Option<seq<seq<string>>>
    decreases |s|
  {
    match ReadRecord(s)
    case None => None
    case Some(r) =>
      if !r.more then Some([r.fields])
      else
        match ReadCsv(r.rest)
        case None => None
        case Some(t) => Some([r.fields] + t)
  }

  // ---------------------------------------------------------------------------------------
  // Reading the export back
  // ---------------------------------------------------------------------------------------

  /** What may follow a field: nothing, a comma or a line break. */
  predicate Delimited(rest: string) {
    rest == [] || rest[0] == ',' || rest[0] == '\n'
  }

  lemma {:induction false} ReadEscapedOfDoubled(v: string, rest: string)
    requires rest == [] || rest[0] != '"'
    ensures ReadEscaped(DoubleQuotes(v) + "\"" + rest) == Some(FieldRead(v, rest))
  {
    var s := DoubleQuotes(v) + "\"" + rest;
    if v == [] {
      assert s == "\"" + rest;
      assert s[1..] == rest;
    } else {
      ReadEscapedOfDoubled(v[1..], rest);
      var x := if v[0] == '"' then "\"\"" else [v[0]];
      var t := DoubleQuotes(v[1..]) + "\"" + rest;
      assert s == x + t by {
        Regroup(x, DoubleQuotes(v[1..]), "\"", rest);
      }
      AfterPrefix(x, t);
      ConsTail(v);
    }
  }

  /** A quoted field reads back as the value that was quoted. */
  lemma ReadQuotedField(v: string, rest: string)
    requires Delimited(rest)
    ensures ReadField(QuoteField(v) + rest) == Some(FieldRead(v, rest))
  {
    var t := DoubleQuotes(v) + "\"" + rest;
    ReadEscapedOfDoubled(v, rest);
    Regroup("\"", DoubleQuotes(v), "\"", rest);
    AfterPrefix("\"", t);
    assert ("\"" + t)[0] == '"';
  }

  lemma {:induction false} PlainPrefixOf(h: string, rest: string)
    requires AllTextData(h)
    requires rest == [] || !IsTextData(rest[0])
    ensures PlainPrefix(h + rest) == |h|
  {
    if h == [] {
      assert h + rest == rest;
    } else {
      PlainPrefixOf(h[1..], rest);
      assert (h + rest)[1..] == h[1..] + rest;
    }
  }

  /** An unquoted field of TEXTDATA reads back as itself. */
  lemma ReadPlainField(h: string, rest: string)
    requires AllTextData(h)
    requires Delimited(rest)
    ensures ReadField(h + rest) == Some(FieldRead(h, rest))
  {
    PlainPrefixOf(h, rest);
    var s := h + rest;
    assert s[..|h|] == h && s[|h|..] == rest;
    assert s == [] || s[0] != '"' by {
      if h != [] {
        assert s[0] == h[0];
      }
    }
  }

  /** A field as written: quoted, or left bare. */
  function EncodeField(f: string, quoted: bool): string {
    if quoted then QuoteField(f) else f
  }

  function EncodeFields(fs: seq<string>, quoted: bool): (r: seq<string>)
    ensures |r| == |fs|
  {
    seq(|fs|, i requires 0 <= i < |fs| => EncodeField(fs[i], quoted))
  }

  /** A record the writer can produce: at least one field, and only TEXTDATA fields when
      they are left bare. */
  predicate Writable(fs: seq<string>, quoted: bool) {
    |fs| >= 1 && (quoted || forall i :: 0 <= i < |fs| ==> AllTextData(fs[i]))
  }

  lemma ReadEncodedField(f: string, quoted: bool, rest: string)
    requires quoted || AllTextData(f)
    requires Delimited(rest)
    ensures ReadField(EncodeField(f, quoted) + rest) == Some(FieldRead(f, rest))
  {
    if quoted {
      ReadQuotedField(f, rest);
    } else {
      ReadPlainField(f, rest);
    }
  }

  /** A written record, followed by nothing or by a line break, reads back as its fields. */
  lemma {:induction false} ReadRecordOfJoin(fs: seq<string>, quoted: bool, tail: string)
    requires Writable(fs, quoted)
    requires tail == [] || tail[0] == '\n'
    ensures ReadRecord(Join(EncodeFields(fs, quoted), ",") + tail)
         == Some(RecordRead(fs, if tail == [] then [] else tail[1..], tail != []))
    decreases |fs|
  {
    var es := EncodeFields(fs, quoted);
    if |fs| == 1 {
      ReadEncodedField(fs[0], quoted, tail);
      assert Join(es, ",") == es[0];
      assert fs == [fs[0]];
    } else {
      var rest := Join(EncodeFields(fs[1..], quoted), ",") + tail;
      assert EncodeFields(fs, quoted)[1..] == EncodeFields(fs[1..], quoted);
      assert Join(es, ",") + tail == es[0] + ("," + rest) by {
        ConcatAssoc(es[0] + ",", Join(es[1..], ","), tail);
        ConcatAssoc(es[0], ",", rest);
      }
      ReadEncodedField(fs[0], quoted, "," + rest);
      assert ("," + rest)[1..] == rest;
      ReadRecordOfJoin(fs[1..], quoted, tail);
      ConsTail(fs);
    }
  }

  /** Written records joined by line breaks read back as the table of their fields. */
  lemma {:induction false} ReadCsvOfJoin(table: seq<seq<string>>, quoted: seq<bool>)
    requires |table| == |quoted| >= 1
    requires forall i :: 0 <= i < |table| ==> Writable(table[i], quoted[i])
    ensures ReadCsv(Join(Lines(table, quoted), "\n")) == Some(table)
    decreases |table|
  {
    var first := Join(EncodeFields(table[0], quoted[0]), ",");
    if |table| == 1 {
      ReadCsvOfOneLine(table[0], quoted[0]);
      assert table == [table[0]] && quoted == [quoted[0]];
    } else {
      forall i | 0 <= i < |table[1..]|
        ensures Writable(table[1..][i], quoted[1..][i])
      {
        assert table[1..][i] == table[i + 1] && quoted[1..][i] == quoted[i + 1];
      }
      ReadCsvOfJoin(table[1..], quoted[1..]);
      ReadCsvOfMoreLines(table, quoted);
    }
  }

  /** A single written record reads back as a one-row table. */
  lemma ReadCsvOfOneLine(fs: seq<string>, quoted: bool)
    requires Writable(fs, quoted)
    ensures ReadCsv(Join(Lines([fs], [quoted]), "\n")) == Some([fs])
  {
    var line := Join(EncodeFields(fs, quoted), ",");
    assert Lines([fs], [quoted]) == [line];
    ReadRecordOfJoin(fs, quoted, []);
    assert line + [] == line;
  }

  /** A written record, a line break and a table that reads back read back as the record
      followed by that table. */
  lemma ReadCsvOfMoreLines(table: seq<seq<string>>, quoted: seq<bool>)
    requires |table| == |quoted| >= 2
    requires Writable(table[0], quoted[0])
    requires ReadCsv(Join(Lines(table[1..], quoted[1..]), "\n")) == Some(table[1..])
    ensures ReadCsv(Join(Lines(table, quoted), "\n")) == Some(table)
  {
    var more := Join(Lines(table[1..], quoted[1..]), "\n");
    LinesJoinUnfold(table, quoted);
    ReadRecordOfJoin(table[0], quoted[0], "\n" + more);
    assert ("\n" + more)[1..] == more;
    ConsTail(table);
    ReadCsvStep(Join(Lines(table, quoted), "\n"), table[0], more, table[1..]);
  }

  /** The written table is its first line, a line break and the written later rows. */
  lemma LinesJoinUnfold(table: seq<seq<string>>, quoted: seq<bool>)
    requires |table| == |quoted| >= 2
    ensures Join(Lines(table, quoted), "\n")
         == Join(EncodeFields(table[0], quoted[0]), ",") + ("\n" + Join(Lines(table[1..], quoted[1..]), "\n"))
  {
    assert Lines(table, quoted)[1..] == Lines(table[1..], quoted[1..]);
    JoinUnfold(Lines(table, quoted), "\n");
  }

  /** A record that ends in a line break, followed by a readable table, reads as that
      record then that table. */
  lemma ReadCsvStep(text: string, fields: seq<string>, more: string, t: seq<seq<string>>)
    requires ReadRecord(text) == Some(RecordRead(fields, more, true))
    requires ReadCsv(more) == Some(t)
    ensures ReadCsv(text) == Some([fields] + t)
  {
  }

  /** The lines of a table, each record written with its own quoting choice. */
  function Lines(table: seq<seq<string>>, quoted: seq<bool>): (r: seq<string>)
    requires |table| == |quoted|
    ensures |r| == |table|
  {
    seq(|table|, i requires 0 <= i < |table| => Join(EncodeFields(table[i], quoted[i]), ","))
  }

  /** The table an export is meant to hold: the header names, then each item's values. */
  function ExportTable(items: seq<LineItem>): (r: seq<seq<string>>)
    ensures |r| == |items| + 1
  {
    [CsvHeaders] + seq(|items|, i requires 0 <= i < |items| => ItemFields(items[i]))
  }

  lemma HeadersAreTextData()
    ensures forall i :: 0 <= i < |CsvHeaders| ==> AllTextData(CsvHeaders[i])
  {
    forall i | 0 <= i < |CsvHeaders| ensures AllTextData(CsvHeaders[i]) {
      var h := CsvHeaders[i];
      forall j | 0 <= j < |h| ensures IsTextData(h[j]) {
      }
    }
  }

  /** Reading the exported text as CSV gives back the header names and, row by
      row, every item's name, quantity, part number and description, quotes included. */
  lemma CsvRoundTrip(items: seq<LineItem>)
    ensures ReadCsv(CsvText(items)) == Some(ExportTable(items))
  {
    ExportWritable(items);
    ExportLines(items);
    ReadCsvOfJoin(ExportTable(items), ExportQuoting(|items|));
  }

  /** The export writes the header line unquoted and every item row quoted. */
  function ExportQuoting(n: nat): (r: seq<bool>)
    ensures |r| == n + 1 && !r[0]
    ensures forall i :: 1 <= i <= n ==> r[i]
  {
    [false] + seq(n, i => true)
  }

  lemma ExportWritable(items: seq<LineItem>)
    ensures forall i :: 0 <= i < |items| + 1 ==> Writable(ExportTable(items)[i], ExportQuoting(|items|)[i])
  {
    HeadersAreTextData();
  }

  lemma ExportLines(items: seq<LineItem>)
    ensures Lines(ExportTable(items), ExportQuoting(|items|)) == [Join(CsvHeaders, ",")] + CsvRows(items)
  {
    var lines := Lines(ExportTable(items), ExportQuoting(|items|));
    var expected := [Join(CsvHeaders, ",")] + CsvRows(items);
    assert lines[0] == expected[0] by {
      assert EncodeFields(CsvHeaders, false) == CsvHeaders;
    }
    forall i | 1 <= i < |lines|
      ensures lines[i] == expected[i]
    {
      ExportLine(items, i);
    }
  }

  lemma ExportLine(items: seq<LineItem>, i: nat)
    requires 1 <= i <= |items|
    ensures Lines(ExportTable(items), ExportQuoting(|items|))[i] == CsvRow(items[i - 1])
  {
    var table, quoted := ExportTable(items), ExportQuoting(|items|);
    var fs := ItemFields(items[i - 1]);
    assert quoted[i] && table[i] == fs;
    EncodeQuoted(fs);
  }

  /** Encoding every field quoted is quoting every field. */
  lemma EncodeQuoted(fs: seq<string>)
    ensures EncodeFields(fs, true) == QuoteFields(fs)
  {
  }

  // ---------------------------------------------------------------------------------------
  // Display formatters
  // ---------------------------------------------------------------------------------------

  function UpperChar(c: char): char {
    if 'a' <= c <= 'z' then (c as int - 32) as char else c
  }

  /** `\b\w` at position `i`: a word character with a non-word character, or the start of
      the text when `afterWord` is false, before it. */
  predicate StartsWord(s: string, i: nat, afterWord: bool)
    requires i < |s|
  {
    IsWordChar(s[i]) && if i == 0 then !afterWord else !IsWordChar(s[i - 1])
  }

  /** `replace(/\b\w/g, l => l.toUpperCase())`, scanning left to right; `afterWord` says
      whether the character before `s` is a word character. */
  function CapitaliseWords(s: string, afterWord: bool): (r: string)
    ensures |r| == |s|
  {
    if s == [] then []
    else
      var c := if IsWordChar(s[0]) && !afterWord then UpperChar(s[0]) else s[0];
      [c] + CapitaliseWords(s[1..], IsWordChar(s[0]))
  }

  /** A character is upper-cased exactly when it starts a word; every other one is kept. */
  lemma {:induction false} CapitaliseWordsAt(s: string, afterWord: bool)
    ensures forall i :: 0 <= i < |s| ==>
      CapitaliseWords(s, afterWord)[i] == if StartsWord(s, i, afterWord) then UpperChar(s[i]) else s[i]
  {
    if s != [] {
      var t := s[1..];
      CapitaliseWordsAt(t, IsWordChar(s[0]));
      var r := CapitaliseWords(s, afterWord);
      forall i | 1 <= i < |s|
        ensures r[i] == if StartsWord(s, i, afterWord) then UpperChar(s[i]) else s[i]
      {
        assert r[i] == CapitaliseWords(t, IsWordChar(s[0]))[i - 1];
        assert t[i - 1] == s[i];
        if i >= 2 {
          assert t[i - 2] == s[i - 1];
        }
      }
    }
  }

  /** The product-fit type as shown: underscores become spaces, then each word is
      capitalised. */
  function FormatProductFitType(t: ProductFitType): (r: string)
    ensures |r| == |ProductFitTypeName(t)|
    ensures forall i :: 0 <= i < |r| ==> r[i] != '_'
  {
    var spaced := UnderscoresToSpaces(ProductFitTypeName(t));
    CapitaliseWordsAt(spaced, false);
    CapitaliseWords(spaced, false)
  }

  /** Capitalising a concatenation capitalises each piece, the second one knowing whether
      the first ended in a word character. */
  lemma {:induction false} CapitaliseWordsAppend(a: string, b: string, afterWord: bool)
    ensures CapitaliseWords(a + b, afterWord)
         == CapitaliseWords(a, afterWord) + CapitaliseWords(b, if a == [] then afterWord else IsWordChar(a[|a| - 1]))
  {
    if a == [] {
      assert a + b == b;
    } else {
      var c := if IsWordChar(a[0]) && !afterWord then UpperChar(a[0]) else a[0];
      assert (a + b)[0] == a[0] && (a + b)[1..] == a[1..] + b;
      CapitaliseWordsAppend(a[1..], b, IsWordChar(a[0]));
      if |a| >= 2 {
        assert a[1..][|a[1..]| - 1] == a[|a| - 1];
      }
      ConcatAssoc([c], CapitaliseWords(a[1..], IsWordChar(a[0])),
                  CapitaliseWords(b, if a == [] then afterWord else IsWordChar(a[|a| - 1])));
    }
  }

  /** A single word is capitalised at its first letter only. */
  lemma CapitaliseOneWord(c: char, tail: string)
    requires IsWordChar(c) && AllWordChars(tail)
    ensures CapitaliseWords([c] + tail, false) == [UpperChar(c)] + tail
  {
    var w := [c] + tail;
    CapitaliseWordsAt(w, false);
    var r := CapitaliseWords(w, false);
    forall i | 1 <= i < |w|
      ensures r[i] == ([UpperChar(c)] + tail)[i]
    {
      assert w[i] == tail[i - 1] && w[i - 1] == if i == 1 then c else tail[i - 2];
      assert !StartsWord(w, i, false);
    }
    assert r == [UpperChar(c)] + tail;
  }

  /** A space then a word: the space is kept and the word capitalised, whatever came before. */
  lemma CapitaliseSpacedWord(c: char, tail: string, afterWord: bool)
    requires IsWordChar(c) && AllWordChars(tail)
    ensures CapitaliseWords(" " + ([c] + tail), afterWord) == " " + ([UpperChar(c)] + tail)
  {
    assert (" " + ([c] + tail))[1..] == [c] + tail;
    CapitaliseOneWord(c, tail);
  }

  lemma FormatBrandNameOrEqual()
    ensures FormatProductFitType(BrandNameOrEqual) == "Brand Name Or Equal"
  {
    var brand, name, or, equal := ['b'] + "rand", " " + (['n'] + "ame"), " " + (['o'] + "r"), " " + (['e'] + "qual");
    BrandNameSpaced();
    CapitaliseWordsAppend(brand, name + (or + equal), false);
    CapitaliseWordsAppend(name, or + equal, true);
    CapitaliseWordsAppend(or, equal, true);
    CapitaliseOneWord('b', "rand");
    CapitaliseSpacedWord('n', "ame", true);
    CapitaliseSpacedWord('o', "r", true);
    CapitaliseSpacedWord('e', "qual", true);
    BrandNameJoined();
  }

  lemma BrandNameSpaced()
    ensures UnderscoresToSpaces("brand_name_or_equal")
         == (['b'] + "rand") + ((" " + (['n'] + "ame")) + ((" " + (['o'] + "r")) + (" " + (['e'] + "qual"))))
  {
  }

  lemma BrandNameJoined()
    ensures ([UpperChar('b')] + "rand") + ((" " + ([UpperChar('n')] + "ame"))
            + ((" " + ([UpperChar('o')] + "r")) + (" " + ([UpperChar('e')] + "qual"))))
         == "Brand Name Or Equal"
  {
  }

  lemma FormatSpecificBrand()
    ensures FormatProductFitType(SpecificBrand) == "Specific Brand"
  {
    SpecificBrandSpaced();
    CapitaliseWordsAppend(['s'] + "pecific", " " + (['b'] + "rand"), false);
    CapitaliseOneWord('s', "pecific");
    CapitaliseSpacedWord('b', "rand", true);
    SpecificBrandJoined();
  }

  lemma SpecificBrandSpaced()
    ensures UnderscoresToSpaces("specific_brand") == (['s'] + "pecific") + (" " + (['b'] + "rand"))
  {
  }

  lemma SpecificBrandJoined()
    ensures ([UpperChar('s')] + "pecific") + (" " + ([UpperChar('b')] + "rand")) == "Specific Brand"
  {
  }

  lemma FormatUnspecified()
    ensures FormatProductFitType(Unspecified) == "Unspecified"
  {
    UnspecifiedSpaced();
    CapitaliseOneWord('u', "nspecified");
    UnspecifiedJoined();
  }

  lemma UnspecifiedSpaced()
    ensures UnderscoresToSpaces("unspecified") == ['u'] + "nspecified"
  {
  }

  lemma UnspecifiedJoined()
    ensures [UpperChar('u')] + "nspecified" == "Unspecified"
  {
  }

  /** The "Carried Brand?" cell: `N/A` for null, else `Yes` or `No`. */
  function CarriedBrandLabel(b: Option<bool>): (r: string)
    ensures r == "N/A" <==> b.None?
    ensures r == "Yes" <==> b == Some(true)
    ensures r == "No" <==> b == Some(false)
  {
    match b
    case None => "N/A"
    case Some(true) => "Yes"
    case Some(false) => "No"
  }

  /** `DetailItem`: the value, or `N/A` when it is null or empty; the cell is never blank. */
  function DetailItemText(v: Option<string>): (r: string)
    ensures r != ""
    ensures r == "N/A" <==> v.None? || v.value == "" || v.value == "N/A"
    ensures v.Some? && v.value != "" ==> r == v.value
  {
    if v.None? || v.value == "" then "N/A" else v.value
  }

  /** `DetailList`: the items as bullets, or the one line `None specified` for an empty
      list; the list shown is never empty. */
  function DetailListLines(items: seq<string>): (r: seq<string>)
    ensures r != []
    ensures items != [] ==> r == items
    ensures items == [] ==> r == ["None specified"]
  {
    if |items| > 0 then items else ["None specified"]
  }
}
