/** The input form: turning a selected file into the upload the app stores, and which of the
    form's controls are disabled. Reading the file as a data URL is done by the browser and
    is an input here. */
module BidInputForm {
  import opened Wrappers
  import opened JsText

  /** A file chosen in the file picker: its name and its browser-reported MIME type, empty
      when the browser does not know it. */
  datatype SelectedFile = SelectedFile(name: string, mimeType: string)

  /** The `{ name, mimeType, data }` object handed to the app, `data` being base64. */
  datatype Upload = Upload(name: string, mimeType: string, data: string)

  const DefaultMime := "application/octet-stream"

  /** `indexOf(c)`: the first position of `c`, or -1 when it does not occur. */
  function IndexOf(s: string, c: char): (r: int)
    ensures -1 <= r < |s|
    ensures r == -1 <==> forall i :: 0 <= i < |s| ==> s[i] != c
    ensures r >= 0 ==> s[r] == c && forall i :: 0 <= i < r ==> s[i] != c
  {
    if s == [] then -1
    else if s[0] == c then 0
    else
      var k := IndexOf(s[1..], c);
      if k == -1 then -1 else k + 1
  }

  /** `substring(start)`, which clamps `start` into `0..|s|`. */
  function Substring(s: string, start: int): (r: string)
    ensures 0 <= start <= |s| ==> r == s[start..]
    ensures start < 0 ==> r == s
    ensures start > |s| ==> r == []
  {
    if start < 0 then s else if start > |s| then [] else s[start..]
  }

  /** The data of a data URL: everything after its first comma, or the whole string when it
      has none. */
  function PayloadOf(dataUrl: string): (r: string)
    ensures IndexOf(dataUrl, ',') == -1 ==> r == dataUrl
    ensures IndexOf(dataUrl, ',') >= 0 ==> dataUrl == dataUrl[..IndexOf(dataUrl, ',')] + "," + r
  {
    Substring(dataUrl, IndexOf(dataUrl, ',') + 1)
  }

  /** A data URL `header,payload` whose header has no comma yields exactly the payload, even
      when the payload holds commas of its own (section 3 of RFC 2397). */
  lemma PayloadAfterFirstComma(header: string, payload: string)
    requires forall i :: 0 <= i < |header| ==> header[i] != ','
    ensures PayloadOf(header + "," + payload) == payload
  {
    var u := header + "," + payload;
    assert u[|header|] == ',';
    assert forall i :: 0 <= i < |header| ==> u[i] == header[i];
    assert IndexOf(u, ',') == |header|;
    assert u[|header| + 1..] == payload;
  }

  /** Without a comma the whole string is taken as the payload. */
  lemma PayloadWithoutComma(s: string)
    requires forall i :: 0 <= i < |s| ==> s[i] != ','
    ensures PayloadOf(s) == s
  {
  }

  /** `file.type || 'application/octet-stream'`. */
  function MimeOrDefault(mimeType: string): (r: string)
    ensures r != ""
    ensures mimeType != "" ==> r == mimeType
    ensures mimeType == "" ==> r == DefaultMime
  {
    if mimeType == "" then DefaultMime else mimeType
  }

  /** `handleFileChange`: only the first selected file is used, and nothing is uploaded when
      none is selected or the read fails. `readAsDataUrl` is what the FileReader delivers for
      a file, `None` when it reports an error. */
  function HandleFileChange(files: seq<SelectedFile>, readAsDataUrl: SelectedFile -> Option<string>): (r: Option<Upload>)
    ensures r.None? <==> files == [] || readAsDataUrl(files[0]).None?
    ensures r.Some? ==>
      && r.value.name == files[0].name
      && r.value.mimeType == MimeOrDefault(files[0].mimeType)
      && r.value.data == PayloadOf(readAsDataUrl(files[0]).value)
  {
    if files == [] then None
    else
      var file := files[0];
      match readAsDataUrl(file)
      case None => None
      case Some(dataUrl) => Some(Upload(file.name, MimeOrDefault(file.mimeType), PayloadOf(dataUrl)))
  }

  /** Files after the first have no effect on the upload. */
  lemma OnlyFirstFileUsed(first: SelectedFile, others1: seq<SelectedFile>, others2: seq<SelectedFile>,
                          readAsDataUrl: SelectedFile -> Option<string>)
    ensures HandleFileChange([first] + others1, readAsDataUrl) == HandleFileChange([first] + others2, readAsDataUrl)
  {
  }

  /** Which controls of the form are disabled. */
  datatype Controls = Controls(upload: bool, remove: bool, textarea: bool, analyze: bool)

  /** The `disabled` expressions of the form, for the app's loading flag, its text and
      whether a file is uploaded. The Analyze button is disabled exactly while loading or
      when the text is all whitespace and no file is uploaded; the text area exactly while
      loading or while a file is uploaded; the two file buttons exactly while loading. */
  function FormControls(isLoading: bool, bidText: string, hasFile: bool): (c: Controls)
    ensures c.upload == isLoading && c.remove == isLoading
    ensures c.textarea <==> isLoading || hasFile
    ensures c.analyze <==> isLoading || (AllWhitespace(bidText) && !hasFile)
  {
    TrimEmptyIff(bidText);
    Controls(isLoading, isLoading, isLoading || hasFile, isLoading || (Trim(bidText) == "" && !hasFile))
  }

  /** While an analysis runs every control is disabled; otherwise the file buttons are not. */
  lemma LoadingDisablesAll(isLoading: bool, bidText: string, hasFile: bool)
    ensures isLoading ==> FormControls(isLoading, bidText, hasFile) == Controls(true, true, true, true)
    ensures !isLoading ==> !FormControls(isLoading, bidText, hasFile).upload && !FormControls(isLoading, bidText, hasFile).remove
  {
  }
}
