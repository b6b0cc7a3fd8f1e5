/** The app's state and its handlers: the pasted text and the uploaded file, which exclude
    each other, and the analysis cycle that replaces the previous result or error. The
    service's model call and JSON parse are the functions `reply` and `parse`, and the API
    key and prompt are parameters, as in `GeminiService.AnalyzeBid`. */
module App {
  import opened Wrappers
  import opened JsText
  import opened Types
  import opened GeminiService
  import opened AnalysisResults
  import opened BidInputForm

  const NothingToAnalyzeError := "Please paste bid text or upload a file to analyze."
  const JsonFallbackStem := "bid_analysis"

  /** The guard at the top of `handleAnalyze`: the text trims to nothing and no file is
      uploaded. */
  predicate NothingToAnalyze(bidText: string, uploadedFile: Option<Upload>)
    ensures NothingToAnalyze(bidText, uploadedFile) <==> uploadedFile.None? && AllWhitespace(bidText)
  {
    TrimEmptyIff(bidText);
    Trim(bidText) == "" && uploadedFile.None?
  }

  /** What `handleAnalyze` sends to the service: the uploaded file if there is one, and the
      text only when there is none. */
  function ContentFor(bidText: string, uploadedFile: Option<Upload>): (c: Content)
    ensures uploadedFile.Some? ==>
      c.text.None? && c.file == Some(InlineFile(uploadedFile.value.mimeType, uploadedFile.value.data))
    ensures uploadedFile.None? ==> c.text == Some(bidText) && c.file.None?
  {
    match uploadedFile
    case Some(f) => Content(None, Some(InlineFile(f.mimeType, f.data)))
    case None => Content(Some(bidText), None)
  }

  /** The result or the error an analysis cycle ends with. */
  function AnalysisOutcome(bidText: string, uploadedFile: Option<Upload>, apiKey: Option<string>, basePrompt: string,
                           reply: Contents -> Result<string>, parse: string -> Option<BidAnalysis>): (r: Result<BidAnalysis>)
    ensures NothingToAnalyze(bidText, uploadedFile) ==> r == Err(NothingToAnalyzeError)
    ensures !NothingToAnalyze(bidText, uploadedFile) ==>
      r == AnalyzeBid(ContentFor(bidText, uploadedFile), apiKey, basePrompt, reply, parse)
  {
    if NothingToAnalyze(bidText, uploadedFile) then Err(NothingToAnalyzeError)
    else AnalyzeBid(ContentFor(bidText, uploadedFile), apiKey, basePrompt, reply, parse)
  }

  /** Once the app's guard has passed, the service's emptiness guard passes too, so its
      "cannot be empty" error never comes from the app's requests; and when the key is set
      the service builds a request. */
  lemma AppGuardImpliesServiceGuard(bidText: string, uploadedFile: Option<Upload>, apiKey: Option<string>, basePrompt: string)
    requires !NothingToAnalyze(bidText, uploadedFile)
    ensures !IsEmptyContent(ContentFor(bidText, uploadedFile))
    ensures Truthy(apiKey) ==> PrepareRequest(ContentFor(bidText, uploadedFile), apiKey, basePrompt).Ok?
  {
  }

  /** With a file uploaded the request is the two-part file request, whatever the text. */
  lemma {:induction false} FileTakesPrecedence(bidText: string, file: Upload, apiKey: string, basePrompt: string)
    requires apiKey != ""
    ensures PrepareRequest(ContentFor(bidText, Some(file)), Some(apiKey), basePrompt)
         == Ok(Parts([TextPart(basePrompt), InlineDataPart(InlineFile(file.mimeType, file.data))]))
  {
    FileRequestCarriesFile(None, InlineFile(file.mimeType, file.data), apiKey, basePrompt);
  }

  /** Without a file, text that passed the guard is sent untrimmed in the text request. */
  lemma {:induction false} TextSentUntrimmed(bidText: string, apiKey: string, basePrompt: string)
    requires !NothingToAnalyze(bidText, None) && apiKey != ""
    ensures PrepareRequest(ContentFor(bidText, None), Some(apiKey), basePrompt)
         == Ok(PromptText(TextPrompt(basePrompt, bidText)))
  {
    NonEmptyTextWins(bidText, None, apiKey, basePrompt);
    TrimEmptyIff(bidText);
  }

  /** When the form's Analyze button is enabled, the guard of `handleAnalyze` does not fire. */
  lemma {:induction false} AnalyzeEnabledPassesGuard(isLoading: bool, bidText: string, uploadedFile: Option<Upload>)
    requires !FormControls(isLoading, bidText, uploadedFile.Some?).analyze
    ensures !NothingToAnalyze(bidText, uploadedFile)
  {
    TrimEmptyIff(bidText);
  }

  /** The name the JSON export is saved under. */
  function JsonFileName(title: Option<string>): (r: string)
    ensures EndsWith(r, ".json")
    ensures AllWordChars(r[..|r| - 5]) && r[..|r| - 5] != ""
    ensures title.None? || title.value == "" ==> r == "bid_analysis.json"
    ensures r[..|r| - 5] == TitleFileStem(title, JsonFallbackStem)
  {
    assert AllWordChars(JsonFallbackStem);
    TitleFileStem(title, JsonFallbackStem) + ".json"
  }

  /** The five state cells of the app. */
  class AppState {
    var bidText: string
    var uploadedFile: Option<Upload>
    var analysisResult: Option<BidAnalysis>
    var isLoading: bool
    var error: Option<string>

    /** Pasted text and an uploaded file are never both present. */
    predicate Exclusive()
      reads this
      ensures Exclusive() <==> (bidText != "" ==> uploadedFile.None?) && (uploadedFile.Some? ==> bidText == "")
    {
      !(bidText != "" && uploadedFile.Some?)
    }

    /** The initial state: no text, no file, no result, not loading, no error. */
    constructor ()
      ensures bidText == "" && uploadedFile.None? && analysisResult.None? && !isLoading && error.None?
      ensures Exclusive()
    {
      bidText := "";
      uploadedFile := None;
      analysisResult := None;
      isLoading := false;
      error := None;
    }

    /** `handleSetBidText`: stores the text; non-empty text removes the uploaded file. */
    method SetBidText(text: string)
      modifies this
      ensures bidText == text
      ensures uploadedFile == if text != "" then None else old(uploadedFile)
      ensures analysisResult == old(analysisResult) && isLoading == old(isLoading) && error == old(error)
      ensures Exclusive()
    {
      bidText := text;
      if text != "" {
        uploadedFile := None;
      }
    }

    /** `handleFileUpload`: stores the file and clears the text. */
    method HandleFileUpload(file: Upload)
      modifies this
      ensures uploadedFile == Some(file) && bidText == ""
      ensures analysisResult == old(analysisResult) && isLoading == old(isLoading) && error == old(error)
      ensures Exclusive()
    {
      uploadedFile := Some(file);
      bidText := "";
    }

    /** `clearUploadedFile`: removes the file and changes nothing else. */
    method ClearUploadedFile()
      modifies this
      ensures uploadedFile.None?
      ensures bidText == old(bidText) && analysisResult == old(analysisResult)
      ensures isLoading == old(isLoading) && error == old(error)
      ensures Exclusive()
    {
      uploadedFile := None;
    }

    /** The start of `handleAnalyze`: loading, with the error and any previous result
        cleared. */
    method StartAnalysis()
      modifies this
      ensures isLoading && error.None? && analysisResult.None?
      ensures bidText == old(bidText) && uploadedFile == old(uploadedFile)
    {
      isLoading := true;
      error := None;
      analysisResult := None;
    }

    /** The end of `handleAnalyze`: the outcome becomes the result or the error, and
        loading stops. */
    method FinishAnalysis(outcome: Result<BidAnalysis>)
      modifies this
      ensures !isLoading
      ensures outcome.Ok? ==> analysisResult == Some(outcome.value) && error == old(error)
      ensures outcome.Err? ==> error == Some(outcome.message) && analysisResult == old(analysisResult)
      ensures bidText == old(bidText) && uploadedFile == old(uploadedFile)
    {
      match outcome {
        case Ok(analysis) =>
          analysisResult := Some(analysis);
        case Err(message) =>
          error := Some(message);
      }
      isLoading := false;
    }

    /** `handleAnalyze`: one whole analysis cycle. Afterwards loading has stopped, exactly
        one of result and error is set, to the cycle's outcome, and the inputs are as they
        were. A previous result is discarded even when the cycle fails. */
    method HandleAnalyze(apiKey: Option<string>, basePrompt: string,
                         reply: Contents -> Result<string>, parse: string -> Option<BidAnalysis>)
      modifies this
      ensures !isLoading
      ensures analysisResult.Some? != error.Some?
      ensures var outcome := AnalysisOutcome(old(bidText), old(uploadedFile), apiKey, basePrompt, reply, parse);
        && (outcome.Ok? ==> analysisResult == Some(outcome.value))
        && (outcome.Err? ==> error == Some(outcome.message))
      ensures bidText == old(bidText) && uploadedFile == old(uploadedFile)
      ensures old(Exclusive()) ==> Exclusive()
    {
      StartAnalysis();
      var outcome: Result<BidAnalysis>;
      if NothingToAnalyze(bidText, uploadedFile) {
        outcome := Err(NothingToAnalyzeError);
      } else {
        outcome := AnalyzeBid(ContentFor(bidText, uploadedFile), apiKey, basePrompt, reply, parse);
      }
      FinishAnalysis(outcome);
    }

    /** `handleDownloadJson`: nothing without a result; otherwise the name the export is
        saved under. The state is not changed. */
    method HandleDownloadJson() returns (fileName: Option<string>)
      ensures fileName.None? <==> analysisResult.None?
      ensures fileName.Some? ==> fileName.value == JsonFileName(analysisResult.value.solicitationDetails.title)
    {
      if analysisResult.None? {
        fileName := None;
      } else {
        fileName := Some(JsonFileName(analysisResult.value.solicitationDetails.title));
      }
    }
  }

  /** Empty text with no file ends the cycle with the app's own message, whatever the key
      and the service would do. */
  lemma EmptyInputMessage(bidText: string, apiKey: Option<string>, basePrompt: string,
                          reply: Contents -> Result<string>, parse: string -> Option<BidAnalysis>)
    requires AllWhitespace(bidText)
    ensures AnalysisOutcome(bidText, None, apiKey, basePrompt, reply, parse) == Err(NothingToAnalyzeError)
  {
    TrimEmptyIff(bidText);
  }
}
