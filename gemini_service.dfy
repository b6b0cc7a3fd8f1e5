/** `analyzeBid`: the guards on its input, the request it builds for the model, the response
    schema it sends along, and the handling of the reply. The model call and `JSON.parse` are
    not modelled: they are passed in as the functions `reply` and `parse`. */
module GeminiService {
  import opened Wrappers
  import opened JsText
  import opened Types

  // ---------------------------------------------------------------------------------------
  // Input and request shapes
  // ---------------------------------------------------------------------------------------

  /** A file handed to the model as base64 data with its MIME type. */
  datatype InlineFile = InlineFile(mimeType: string, data: string)

  /** The argument of `analyzeBid`: pasted text and an uploaded file, each optional. */
  datatype Content = Content(text: Option<string>, file: Option<InlineFile>)

  /** A part of a multi-part request. */
  datatype Part = TextPart(text: string) | InlineDataPart(inlineData: InlineFile)

  /** The `contents` of the request: one prompt string, or a list of parts. */
  datatype Contents = PromptText(text: string) | Parts(parts: seq<Part>)

  const EmptyInputError := "Bid text or file cannot be empty."
  const MissingKeyError := "API key is not configured."
  const NoContentError := "No content provided to analyze."
  const InvalidStructureError := "The AI returned an invalid data structure. Please try again."

  const BidTextOpening := "\n\n--- BID TEXT ---\n"
  const BidTextClosing := "\n--- END BID TEXT ---"

  /** JavaScript truthiness of an optional string: present and not empty. */
  predicate Truthy(s: Option<string>)
    ensures Truthy(s) <==> s.Some? && |s.value| > 0
  {
    s.Some? && s.value != ""
  }

  /** The first guard: no file, and text that is absent or trims to nothing, that is, text
      made of white space alone. */
  predicate IsEmptyContent(c: Content)
    ensures IsEmptyContent(c) <==> c.file.None? && (c.text.None? || AllWhitespace(c.text.value))
  {
    (c.text.None? || (TrimEmptyIff(c.text.value); Trim(c.text.value) == "")) && c.file.None?
  }

  /** The text-shaped request: the prompt, then the bid text between two marker lines. */
  function TextPrompt(basePrompt: string, text: string): (r: string)
    ensures |r| == |basePrompt| + |BidTextOpening| + |text| + |BidTextClosing|
    ensures r[..|basePrompt|] == basePrompt
    ensures r[|basePrompt|..|basePrompt| + |BidTextOpening|] == BidTextOpening
    ensures r[|r| - |BidTextClosing|..] == BidTextClosing
  {
    basePrompt + BidTextOpening + text + BidTextClosing
  }

  /** The bid text carried by a text-shaped request built from `basePrompt`. */
  function BidTextOf(basePrompt: string, prompt: string): string
    requires |basePrompt| + |BidTextOpening| + |BidTextClosing| <= |prompt|
  {
    prompt[|basePrompt| + |BidTextOpening|..|prompt| - |BidTextClosing|]
  }

  /** The text is embedded verbatim, untrimmed, and can be read back from the request. */
  lemma TextPromptRoundTrip(basePrompt: string, text: string)
    ensures BidTextOf(basePrompt, TextPrompt(basePrompt, text)) == text
  {
    var r := TextPrompt(basePrompt, text);
    assert r == (basePrompt + BidTextOpening) + text + BidTextClosing;
  }

  /** The guards and the choice of request shape. `apiKey` is the configured key, absent or
      empty when none is set; `basePrompt` is the fixed instruction text. The final branch
      cannot be reached, since the first guard has already rejected every content with
      neither text nor file. */
  function PrepareRequest(c: Content, apiKey: Option<string>, basePrompt: string): (r: Result<Contents>)
    ensures IsEmptyContent(c) ==> r == Err(EmptyInputError)
    ensures !IsEmptyContent(c) && !Truthy(apiKey) ==> r == Err(MissingKeyError)
    ensures r.Ok? <==> !IsEmptyContent(c) && Truthy(apiKey)
    ensures r.Err? ==> r.message == EmptyInputError || r.message == MissingKeyError
  {
    if IsEmptyContent(c) then Err(EmptyInputError)
    else if !Truthy(apiKey) then Err(MissingKeyError)
    else if Truthy(c.text) then Ok(PromptText(TextPrompt(basePrompt, c.text.value)))
    else if c.file.Some? then Ok(Parts([TextPart(basePrompt), InlineDataPart(c.file.value)]))
    else assert false; Err(NoContentError)
  }

  /** The emptiness guard runs before the key guard: empty content is reported as such
      whatever the key. */
  lemma EmptyCheckedBeforeKey(c: Content, basePrompt: string)
    requires IsEmptyContent(c)
    ensures PrepareRequest(c, None, basePrompt) == Err(EmptyInputError)
    ensures PrepareRequest(c, Some(""), basePrompt) == Err(EmptyInputError)
  {
  }

  /** Any non-empty text selects the text shape and the file is ignored, even when the text
      is only whitespace. */
  lemma NonEmptyTextWins(text: string, file: Option<InlineFile>, apiKey: string, basePrompt: string)
    requires text != "" && apiKey != ""
    requires !AllWhitespace(text) || file.Some?
    ensures PrepareRequest(Content(Some(text), file), Some(apiKey), basePrompt)
         == Ok(PromptText(TextPrompt(basePrompt, text)))
  {
    if AllWhitespace(text) {
      assert file.Some?;
    } else {
      TrimEmptyIff(text);
    }
  }

  /** Whitespace-only text with no file is rejected as empty. */
  lemma WhitespaceTextIsEmpty(text: string, apiKey: Option<string>, basePrompt: string)
    requires AllWhitespace(text)
    ensures PrepareRequest(Content(Some(text), None), apiKey, basePrompt) == Err(EmptyInputError)
  {
    TrimEmptyIff(text);
  }

  /** Without text, a file gives a two-part request: the prompt, then the file's MIME type
      and data exactly as given. */
  lemma FileRequestCarriesFile(text: Option<string>, file: InlineFile, apiKey: string, basePrompt: string)
    requires text.None? || text.value == ""
    requires apiKey != ""
    ensures var r := PrepareRequest(Content(text, Some(file)), Some(apiKey), basePrompt);
      && r.Ok? && r.value.Parts? && |r.value.parts| == 2
      && r.value.parts[0] == TextPart(basePrompt)
      && r.value.parts[1].InlineDataPart?
      && r.value.parts[1].inlineData.mimeType == file.mimeType
      && r.value.parts[1].inlineData.data == file.data
  {
  }

  /** A text-shaped request is built exactly from truthy text, and then carries that text. */
  lemma {:induction false} TextShapeCarriesText(c: Content, apiKey: Option<string>, basePrompt: string)
    requires PrepareRequest(c, apiKey, basePrompt).Ok?
    ensures PrepareRequest(c, apiKey, basePrompt).value.PromptText? <==> Truthy(c.text)
    ensures PrepareRequest(c, apiKey, basePrompt).value.PromptText? ==>
      var p := PrepareRequest(c, apiKey, basePrompt).value.text;
      |basePrompt| + |BidTextOpening| + |BidTextClosing| <= |p| && BidTextOf(basePrompt, p) == c.text.value
  {
    if Truthy(c.text) {
      TextPromptRoundTrip(basePrompt, c.text.value);
    }
  }

  // ---------------------------------------------------------------------------------------
  // Reply handling
  // ---------------------------------------------------------------------------------------

  /** The reply text is trimmed and parsed; a parse failure becomes the invalid-structure
      error, and a parsed value is returned unchecked. */
  function HandleResponse(replyText: string, parse: string -> Option<BidAnalysis>): (r: Result<BidAnalysis>)
    ensures r.Ok? <==> parse(Trim(replyText)).Some?
    ensures r.Ok? ==> parse(Trim(replyText)) == Some(r.value)
    ensures r.Err? ==> r.message == InvalidStructureError
  {
    match parse(Trim(replyText))
    case Some(analysis) => Ok(analysis)
    case None => Err(InvalidStructureError)
  }

  /** Whitespace around the reply does not change the outcome. */
  lemma ReplyPaddingIgnored(p: string, replyText: string, q: string, parse: string -> Option<BidAnalysis>)
    requires AllWhitespace(p) && AllWhitespace(q)
    ensures HandleResponse(p + replyText + q, parse) == HandleResponse(replyText, parse)
  {
    TrimPadding(p, replyText, q);
  }

  /** `analyzeBid`: the guards, the request, the model's reply (`reply`, which may fail with a
      message) and the parse of the reply. */
  function AnalyzeBid(c: Content, apiKey: Option<string>, basePrompt: string,
                      reply: Contents -> Result<string>, parse: string -> Option<BidAnalysis>): (r: Result<BidAnalysis>)
    ensures IsEmptyContent(c) ==> r == Err(EmptyInputError)
    ensures !IsEmptyContent(c) && !Truthy(apiKey) ==> r == Err(MissingKeyError)
    ensures r.Ok? ==>
      && PrepareRequest(c, apiKey, basePrompt).Ok?
      && reply(PrepareRequest(c, apiKey, basePrompt).value).Ok?
      && parse(Trim(reply(PrepareRequest(c, apiKey, basePrompt).value).value)) == Some(r.value)
    ensures r.Err? ==>
      || r.message == EmptyInputError || r.message == MissingKeyError || r.message == InvalidStructureError
      || (PrepareRequest(c, apiKey, basePrompt).Ok? && reply(PrepareRequest(c, apiKey, basePrompt).value) == Err(r.message))
    ensures PrepareRequest(c, apiKey, basePrompt).Err? ==> r == Err(PrepareRequest(c, apiKey, basePrompt).message)
    ensures PrepareRequest(c, apiKey, basePrompt).Ok? && reply(PrepareRequest(c, apiKey, basePrompt).value).Ok? ==>
      r == HandleResponse(reply(PrepareRequest(c, apiKey, basePrompt).value).value, parse)
    ensures PrepareRequest(c, apiKey, basePrompt).Ok? && reply(PrepareRequest(c, apiKey, basePrompt).value).Err? ==>
      r == Err(reply(PrepareRequest(c, apiKey, basePrompt).value).message)
  {
    match PrepareRequest(c, apiKey, basePrompt)
    case Err(m) => Err(m)
    case Ok(request) =>
      match reply(request)
      case Err(m) => Err(m)
      case Ok(replyText) => HandleResponse(replyText, parse)
  }

  // ---------------------------------------------------------------------------------------
  // Response schema
  // ---------------------------------------------------------------------------------------

  /** The subset of the response-schema language the service uses. */
  datatype Schema =
    | SObject(properties: seq<Property>, required: seq<string>)
    | SArray(items: Schema)
    | SString
    | SBoolean

  datatype Property = Property(name: string, schema: Schema)

  function Names(props: seq<Property>): (r: seq<string>)
    ensures |r| == |props|
    ensures forall i :: 0 <= i < |props| ==> r[i] == props[i].name
  {
    seq(|props|, i requires 0 <= i < |props| => props[i].name)
  }

  /** Every `required` list, at every depth, names only properties its object declares. */
  predicate RequiredDeclared(s: Schema)
    decreases s
  {
    match s
    case SObject(props, req) =>
      && (forall n :: n in req ==> n in Names(props))
      && forall i :: 0 <= i < |props| ==> RequiredDeclared(props[i].schema)
    case SArray(items) => RequiredDeclared(items)
    case SString => true
    case SBoolean => true
  }

  const StringList := SArray(SString)

  const SolicitationDetailsSchema := SObject(
    [Property("title", SString), Property("agency", SString), Property("summary", SString)],
    ["title", "agency", "summary"])

  const RelevanceAnalysisSchema := SObject(
    [Property("isRelevant", SBoolean), Property("reason", SString)],
    ["isRelevant", "reason"])

  const LineItemSchema := SObject(
    [Property("name", SString), Property("quantity", SString),
     Property("description", SString), Property("partNumber", SString)],
    ["name"])

  const ProductFitSchema := SObject(
    [Property("type", SString), Property("details", SString), Property("isCarriedBrand", SBoolean)],
    ["type", "details", "isCarriedBrand"])

  const KeyRequirementsSchema := SObject(
    [Property("eligibility", StringList), Property("objectives", StringList),
     Property("lineItems", SArray(LineItemSchema)), Property("productFit", ProductFitSchema)],
    ["eligibility", "objectives", "lineItems", "productFit"])

  const SubmissionInstructionsSchema := SObject(
    [Property("deadline", SString), Property("formattingAndDelivery", StringList)],
    ["deadline", "formattingAndDelivery"])

  const FinancialsSchema := SObject(
    [Property("budgetRange", SString), Property("contractTerm", SString)],
    ["budgetRange", "contractTerm"])

  const ContactAndComplianceSchema := SObject(
    [Property("pointOfContact", SString), Property("complianceRequirements", StringList)],
    ["pointOfContact", "complianceRequirements"])

  const SectionNames := ["solicitationDetails", "relevanceAnalysis", "keyRequirements",
    "submissionInstructions", "financials", "contactAndCompliance", "flags_for_human_review"]

  /** `bidAnalysisSchema`, the schema sent with every request. */
  const BidAnalysisSchema := SObject(
    [Property("solicitationDetails", SolicitationDetailsSchema),
     Property("relevanceAnalysis", RelevanceAnalysisSchema),
     Property("keyRequirements", KeyRequirementsSchema),
     Property("submissionInstructions", SubmissionInstructionsSchema),
     Property("financials", FinancialsSchema),
     Property("contactAndCompliance", ContactAndComplianceSchema),
     Property("flags_for_human_review", StringList)],
    SectionNames)

  /** An object whose `required` list is exactly its declared properties, in order, and
      whose properties are all leaves, satisfies `RequiredDeclared`. */
  lemma FlatObjectRequiredDeclared(props: seq<Property>, req: seq<string>)
    requires req == Names(props)
    requires forall i :: 0 <= i < |props| ==> props[i].schema in {SString, SBoolean, StringList}
    ensures RequiredDeclared(SObject(props, req))
  {
    forall i | 0 <= i < |props| ensures RequiredDeclared(props[i].schema) {
      if props[i].schema == StringList {
        assert RequiredDeclared(SString);
      }
    }
  }

  lemma LineItemSchemaRequiredDeclared()
    ensures RequiredDeclared(LineItemSchema)
  {
    assert Names(LineItemSchema.properties)[0] == "name";
  }

  lemma KeyRequirementsSchemaRequiredDeclared()
    ensures RequiredDeclared(KeyRequirementsSchema)
  {
    var props := KeyRequirementsSchema.properties;
    assert KeyRequirementsSchema.required == Names(props);
    LineItemSchemaRequiredDeclared();
    FlatObjectRequiredDeclared(ProductFitSchema.properties, ProductFitSchema.required);
    forall i | 0 <= i < |props| ensures RequiredDeclared(props[i].schema) {
      if i == 2 {
        assert props[i].schema == SArray(LineItemSchema);
      } else if i == 3 {
        assert props[i].schema == ProductFitSchema;
      }
    }
  }

  /** Every `required` list of the response schema, at every depth, names declared
      properties only. */
  lemma BidAnalysisSchemaRequiredDeclared()
    ensures RequiredDeclared(BidAnalysisSchema)
  {
    var props := BidAnalysisSchema.properties;
    assert BidAnalysisSchema.required == Names(props);
    FlatObjectRequiredDeclared(SolicitationDetailsSchema.properties, SolicitationDetailsSchema.required);
    FlatObjectRequiredDeclared(RelevanceAnalysisSchema.properties, RelevanceAnalysisSchema.required);
    KeyRequirementsSchemaRequiredDeclared();
    FlatObjectRequiredDeclared(SubmissionInstructionsSchema.properties, SubmissionInstructionsSchema.required);
    FlatObjectRequiredDeclared(FinancialsSchema.properties, FinancialsSchema.required);
    FlatObjectRequiredDeclared(ContactAndComplianceSchema.properties, ContactAndComplianceSchema.required);
    forall i | 0 <= i < |props| ensures RequiredDeclared(props[i].schema) {
      if i == 6 {
        assert RequiredDeclared(SString);
      }
    }
  }

  /** The top level declares the seven sections and requires all of them; a line item
      requires only its name. */
  lemma SchemaRequiredLists()
    ensures BidAnalysisSchema.required == Names(BidAnalysisSchema.properties) == SectionNames
    ensures |SectionNames| == 7
    ensures LineItemSchema.required == ["name"]
    ensures forall n :: n in Names(LineItemSchema.properties) && n != "name" ==> n !in LineItemSchema.required
  {
  }
}
