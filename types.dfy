/** The `BidAnalysis` record that the extraction service returns, with its nested sections.
    A TypeScript `T | null` field is an `Option<T>`; a `T[]` field is a `seq<T>`, never null
    but possibly empty; a field without `| null` is a plain value. */
module Types {
  import opened Wrappers

  datatype SolicitationDetails = SolicitationDetails(
    title: Option<string>,
    agency: Option<string>,
    summary: Option<string>)

  /** The relevance verdict: both fields are always present. */
  datatype RelevanceAnalysis = RelevanceAnalysis(isRelevant: bool, reason: string)

  /** A line item's quantity is either text ("As needed") or a number. Numbers are modelled
      as integers. */
  datatype Quantity = QuantityText(text: string) | QuantityNumber(number: int)

  /** One requested item: the name is always present, every other detail may be null. */
  datatype LineItem = LineItem(
    name: string,
    quantity: Option<Quantity>,
    description: Option<string>,
    partNumber: Option<string>)

  /** The three product-fit classifications. */
  datatype ProductFitType = BrandNameOrEqual | SpecificBrand | Unspecified

  /** `isCarriedBrand` is tri-state: `Some(true)`, `Some(false)` or `None` for null. */
  datatype ProductFit = ProductFit(
    kind: ProductFitType,
    details: string,
    isCarriedBrand: Option<bool>)

  datatype KeyRequirements = KeyRequirements(
    eligibility: seq<string>,
    objectives: seq<string>,
    lineItems: seq<LineItem>,
    productFit: ProductFit)

  datatype SubmissionInstructions = SubmissionInstructions(
    deadline: Option<string>,
    formattingAndDelivery: seq<string>)

  datatype Financials = Financials(
    budgetRange: Option<string>,
    contractTerm: Option<string>)

  datatype ContactAndCompliance = ContactAndCompliance(
    pointOfContact: Option<string>,
    complianceRequirements: seq<string>)

  /** The whole analysis; `flagsForHumanReview` is the JSON field `flags_for_human_review`. */
  datatype BidAnalysis = BidAnalysis(
    solicitationDetails: SolicitationDetails,
    relevanceAnalysis: RelevanceAnalysis,
    keyRequirements: KeyRequirements,
    submissionInstructions: SubmissionInstructions,
    financials: Financials,
    contactAndCompliance: ContactAndCompliance,
    flagsForHumanReview: seq<string>)

  /** The string that stands for a product-fit type in the JSON response. */
  function ProductFitTypeName(t: ProductFitType): (r: string)
    ensures r in {"brand_name_or_equal", "specific_brand", "unspecified"}
  {
    match t
    case BrandNameOrEqual => "brand_name_or_equal"
    case SpecificBrand => "specific_brand"
    case Unspecified => "unspecified"
  }

  /** Reads a product-fit type back from its JSON string; any other string is not one. */
  function ProductFitTypeFromName(s: string): (r: Option<ProductFitType>)
    ensures r.Some? <==> s in {"brand_name_or_equal", "specific_brand", "unspecified"}
  {
    if s == "brand_name_or_equal" then Some(BrandNameOrEqual)
    else if s == "specific_brand" then Some(SpecificBrand)
    else if s == "unspecified" then Some(Unspecified)
    else None
  }

  /** Each type has its own name, and reading the name back gives the type. */
  lemma ProductFitTypeNameRoundTrip(t: ProductFitType, s: string)
    ensures ProductFitTypeFromName(ProductFitTypeName(t)) == Some(t)
    ensures ProductFitTypeFromName(s).Some? ==> ProductFitTypeName(ProductFitTypeFromName(s).value) == s
  {
  }
}
