/** The claim record and the row check the front end applies to every CSV
    record: the amount coercion of the upload service followed by the
    declarative claim schema (frontend/src/stores/MRFStore.ts and
    frontend/src/services/csvService.ts). */
module ClaimSchema {
  import opened Results

  /** One CSV record as the parser hands it over: normalised header to cell
      text. A key is absent when the record has fewer cells than the header
      row. */
  type Row = map<string, string>

  /** What `parseFloat` returns: not-a-number, or a number (its floating-point
      rounding is not modelled). */
  datatype Number = NaN | Num(value: real)

  /** A validated claim, one field per schema key. */
  datatype Claim = Claim(
    providerName: string,
    providerTin: Option<string>,
    procedureCode: string,
    procedureDescription: string,
    placeOfService: string,
    billingClass: string,
    allowedAmount: real,
    billedAmount: real,
    serviceDate: string)

  /** The schema's keys, in declaration order. */
  datatype Field =
    | ProviderName | ProviderTin | ProcedureCode | ProcedureDescription
    | PlaceOfService | BillingClass | AllowedAmount | BilledAmount | ServiceDate

  /** The six fields declared as non-empty strings. */
  predicate IsRequiredText(f: Field) {
    !(f.ProviderTin? || f.AllowedAmount? || f.BilledAmount?)
  }

  function Key(f: Field): string {
    match f
    case ProviderName => "provider_name"
    case ProviderTin => "provider_tin"
    case ProcedureCode => "procedure_code"
    case ProcedureDescription => "procedure_description"
    case PlaceOfService => "place_of_service"
    case BillingClass => "billing_class"
    case AllowedAmount => "allowed_amount"
    case BilledAmount => "billed_amount"
    case ServiceDate => "service_date"
  }

  /** One violated constraint, as the schema library reports it. */
  datatype Issue =
    | Required(field: Field)      // a string field is absent
    | TooShort(field: Field)      // a string field is the empty string
    | NotANumber(field: Field)    // an amount coerced to NaN
    | NotPositive(field: Field)   // an amount coerced to a number <= 0

  /** The text of an issue: the schema's own message for the two refinements
      it declares, the library's default message for the two type errors. */
  function Message(i: Issue): string {
    match i
    case Required(_) => "Required"
    case NotANumber(_) => "Expected number, received nan"
    case TooShort(f) => RequiredTextMessage(f)
    case NotPositive(f) => PositiveMessage(f)
  }

  /** The message declared with `min(1)` on each string field; the library's
      default for any other field. */
  function RequiredTextMessage(f: Field): string {
    match f
    case ProviderName => "Provider name is required"
    case ProcedureCode => "Procedure code is required"
    case ProcedureDescription => "Procedure description is required"
    case PlaceOfService => "Place of service is required"
    case BillingClass => "Billing class is required"
    case ServiceDate => "Service date is required"
    case _ => "String must contain at least 1 character(s)"
  }

  /** The message declared with `positive()` on each amount; the library's
      default for any other field. */
  function PositiveMessage(f: Field): string {
    match f
    case AllowedAmount => "Allowed amount must be positive"
    case BilledAmount => "Billed amount must be positive"
    case _ => "Number must be greater than 0"
  }

  /** The amount coercion `parseFloat(row[key] || '0')`: an absent or empty
      cell falls back to the text "0", which parses to zero. */
  function Coerce(row: Row, f: Field, parseNum: string -> Number): (n: Number)
    ensures Key(f) !in row ==> n == Num(0.0)
    ensures Key(f) in row && row[Key(f)] == "" ==> n == Num(0.0)
    ensures Key(f) in row && row[Key(f)] != "" ==> n == parseNum(row[Key(f)])
  {
    if Key(f) in row && row[Key(f)] != "" then parseNum(row[Key(f)]) else Num(0.0)
  }

  /** The issues of one required non-empty string field. */
  function TextIssues(row: Row, f: Field): seq<Issue> {
    if Key(f) !in row then [Required(f)]
    else if row[Key(f)] == "" then [TooShort(f)]
    else []
  }

  /** The issues of one coerced amount field. */
  function AmountIssues(n: Number, f: Field): seq<Issue> {
    match n
    case NaN => [NotANumber(f)]
    case Num(v) => if v > 0.0 then [] else [NotPositive(f)]
  }

  /** Every issue of the coerced row, in the schema's key order. The optional
      `provider_tin` never contributes one: a CSV cell is always a string. */
  function Issues(row: Row, parseNum: string -> Number): seq<Issue> {
    TextIssues(row, ProviderName)
    + TextIssues(row, ProcedureCode)
    + TextIssues(row, ProcedureDescription)
    + TextIssues(row, PlaceOfService)
    + TextIssues(row, BillingClass)
    + AmountIssues(Coerce(row, AllowedAmount, parseNum), AllowedAmount)
    + AmountIssues(Coerce(row, BilledAmount, parseNum), BilledAmount)
    + TextIssues(row, ServiceDate)
  }

  /** The claim constraints stated directly on a row: the six text fields are
      present and non-empty, and both coerced amounts are positive numbers. */
  predicate Acceptable(row: Row, parseNum: string -> Number) {
    && (forall f :: IsRequiredText(f) ==> Key(f) in row && |row[Key(f)]| > 0)
    && Coerce(row, AllowedAmount, parseNum).Num?
    && Coerce(row, AllowedAmount, parseNum).value > 0.0
    && Coerce(row, BilledAmount, parseNum).Num?
    && Coerce(row, BilledAmount, parseNum).value > 0.0
  }

  function OptionalText(row: Row, f: Field): Option<string> {
    if Key(f) in row then Some(row[Key(f)]) else None
  }

  /** The coercion and schema check of one row: the claim it denotes, or the
      issues it has. */
  function ValidateRow(row: Row, parseNum: string -> Number): (r: Result<Claim, seq<Issue>>)
    ensures r.Ok? <==> Acceptable(row, parseNum)
    ensures r.Err? ==> r.error == Issues(row, parseNum) && r.error != []
    ensures r.Ok? ==>
      && r.value.providerName == row[Key(ProviderName)]
      && r.value.providerTin == OptionalText(row, ProviderTin)
      && r.value.procedureCode == row[Key(ProcedureCode)]
      && r.value.procedureDescription == row[Key(ProcedureDescription)]
      && r.value.placeOfService == row[Key(PlaceOfService)]
      && r.value.billingClass == row[Key(BillingClass)]
      && r.value.serviceDate == row[Key(ServiceDate)]
      && r.value.allowedAmount == Coerce(row, AllowedAmount, parseNum).value
      && r.value.billedAmount == Coerce(row, BilledAmount, parseNum).value
  {
    var issues := Issues(row, parseNum);
    if issues != [] then Err(issues)
    else
      Ok(Claim(
        row[Key(ProviderName)],
        OptionalText(row, ProviderTin),
        row[Key(ProcedureCode)],
        row[Key(ProcedureDescription)],
        row[Key(PlaceOfService)],
        row[Key(BillingClass)],
        Coerce(row, AllowedAmount, parseNum).value,
        Coerce(row, BilledAmount, parseNum).value,
        row[Key(ServiceDate)]))
  }

  /** The invariant of a validated claim (the schema's constraints on its
      output type). */
  predicate ValidClaim(c: Claim) {
    && c.providerName != "" && c.procedureCode != "" && c.procedureDescription != ""
    && c.placeOfService != "" && c.billingClass != "" && c.serviceDate != ""
    && c.allowedAmount > 0.0 && c.billedAmount > 0.0
  }

  /** Every accepted row yields a claim that satisfies the invariant. */
  lemma AcceptedClaimIsValid(row: Row, parseNum: string -> Number)
    requires ValidateRow(row, parseNum).Ok?
    ensures ValidClaim(ValidateRow(row, parseNum).value)
  {
    assert IsRequiredText(ProviderName) && IsRequiredText(ProcedureCode);
    assert IsRequiredText(ProcedureDescription) && IsRequiredText(PlaceOfService);
    assert IsRequiredText(BillingClass) && IsRequiredText(ServiceDate);
  }

  /** A missing or empty amount coerces to zero, so the row is rejected with
      the "must be positive" issue for that amount. */
  lemma MissingAmountRejected(row: Row, parseNum: string -> Number, f: Field)
    requires f == AllowedAmount || f == BilledAmount
    requires Key(f) !in row || row[Key(f)] == ""
    ensures ValidateRow(row, parseNum).Err?
    ensures NotPositive(f) in ValidateRow(row, parseNum).error
  {
  }
}
