/** The claims-to-MRF transform (backend/utils/mrfGenerator.js): one
    machine-readable-file document per submission, with one network group
    holding one negotiated-rate entry per claim and one provider reference
    per claim. */
module MrfGenerator {
  import opened Results
  import opened ClaimSchema
  import JsText

  /** Placeholder identifiers used when a claim has no tax id. */
  const SentinelNpi := "0000000000"
  const SentinelEin := "00-0000000"

  datatype TinRef = TinRef(kind: string, value: string)

  datatype ProviderGroup = ProviderGroup(npi: seq<string>, tin: TinRef)

  datatype NegotiatedPrice = NegotiatedPrice(
    negotiatedType: string,
    negotiatedRate: real,
    expirationDate: string,
    serviceCode: seq<string>,
    billingClass: string)

  datatype RateEntry = RateEntry(
    providerGroups: seq<ProviderGroup>,
    providerReferences: seq<string>,
    negotiatedPrices: seq<NegotiatedPrice>)

  datatype NetworkGroup = NetworkGroup(
    negotiationArrangement: string,
    name: string,
    billingCodeType: string,
    billingCodeTypeVersion: string,
    billingCode: string,
    description: string,
    negotiatedRates: seq<RateEntry>)

  datatype Address = Address(kind: string, address: string, city: string, state: string, zip: string)

  datatype ProviderReference = ProviderReference(
    providerGroupId: nat,
    providerName: string,
    providerAddress: Address)

  /** The document, one field per key of the generated JSON object. */
  datatype Document = Document(
    reportingEntityName: string,
    reportingEntityType: string,
    planName: string,
    planIdType: string,
    planId: string,
    planMarketType: string,
    lastUpdatedOn: string,
    version: string,
    inNetwork: seq<NetworkGroup>,
    providerReferences: seq<ProviderReference>)

  /** The placeholder address every provider reference carries. */
  const PlaceholderAddress := Address("billing", "Address not provided", "City not provided",
                                      "State not provided", "00000")

  /** JavaScript truthiness of the optional tax id: absent and the empty
      string are both falsy. */
  predicate HasTin(c: Claim) {
    c.providerTin.Some? && c.providerTin.value != ""
  }

  /** `claim.provider_tin || fallback`. */
  function TinOr(c: Claim, fallback: string): string {
    if HasTin(c) then c.providerTin.value else fallback
  }

  /** The rate entry of one claim. */
  function RateOf(c: Claim): RateEntry {
    RateEntry(
      [ProviderGroup([TinOr(c, SentinelNpi)], TinRef("ein", TinOr(c, SentinelEin)))],
      [c.providerName],
      [NegotiatedPrice("negotiated", c.allowedAmount, "2024-12-31", [c.procedureCode], c.billingClass)])
  }

  /** The provider reference of the claim at position `index`. */
  function ReferenceOf(c: Claim, index: nat): ProviderReference {
    ProviderReference(index, c.providerName, PlaceholderAddress)
  }

  /** `plan_id`: the customer with every whitespace character deleted,
      followed by "_2024". */
  function PlanId(customer: string): (r: string)
    ensures JsText.NoWhitespace(r)
  {
    JsText.RemoveWhitespace(customer) + "_2024"
  }

  /** `generateMRFFile(claims, customer)`, with `today` the calendar-date part
      of the clock reading it takes. The `Set` the source wraps around the
      provider references holds freshly built objects, all distinct by
      identity, so it removes nothing and the list is kept as is. */
  function GenerateMrfFile(claims: seq<Claim>, customer: string, today: string): (d: Document)
    ensures |d.inNetwork| == 1
    ensures |d.inNetwork[0].negotiatedRates| == |claims|
    ensures |d.providerReferences| == |claims|
    ensures forall i :: 0 <= i < |claims| ==>
      d.providerReferences[i].providerGroupId == i
      && d.providerReferences[i].providerName == claims[i].providerName
    ensures JsText.NoWhitespace(d.planId)
  {
    Document(
      customer,
      "health_plan",
      customer + " Health Plan",
      "hios",
      PlanId(customer),
      "individual",
      today,
      "1.0.0",
      [NetworkGroup(
        "ffs",
        customer + " Network",
        "CPT",
        "2024",
        "BUNDLE",
        "Bundled Healthcare Services",
        seq(|claims|, i requires 0 <= i < |claims| => RateOf(claims[i])))],
      seq(|claims|, i requires 0 <= i < |claims| => ReferenceOf(claims[i], i)))
  }

  // ---------------------------------------------------------------------------
  // Reading a document back

  /** What a rate entry records about its claim. The tax id is `None` when
      the claim had none. */
  datatype ClaimView = ClaimView(
    providerName: string,
    providerTin: Option<string>,
    procedureCode: string,
    allowedAmount: real,
    billingClass: string)

  /** The view of a claim as the transform should record it. */
  function ViewOf(c: Claim): ClaimView {
    ClaimView(c.providerName, if HasTin(c) then Some(c.providerTin.value) else None,
              c.procedureCode, c.allowedAmount, c.billingClass)
  }

  /** Reads one rate entry back. A real tax id is written to both the npi
      list and the ein value; the placeholders differ from each other, so
      unequal values mean "no tax id". */
  function ReadRate(r: RateEntry): ClaimView {
    var name := if |r.providerReferences| > 0 then r.providerReferences[0] else "";
    var tin :=
      if |r.providerGroups| > 0 && |r.providerGroups[0].npi| > 0
         && r.providerGroups[0].npi[0] == r.providerGroups[0].tin.value
      then Some(r.providerGroups[0].tin.value) else None;
    if |r.negotiatedPrices| > 0 && |r.negotiatedPrices[0].serviceCode| > 0 then
      var p := r.negotiatedPrices[0];
      ClaimView(name, tin, p.serviceCode[0], p.negotiatedRate, p.billingClass)
    else
      ClaimView(name, tin, "", 0.0, "")
  }

  /** Reads every rate entry of the document's first network group back. */
  function ReadBack(d: Document): seq<ClaimView> {
    if |d.inNetwork| == 0 then []
    else
      var rates := d.inNetwork[0].negotiatedRates;
      seq(|rates|, i requires 0 <= i < |rates| => ReadRate(rates[i]))
  }

  /** The document records every claim: reading its rates back yields, in
      order, each claim's provider, tax id (or its absence), procedure code,
      allowed amount and billing class. */
  lemma ReadBackRoundTrip(claims: seq<Claim>, customer: string, today: string)
    ensures ReadBack(GenerateMrfFile(claims, customer, today))
         == seq(|claims|, i requires 0 <= i < |claims| => ViewOf(claims[i]))
  {
    var d := GenerateMrfFile(claims, customer, today);
    var got := ReadBack(d);
    var want := seq(|claims|, i requires 0 <= i < |claims| => ViewOf(claims[i]));
    forall i | 0 <= i < |claims|
      ensures got[i] == want[i]
    {
      assert d.inNetwork[0].negotiatedRates[i] == RateOf(claims[i]);
    }
  }

  /** Rate entry `i` is built from claim `i`: its rate is the allowed amount,
      its service code the procedure code, its billing class and provider
      name are copied, and its price type and expiration date are fixed. */
  lemma RateEntryFromClaim(claims: seq<Claim>, customer: string, today: string, i: nat)
    requires i < |claims|
    ensures var r := GenerateMrfFile(claims, customer, today).inNetwork[0].negotiatedRates[i];
      && r.providerReferences == [claims[i].providerName]
      && |r.negotiatedPrices| == 1
      && r.negotiatedPrices[0].negotiatedRate == claims[i].allowedAmount
      && r.negotiatedPrices[0].serviceCode == [claims[i].procedureCode]
      && r.negotiatedPrices[0].billingClass == claims[i].billingClass
      && r.negotiatedPrices[0].negotiatedType == "negotiated"
      && r.negotiatedPrices[0].expirationDate == "2024-12-31"
  {
  }

  /** A claim without a (truthy) tax id gets both placeholders; a claim with
      one has it as both npi and ein. */
  lemma TinSentinels(claims: seq<Claim>, customer: string, today: string, i: nat)
    requires i < |claims|
    ensures var g := GenerateMrfFile(claims, customer, today).inNetwork[0].negotiatedRates[i].providerGroups;
      && |g| == 1
      && (!HasTin(claims[i]) ==> g[0].npi == [SentinelNpi] && g[0].tin == TinRef("ein", SentinelEin))
      && (HasTin(claims[i]) ==>
            g[0].npi == [claims[i].providerTin.value]
            && g[0].tin == TinRef("ein", claims[i].providerTin.value))
  {
  }

  /** Claims sharing a provider name still get one provider reference each,
      told apart by their positions. */
  lemma DuplicateProvidersKept(claims: seq<Claim>, customer: string, today: string, i: nat, j: nat)
    requires i < j < |claims|
    requires claims[i].providerName == claims[j].providerName
    ensures var refs := GenerateMrfFile(claims, customer, today).providerReferences;
      && refs[i].providerName == refs[j].providerName
      && refs[i] != refs[j]
  {
  }

  /** The names the document derives from the customer. */
  lemma CustomerDerivedNames(claims: seq<Claim>, customer: string, today: string)
    ensures var d := GenerateMrfFile(claims, customer, today);
      && d.reportingEntityName == customer
      && d.planName == customer + " Health Plan"
      && d.inNetwork[0].name == customer + " Network"
      && d.planId == JsText.Join(JsText.Words(customer), "") + "_2024"
      && d.lastUpdatedOn == today
  {
    JsText.RemoveWhitespaceIsConcat(customer);
  }

  /** The fixed fields do not depend on the input. */
  lemma FixedFields(claims1: seq<Claim>, customer1: string, today1: string,
                    claims2: seq<Claim>, customer2: string, today2: string)
    ensures var d1 := GenerateMrfFile(claims1, customer1, today1);
      var d2 := GenerateMrfFile(claims2, customer2, today2);
      && d1.reportingEntityType == d2.reportingEntityType == "health_plan"
      && d1.planIdType == d2.planIdType == "hios"
      && d1.planMarketType == d2.planMarketType == "individual"
      && d1.version == d2.version == "1.0.0"
      && d1.inNetwork[0].negotiationArrangement == d2.inNetwork[0].negotiationArrangement
      && d1.inNetwork[0].billingCodeType == d2.inNetwork[0].billingCodeType == "CPT"
      && d1.inNetwork[0].billingCodeTypeVersion == d2.inNetwork[0].billingCodeTypeVersion
      && d1.inNetwork[0].billingCode == d2.inNetwork[0].billingCode == "BUNDLE"
      && d1.inNetwork[0].description == d2.inNetwork[0].description
      && (forall i :: 0 <= i < |d1.providerReferences| ==>
            d1.providerReferences[i].providerAddress == PlaceholderAddress)
  {
  }
}
