/**
 Which rates price a call (src/api_cost.rs), in terms of the texts of its model and tier
 and of the catalogue: every price of an exact request is spelled out.
 */
module PriceTiers {
  import opened Options
  import opened Saturating
  import opened Text
  import opened Tokens
  import opened Dataset
  import opened Pricing

  // ----- Trimming twice

  lemma {:induction false} TrimEndFacts(s: string)
    ensures TrimEnd(s) <= s
    ensures TrimEnd(s) == [] || !IsWhitespace(TrimEnd(s)[|TrimEnd(s)| - 1])
    ensures TrimEnd(TrimEnd(s)) == TrimEnd(s)
  {
    hide IsWhitespace;
    if s != [] && IsWhitespace(s[|s| - 1]) {
      TrimEndFacts(s[..|s| - 1]);
    }
  }

  lemma {:induction false} TrimStartFacts(s: string)
    ensures TrimStart(s) == [] || !IsWhitespace(TrimStart(s)[0])
  {
    hide IsWhitespace;
    if s != [] && IsWhitespace(s[0]) {
      TrimStartFacts(s[1..]);
    }
  }

  lemma TrimTwice(s: string)
    ensures Trim(Trim(s)) == Trim(s)
  {
    hide IsWhitespace;
    TrimStartFacts(s);
    TrimEndFacts(TrimStart(s));
    var t := Trim(s);
    assert t != [] ==> t[0] == TrimStart(s)[0];
    assert TrimStart(t) == t;
  }

  // ----- The texts

  /** The tier as it is compared: without blanks around it and in lower case; empty where there is none. */
  function TierText(tier: Option<string>): string {
    if tier.Some? then Lower(Trim(tier.value)) else ""
  }

  predicate OfAutoReview(model: Option<string>) {
    model.Some? && Lower(Trim(model.value)) == "codex-auto-review"
  }

  /** `default` and `standard`, or no tier at all for the automatic review. */
  predicate IsStandardText(model: Option<string>, tier: Option<string>) {
    || TierText(tier) == "default" || TierText(tier) == "standard"
    || (TierText(tier) == "" && OfAutoReview(model))
  }

  predicate IsFastText(tier: Option<string>) {
    TierText(tier) == "fast" || TierText(tier) == "priority"
  }

  lemma LowerConstants()
    ensures Lower("default") == "default" && Lower("standard") == "standard"
    ensures Lower("fast") == "fast" && Lower("priority") == "priority"
    ensures Lower("codex-auto-review") == "codex-auto-review" && Lower("") == ""
  {
  }

  lemma TierOfText(model: Option<string>, tier: Option<string>)
    ensures ServiceTierFor(model, tier) == Some(StandardTier) <==> IsStandardText(model, tier)
    ensures ServiceTierFor(model, tier) == Some(FastTier) <==> IsFastText(tier)
  {
    hide Trim, Lower;
    LowerConstants();
    if tier.Some? {
      TrimTwice(tier.value);
      assert Trim(tier.value) == "" <==> Lower(Trim(tier.value)) == "" by { LowerLength(Trim(tier.value)); }
    }
  }

  lemma LowerLength(s: string)
    ensures |Lower(s)| == |s|
  {
  }

  // ----- The price of an exact request

  /** The rates that the texts ask for. */
  function AskedRates(m: ModelRates, model: Option<string>, tier: Option<string>): Outcome<TierRates, Reason> {
    if IsStandardText(model, tier) then Success(m.standard)
    else if !IsFastText(tier) then Failure(ServiceTierUnknown)
    else if m.fast.None? then Failure(ServiceTierUnavailable)
    else Success(m.fast.value)
  }

  lemma RatesByText(catalog: Catalog, model: Option<string>, tier: Option<string>)
    ensures TierRatesFor(catalog, model, tier)
         == match catalog.apiRates(model)
            case None => Failure(ModelUnknown)
            case Some(m) => AskedRates(m, model, tier)
  {
    hide ServiceTierFor, TierText, OfAutoReview;
    TierOfText(model, tier);
    assert !(IsStandardText(model, tier) && IsFastText(tier));
  }

  /** The breakdown is there and adds up. */
  predicate Fits(t: TokenUsage) {
    && Unclassified(t) == 0
    && (t.total > 0 ==> t.total == Add64(t.input, t.output))
    && t.cachedInput + t.cacheWriteInput <= t.input
  }

  /** What the tokens cost at the given rates: four disjoint kinds, each at its own rate. */
  function ListPrice(t: TokenUsage, r: TokenRates): nat
    requires t.cachedInput + t.cacheWriteInput <= t.input
    requires t.cacheWriteInput == 0 || r.cacheWrite.Some?
  {
    Product(t.input - t.cachedInput - t.cacheWriteInput, r.input)
    + Product(t.cachedInput, r.cachedInput)
    + (if t.cacheWriteInput == 0 then 0 else Product(t.cacheWriteInput, r.cacheWrite.value))
    + Product(t.output, r.output)
  }

  lemma CostIsListPrice(t: TokenUsage, r: TokenRates)
    requires t.cachedInput + t.cacheWriteInput <= t.input
    requires t.cacheWriteInput == 0 || r.cacheWrite.Some?
    ensures Cost(AmountsOf(t), r) == ListPrice(t, r)
  {
    hide Times;
    TimesIsProduct(RegularInput(t), r.input);
    TimesIsProduct(t.cachedInput, r.cachedInput);
    TimesIsProduct(t.cacheWriteInput, WriteRate(r));
    TimesIsProduct(t.output, r.output);
  }

  /** The rates at which one request of that input is charged, or why it is not. */
  function RequestRates(catalog: Catalog, rates: TierRates, input: U64): Outcome<TokenRates, Reason> {
    if input <= catalog.longContextThreshold || rates.long.Flat? then Success(rates.short)
    else if rates.long.Published? then Success(rates.long.rates)
    else Failure(LongContextUnavailable)
  }

  predicate Charges(t: TokenUsage, r: TokenRates) {
    t.cacheWriteInput == 0 || r.cacheWrite.Some?
  }

  /** Not known to be one request, and above a threshold where other rates begin. */
  predicate MayBeLong(catalog: Catalog, call: UsageCall, rates: TierRates) {
    !call.requestExact && call.tokens.input > catalog.longContextThreshold && rates.long.Published?
  }

  predicate NotPriced(cost: CallCost, reason: Reason) {
    !cost.priced && cost.partialReason == Some(reason)
  }

  /** The capped list price at the rates of the request; between both list prices where it may be several. */
  ghost predicate PricedBetween(catalog: Catalog, call: UsageCall, rates: TierRates, r: TokenRates, cost: CallCost)
    requires Fits(call.tokens) && Charges(call.tokens, rates.short) && Charges(call.tokens, r)
  {
    var short, price := Cap128(ListPrice(call.tokens, rates.short)), Cap128(ListPrice(call.tokens, r));
    && cost.priced
    && if MayBeLong(catalog, call, rates) then
         && cost.partialReason == Some(LongContextAmbiguous)
         && cost.minimum == (if short <= price then short else price)
         && cost.maximum == (if short <= price then price else short)
       else
         cost.partialReason == None && cost.minimum == cost.maximum == price
  }

  /** The call is priced at the rates asked for, or it is not priced, and this is why. */
  ghost predicate PricedAs(catalog: Catalog, call: UsageCall, asked: Outcome<TierRates, Reason>, cost: CallCost) {
    match asked
    case Failure(reason) => NotPriced(cost, reason)
    case Success(rates) =>
      var t := call.tokens;
      if Unclassified(t) > 0 then NotPriced(cost, TokenBreakdownMissing)
      else if !Fits(t) then NotPriced(cost, TokenBreakdownInconsistent)
      else if !Charges(t, rates.short) then NotPriced(cost, CacheWriteRateUnavailable)
      else
        match RequestRates(catalog, rates, t.input)
        case Failure(reason) => NotPriced(cost, reason)
        case Success(r) =>
          if !Charges(t, r) then NotPriced(cost, CacheWriteRateUnavailable)
          else PricedBetween(catalog, call, rates, r, cost)
  }

  lemma PriceAtRates(catalog: Catalog, call: UsageCall, rates: TierRates)
    ensures PricedAs(catalog, call, Success(rates), PriceAt(catalog, call, rates))
  {
    hide PriceUsage, Cost, Cap128, Unclassified, CoverageTokens, ListPrice, AmountsOf, Add64;
    var t := call.tokens;
    PriceIsCappedCost(t, rates.short);
    if rates.long.Published? {
      PriceIsCappedCost(t, rates.long.rates);
    }
    if Fits(t) {
      if Charges(t, rates.short) {
        CostIsListPrice(t, rates.short);
      }
      if rates.long.Published? && Charges(t, rates.long.rates) {
        CostIsListPrice(t, rates.long.rates);
      }
    }
  }

  /** The price of every call, by the texts of its model and tier, its counters and the catalogue. */
  lemma PriceOfCall(catalog: Catalog, call: UsageCall)
    ensures
      match catalog.apiRates(call.model)
      case None => NotPriced(PriceCall(catalog, call), ModelUnknown)
      case Some(m) => PricedAs(catalog, call, AskedRates(m, call.model, call.tier), PriceCall(catalog, call))
  {
    hide PriceAt, TierRatesFor, AskedRates, ListPrice, Unclassified, CoverageTokens, AutoReviewUsesLuna;
    RatesByText(catalog, call.model, call.tier);
    var asked := TierRatesFor(catalog, call.model, call.tier);
    if asked.Success? {
      PriceAtRates(catalog, call, asked.value);
    }
  }

  /** The assumption is named exactly for automatic reviews that are priced like the Luna model. */
  lemma AssumptionOfCall(catalog: Catalog, call: UsageCall)
    ensures PriceCall(catalog, call).assumptionReason
         == if && OfAutoReview(call.model) && catalog.apiRates(Some("codex-auto-review")).Some?
               && catalog.apiRates(Some("codex-auto-review")) == catalog.apiRates(Some("gpt-5.6-luna"))
            then Some(AutoReviewLunaProxy) else None
  {
    hide PriceUsage, Trim, Lower, Unclassified, CoverageTokens, TierRatesFor;
    LowerConstants();
  }
}
