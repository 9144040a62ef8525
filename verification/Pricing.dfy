/**
 The two cost estimators: API list prices (src/api_cost.rs) and Codex credit
 units (`estimate_call_weight` in src/attribution.rs).

 A sample that is not an exact request may cover several requests.  The lemmas
 show what either estimate says about every way to split it.  Rates are inputs:
 the theorems hold for any catalogue.
 */
module Pricing {
  import opened Options
  import opened Saturating
  import opened Text
  import opened Tokens
  import opened Dataset

  datatype TokenRates = TokenRates(input: U128, cachedInput: U128, cacheWrite: Option<U128>, output: U128)
  datatype LongContextRates = Published(rates: TokenRates) | Flat | Unavailable
  datatype TierRates = TierRates(short: TokenRates, long: LongContextRates)
  datatype ModelRates = ModelRates(standard: TierRates, fast: Option<TierRates>)
  datatype CreditRates = CreditRates(input: U128, cachedInput: U128, output: U128)

  datatype Catalog = Catalog(
    longContextThreshold: U64,
    apiRates: Option<string> -> Option<ModelRates>,
    creditRates: (Option<string>, bool) -> Option<CreditRates>,
    fallbackCreditRates: bool -> CreditRates,
    creditLongContext: Option<string> -> bool)

  // ----- API price of one call

  datatype Reason =
    | ModelUnknown | AutoReviewLunaProxy | ServiceTierUnknown | ServiceTierUnavailable | TokenBreakdownMissing
    | TokenBreakdownInconsistent | CacheWriteRateUnavailable | LongContextUnavailable | LongContextAmbiguous

  datatype CallCost = CallCost(
    minimum: U128,
    maximum: U128,
    observedTokens: U64,
    priced: bool,
    partialReason: Option<Reason>,
    assumptionReason: Option<Reason>)

  datatype ServiceTier = StandardTier | FastTier

  function Nonempty(s: Option<string>): Option<string> {
    match s
    case Some(text) => if Trim(text) != "" then Some(Trim(text)) else None
    case None => None
  }

  function ServiceTierOf(value: Option<string>): Option<ServiceTier> {
    match Nonempty(value)
    case None => None
    case Some(tier) =>
      if EqualsIgnoringCase(tier, "default") || EqualsIgnoringCase(tier, "standard") then Some(StandardTier)
      else if EqualsIgnoringCase(tier, "fast") || EqualsIgnoringCase(tier, "priority") then Some(FastTier)
      else None
  }

  predicate IsModel(model: Option<string>, name: string) {
    model.Some? && EqualsIgnoringCase(Trim(model.value), name)
  }

  predicate IsAutoReview(model: Option<string>) {
    IsModel(model, "codex-auto-review")
  }

  function ServiceTierFor(model: Option<string>, tier: Option<string>): Option<ServiceTier> {
    if Nonempty(tier).None? && IsAutoReview(model) then Some(StandardTier) else ServiceTierOf(Nonempty(tier))
  }

  function CoverageTokens(t: TokenUsage): U64 {
    Higher64(Add64(t.input, t.output), t.total)
  }

  function PriceTokens(input: U64, cachedInput: U64, cacheWrite: U64, output: U64, rates: TokenRates): Option<U128> {
    if cacheWrite != 0 && rates.cacheWrite.None? then
      None
    else
      var writeCost := if cacheWrite == 0 then 0 else Mul128(cacheWrite, rates.cacheWrite.value);
      Some(Add128(Add128(Add128(Mul128(input, rates.input), Mul128(cachedInput, rates.cachedInput)), writeCost),
                  Mul128(output, rates.output)))
  }

  function Unpriced(observed: U64, reason: Reason): CallCost {
    CallCost(0, 0, observed, false, Some(reason), None)
  }

  function Priced(observed: U64, minimum: U128, maximum: U128, reason: Option<Reason>): CallCost {
    CallCost(minimum, maximum, observed, true, reason, None)
  }

  /** The rates that apply to the call's model and tier, or why there are none. */
  function TierRatesFor(catalog: Catalog, model: Option<string>, tier: Option<string>): Outcome<TierRates, Reason> {
    match catalog.apiRates(model)
    case None => Failure(ModelUnknown)
    case Some(rates) =>
      match ServiceTierFor(model, tier)
      case None => Failure(ServiceTierUnknown)
      case Some(StandardTier) => Success(rates.standard)
      case Some(FastTier) => if rates.fast.Some? then Success(rates.fast.value) else Failure(ServiceTierUnavailable)
  }

  /** The token breakdown is complete and adds up. */
  predicate BreakdownFits(t: TokenUsage) {
    && (t.total > 0 ==> t.total == Add64(t.input, t.output))
    && t.cachedInput + t.cacheWriteInput <= t.input
  }

  /** Input tokens that were neither read from nor written to the cache. */
  function RegularInput(t: TokenUsage): U64 {
    if t.cachedInput + t.cacheWriteInput <= t.input then t.input - t.cachedInput - t.cacheWriteInput else 0
  }

  function PriceUsage(t: TokenUsage, rates: TokenRates): Option<U128> {
    PriceTokens(RegularInput(t), t.cachedInput, t.cacheWriteInput, t.output, rates)
  }

  function PriceAt(catalog: Catalog, call: UsageCall, rates: TierRates): CallCost {
    var observed, t := CoverageTokens(call.tokens), call.tokens;
    if Unclassified(t) > 0 then
      Unpriced(observed, TokenBreakdownMissing)
    else if !BreakdownFits(t) then
      Unpriced(observed, TokenBreakdownInconsistent)
    else
      match PriceUsage(t, rates.short)
      case None => Unpriced(observed, CacheWriteRateUnavailable)
      case Some(short) => PriceLong(catalog, call, rates.long, short)
  }

  /** The price once the short price is known, by the long-context rule of the tier. */
  function PriceLong(catalog: Catalog, call: UsageCall, rates: LongContextRates, short: U128): CallCost {
    var observed := CoverageTokens(call.tokens);
    if call.tokens.input <= catalog.longContextThreshold then
      Priced(observed, short, short, None)
    else
      match rates
      case Flat => Priced(observed, short, short, None)
      case Unavailable => Unpriced(observed, LongContextUnavailable)
      case Published(longRates) =>
        match PriceUsage(call.tokens, longRates)
        case None => Unpriced(observed, CacheWriteRateUnavailable)
        case Some(long) =>
          if call.requestExact then
            Priced(observed, long, long, None)
          else
            Priced(observed, Lower128(short, long), Higher128(short, long), Some(LongContextAmbiguous))
  }

  function PriceCallInner(catalog: Catalog, call: UsageCall): CallCost {
    match TierRatesFor(catalog, call.model, call.tier)
    case Failure(reason) => Unpriced(CoverageTokens(call.tokens), reason)
    case Success(rates) => PriceAt(catalog, call, rates)
  }

  predicate AutoReviewUsesLuna(catalog: Catalog, model: Option<string>) {
    && IsAutoReview(model)
    && var own, luna := catalog.apiRates(Some("codex-auto-review")), catalog.apiRates(Some("gpt-5.6-luna"));
    own.Some? && own == luna
  }

  function PriceCall(catalog: Catalog, call: UsageCall): CallCost {
    var cost := PriceCallInner(catalog, call);
    if AutoReviewUsesLuna(catalog, call.model) then cost.(assumptionReason := Some(AutoReviewLunaProxy)) else cost
  }

  // ----- Exact costs

  /** The rates of a call that has some, in a form that needs no case distinction. */
  function RatesOf(catalog: Catalog, call: UsageCall): TierRates {
    match TierRatesFor(catalog, call.model, call.tier)
    case Success(rates) => rates
    case Failure(_) => TierRates(TokenRates(0, 0, None, 0), Flat)
  }

  /** Disjoint token amounts of a consistent breakdown. */
  datatype Amounts = Amounts(regular: nat, cached: nat, write: nat, output: nat)

  function AmountsOf(t: TokenUsage): Amounts {
    Amounts(RegularInput(t), t.cachedInput, t.cacheWriteInput, t.output)
  }

  function Plus(a: Amounts, b: Amounts): Amounts {
    Amounts(a.regular + b.regular, a.cached + b.cached, a.write + b.write, a.output + b.output)
  }

  function WriteRate(r: TokenRates): nat {
    if r.cacheWrite.Some? then r.cacheWrite.value else 0
  }

  /** The price without any cap. */
  function Cost(a: Amounts, r: TokenRates): nat {
    Times(a.regular, r.input) + Times(a.cached, r.cachedInput) + Times(a.write, WriteRate(r))
    + Times(a.output, r.output)
  }

  lemma PriceIsCappedCost(t: TokenUsage, r: TokenRates)
    ensures PriceUsage(t, r).Some? <==> (t.cacheWriteInput == 0 || r.cacheWrite.Some?)
    ensures PriceUsage(t, r).Some? ==> PriceUsage(t, r).value == Cap128(Cost(AmountsOf(t), r))
  {
    hide Cap128, Add128, Times, RegularInput;
    var a, b := Times(RegularInput(t), r.input), Times(t.cachedInput, r.cachedInput);
    var c, d := Times(t.cacheWriteInput, WriteRate(r)), Times(t.output, r.output);
    AddCapped(a, b);
    AddCapped(a + b, c);
    AddCapped(a + b + c, d);
    NothingCostsNothing(r);
  }

  lemma NothingCostsNothing(r: TokenRates)
    ensures Cap128(Times(0, WriteRate(r))) == 0
  {
  }

  lemma CostAdds(a: Amounts, b: Amounts, r: TokenRates)
    ensures Cost(Plus(a, b), r) == Cost(a, r) + Cost(b, r)
  {
    TimesAdds(a.regular, b.regular, r.input);
    TimesAdds(a.cached, b.cached, r.cachedInput);
    TimesAdds(a.write, b.write, WriteRate(r));
    TimesAdds(a.output, b.output, r.output);
  }

  /** No rate falls when a request becomes long. */
  predicate Ordered(short: TokenRates, long: TokenRates) {
    && short.input <= long.input
    && short.cachedInput <= long.cachedInput
    && (short.cacheWrite.Some? && long.cacheWrite.Some? ==> short.cacheWrite.value <= long.cacheWrite.value)
    && short.output <= long.output
  }

  lemma CostOrdered(a: Amounts, short: TokenRates, long: TokenRates)
    requires Ordered(short, long)
    requires a.write == 0 || (short.cacheWrite.Some? && long.cacheWrite.Some?)
    ensures Cost(a, short) <= Cost(a, long)
  {
    TimesGrows(a.regular, short.input, long.input);
    TimesGrows(a.cached, short.cachedInput, long.cachedInput);
    if a.write > 0 {
      TimesGrows(a.write, WriteRate(short), WriteRate(long));
    }
    TimesGrows(a.output, short.output, long.output);
  }

  // ----- Splitting a sample into requests

  /** A single model request of the same model and tier as `sample`. */
  predicate IsRequestOf(sample: UsageCall, part: UsageCall) {
    && part.requestExact
    && part.model == sample.model && part.tier == sample.tier
    && Unclassified(part.tokens) == 0 && BreakdownFits(part.tokens)
  }

  function TotalAmounts(parts: seq<UsageCall>): Amounts {
    if parts == [] then
      Amounts(0, 0, 0, 0)
    else
      Plus(TotalAmounts(parts[..|parts| - 1]), AmountsOf(parts[|parts| - 1].tokens))
  }

  /** `parts` are requests that together account for exactly the tokens of `sample`. */
  predicate Splits(sample: UsageCall, parts: seq<UsageCall>) {
    && !sample.requestExact
    && Unclassified(sample.tokens) == 0 && BreakdownFits(sample.tokens)
    && (forall i :: 0 <= i < |parts| ==> IsRequestOf(sample, parts[i]))
    && TotalAmounts(parts) == AmountsOf(sample.tokens)
  }

  lemma {:induction false} PartsAreSmaller(parts: seq<UsageCall>, i: nat)
    requires i < |parts|
    ensures
      var a, total := AmountsOf(parts[i].tokens), TotalAmounts(parts);
      a.regular <= total.regular && a.cached <= total.cached && a.write <= total.write && a.output <= total.output
  {
    if i < |parts| - 1 {
      PartsAreSmaller(parts[..|parts| - 1], i);
    }
  }

  lemma PartIsNoLarger(sample: UsageCall, parts: seq<UsageCall>, i: nat)
    requires Splits(sample, parts) && i < |parts|
    ensures parts[i].tokens.input <= sample.tokens.input
    ensures parts[i].tokens.cacheWriteInput <= sample.tokens.cacheWriteInput
  {
    hide Unclassified;
    PartsAreSmaller(parts, i);
    assert IsRequestOf(sample, parts[i]);
  }

  /** What one request costs before capping: the long rates apply above the threshold. */
  function RequestCost(catalog: Catalog, rates: TierRates, part: UsageCall): nat {
    var a := AmountsOf(part.tokens);
    if part.tokens.input > catalog.longContextThreshold && rates.long.Published? then
      Cost(a, rates.long.rates)
    else
      Cost(a, rates.short)
  }

  function RequestCosts(catalog: Catalog, rates: TierRates, parts: seq<UsageCall>): seq<nat> {
    seq(|parts|, i requires 0 <= i < |parts| => RequestCost(catalog, rates, parts[i]))
  }

  function Prices(catalog: Catalog, parts: seq<UsageCall>): seq<U128> {
    seq(|parts|, i requires 0 <= i < |parts| => PriceCall(catalog, parts[i]).minimum)
  }

  /** The published long rates are not below the short ones. */
  predicate LongIsDearer(rates: TierRates) {
    rates.long.Published? ==> Ordered(rates.short, rates.long.rates)
  }

  /** Either no published long rate is below its short rate, or none is above it. */
  predicate OrderedEitherWay(rates: TierRates) {
    rates.long.Published? ==> Ordered(rates.short, rates.long.rates) || Ordered(rates.long.rates, rates.short)
  }

  lemma SampleRates(catalog: Catalog, sample: UsageCall)
    requires PriceCall(catalog, sample).priced
    ensures TierRatesFor(catalog, sample.model, sample.tier).Success?
    ensures
      var rates, t := RatesOf(catalog, sample), sample.tokens;
      && PriceAt(catalog, sample, rates).priced
      && PriceCall(catalog, sample).minimum == PriceAt(catalog, sample, rates).minimum
      && PriceCall(catalog, sample).maximum == PriceAt(catalog, sample, rates).maximum
      && Unclassified(t) == 0 && BreakdownFits(t)
      && (t.cacheWriteInput == 0 || rates.short.cacheWrite.Some?)
      && (t.input > catalog.longContextThreshold ==>
            && !rates.long.Unavailable?
            && (rates.long.Published? ==> t.cacheWriteInput == 0 || rates.long.rates.cacheWrite.Some?))
  {
    hide BreakdownFits, Unclassified, PriceUsage, ServiceTierFor;
    if TierRatesFor(catalog, sample.model, sample.tier).Success? {
      var rates := RatesOf(catalog, sample);
      PriceIsCappedCost(sample.tokens, rates.short);
      if rates.long.Published? {
        PriceIsCappedCost(sample.tokens, rates.long.rates);
      }
    }
  }

  lemma ExactPrice(catalog: Catalog, part: UsageCall, rates: TierRates)
    requires part.requestExact && Unclassified(part.tokens) == 0 && BreakdownFits(part.tokens)
    requires part.tokens.cacheWriteInput == 0 || rates.short.cacheWrite.Some?
    requires part.tokens.input > catalog.longContextThreshold ==>
               && !rates.long.Unavailable?
               && (rates.long.Published? ==> part.tokens.cacheWriteInput == 0 || rates.long.rates.cacheWrite.Some?)
    ensures
      var cost := PriceAt(catalog, part, rates);
      cost.priced && cost.minimum == cost.maximum == Cap128(RequestCost(catalog, rates, part))
  {
    hide PriceUsage, Cost, Cap128, BreakdownFits, Unclassified, CoverageTokens;
    PriceIsCappedCost(part.tokens, rates.short);
    if rates.long.Published? {
      PriceIsCappedCost(part.tokens, rates.long.rates);
    }
  }

  /** A request drawn from a priced sample is itself priced, at one exact price. */
  lemma RequestIsPriced(catalog: Catalog, sample: UsageCall, part: UsageCall)
    requires PriceCall(catalog, sample).priced
    requires IsRequestOf(sample, part)
    requires part.tokens.input <= sample.tokens.input && part.tokens.cacheWriteInput <= sample.tokens.cacheWriteInput
    ensures
      var cost, rates := PriceCall(catalog, part), RatesOf(catalog, sample);
      && cost.priced
      && cost.minimum == cost.maximum == Cap128(RequestCost(catalog, rates, part))
  {
    hide PriceAt, RequestCost, Cap128, BreakdownFits, Unclassified, TierRatesFor, AutoReviewUsesLuna, CoverageTokens;
    SampleRates(catalog, sample);
    ExactPrice(catalog, part, RatesOf(catalog, sample));
  }

  /**
   Requests at two rate sets, the first nowhere above the second, cost between all at the one and
   all at the other.
   */
  lemma {:induction false} CostsLieBetween(parts: seq<UsageCall>, costs: seq<nat>, low: TokenRates, high: TokenRates)
    requires Ordered(low, high) && |costs| == |parts|
    requires forall i :: 0 <= i < |parts| ==>
               costs[i] == Cost(AmountsOf(parts[i].tokens), low) || costs[i] == Cost(AmountsOf(parts[i].tokens), high)
    requires TotalAmounts(parts).write == 0 || (low.cacheWrite.Some? && high.cacheWrite.Some?)
    ensures Cost(TotalAmounts(parts), low) <= Sum(costs) <= Cost(TotalAmounts(parts), high)
  {
    hide Cost;
    if parts == [] {
      CostOfNothing(low);
      CostOfNothing(high);
    } else {
      var init, a := parts[..|parts| - 1], AmountsOf(parts[|parts| - 1].tokens);
      CostsLieBetween(init, costs[..|costs| - 1], low, high);
      CostAdds(TotalAmounts(init), a, low);
      CostAdds(TotalAmounts(init), a, high);
      CostOrdered(a, low, high);
    }
  }

  lemma CostOfNothing(r: TokenRates)
    ensures Cost(Amounts(0, 0, 0, 0), r) == 0
  {
  }

  lemma {:induction false} ShortCostsAddUp(catalog: Catalog, rates: TierRates, parts: seq<UsageCall>)
    requires rates.long.Published? ==> forall i :: 0 <= i < |parts| ==>
              parts[i].tokens.input <= catalog.longContextThreshold
    ensures Sum(RequestCosts(catalog, rates, parts)) == Cost(TotalAmounts(parts), rates.short)
  {
    hide Cost;
    if parts == [] {
      CostOfNothing(rates.short);
    } else {
      var init, part := parts[..|parts| - 1], parts[|parts| - 1];
      ShortCostsAddUp(catalog, rates, init);
      CostAdds(TotalAmounts(init), AmountsOf(part.tokens), rates.short);
      assert RequestCosts(catalog, rates, parts)[..|parts| - 1] == RequestCosts(catalog, rates, init);
    }
  }

  lemma PricesSumUp(catalog: Catalog, sample: UsageCall, parts: seq<UsageCall>)
    requires PriceCall(catalog, sample).priced && Splits(sample, parts)
    ensures forall i :: 0 <= i < |parts| ==>
                          PriceCall(catalog, parts[i]).priced
                          && PriceCall(catalog, parts[i]).minimum == PriceCall(catalog, parts[i]).maximum
    ensures SaturatingSum(Prices(catalog, parts))
         == Cap128(Sum(RequestCosts(catalog, RatesOf(catalog, sample), parts)))
  {
    hide PriceCall, RequestCost, RatesOf, Cap128, BreakdownFits, Unclassified, RegularInput;
    var rates := RatesOf(catalog, sample);
    forall i | 0 <= i < |parts|
      ensures && PriceCall(catalog, parts[i]).priced
              && PriceCall(catalog, parts[i]).minimum == PriceCall(catalog, parts[i]).maximum
                 == Cap128(RequestCost(catalog, rates, parts[i]))
    {
      PartIsNoLarger(sample, parts, i);
      RequestIsPriced(catalog, sample, parts[i]);
    }
    CappedTermsSumToCappedSum(RequestCosts(catalog, rates, parts), Prices(catalog, parts));
  }

  /** The sample may have been one long request, at published rates. */
  predicate MayBeLong(catalog: Catalog, sample: UsageCall) {
    sample.tokens.input > catalog.longContextThreshold && RatesOf(catalog, sample).long.Published?
  }

  /** The bounds of a priced sample in terms of uncapped costs. */
  lemma SampleBounds(catalog: Catalog, sample: UsageCall)
    requires PriceCall(catalog, sample).priced && !sample.requestExact
    ensures
      var rates, cost, a := RatesOf(catalog, sample), PriceCall(catalog, sample), AmountsOf(sample.tokens);
      var short := Cap128(Cost(a, rates.short));
      var long := if MayBeLong(catalog, sample) then Cap128(Cost(a, rates.long.rates)) else short;
      cost.minimum == Lower128(short, long) && cost.maximum == Higher128(short, long)
  {
    hide PriceUsage, Cost, BreakdownFits, Unclassified, Cap128, RatesOf, TierRatesFor, AutoReviewUsesLuna;
    SampleRates(catalog, sample);
    var rates, t := RatesOf(catalog, sample), sample.tokens;
    PriceIsCappedCost(t, rates.short);
    if MayBeLong(catalog, sample) {
      PriceIsCappedCost(t, rates.long.rates);
    }
  }

  /** With dearer long rates the minimum is the short price and the maximum the long one. */
  lemma DearerBounds(catalog: Catalog, sample: UsageCall)
    requires PriceCall(catalog, sample).priced && !sample.requestExact
    requires LongIsDearer(RatesOf(catalog, sample))
    ensures
      var rates, cost, a := RatesOf(catalog, sample), PriceCall(catalog, sample), AmountsOf(sample.tokens);
      && cost.minimum == Cap128(Cost(a, rates.short))
      && cost.maximum == Cap128(if MayBeLong(catalog, sample) then Cost(a, rates.long.rates) else Cost(a, rates.short))
  {
    hide Cost, BreakdownFits, Unclassified, Cap128, RatesOf, PriceCall, AmountsOf;
    SampleRates(catalog, sample);
    SampleBounds(catalog, sample);
    if MayBeLong(catalog, sample) {
      var rates, a := RatesOf(catalog, sample), AmountsOf(sample.tokens);
      assert a.write == sample.tokens.cacheWriteInput by { WritesOf(sample.tokens); }
      CostOrdered(a, rates.short, rates.long.rates);
      CapGrows(Cost(a, rates.short), Cost(a, rates.long.rates));
    }
  }

  lemma WritesOf(t: TokenUsage)
    ensures AmountsOf(t).write == t.cacheWriteInput
  {
  }

  lemma RequestCostChoices(catalog: Catalog, rates: TierRates, parts: seq<UsageCall>)
    requires rates.long.Published?
    ensures var costs := RequestCosts(catalog, rates, parts);
            forall i :: 0 <= i < |parts| ==>
              || costs[i] == Cost(AmountsOf(parts[i].tokens), rates.short)
              || costs[i] == Cost(AmountsOf(parts[i].tokens), rates.long.rates)
  {
    hide Cost, AmountsOf;
  }

  /**
   The price range of a sample is sound: however its tokens were spread over
   requests, the sum of their exact prices lies in it, even when amounts saturate.
   */
  lemma SplitPriceIsWithinRange(catalog: Catalog, sample: UsageCall, parts: seq<UsageCall>)
    requires PriceCall(catalog, sample).priced && Splits(sample, parts)
    requires OrderedEitherWay(RatesOf(catalog, sample))
    ensures
      var cost := PriceCall(catalog, sample);
      cost.minimum <= SaturatingSum(Prices(catalog, parts)) <= cost.maximum
  {
    hide PriceCall, RatesOf, Cost, RequestCost, PriceAt, RequestCosts, Sum, SaturatingSum, Cap128, AmountsOf,
         Unclassified,
         BreakdownFits;
    SampleRates(catalog, sample);
    SampleBounds(catalog, sample);
    PricesSumUp(catalog, sample, parts);
    WritesOf(sample.tokens);
    var rates, costs := RatesOf(catalog, sample), RequestCosts(catalog, RatesOf(catalog, sample), parts);
    var total := TotalAmounts(parts);
    if MayBeLong(catalog, sample) {
      RequestCostChoices(catalog, rates, parts);
      assert |costs| == |parts| by { CostsPerPart(catalog, rates, parts); }
      if Ordered(rates.short, rates.long.rates) {
        CostsLieBetween(parts, costs, rates.short, rates.long.rates);
        CapGrows(Cost(total, rates.short), Sum(costs));
        CapGrows(Sum(costs), Cost(total, rates.long.rates));
      } else {
        CostsLieBetween(parts, costs, rates.long.rates, rates.short);
        CapGrows(Cost(total, rates.long.rates), Sum(costs));
        CapGrows(Sum(costs), Cost(total, rates.short));
      }
    } else {
      forall i | 0 <= i < |parts| ensures parts[i].tokens.input <= sample.tokens.input {
        PartIsNoLarger(sample, parts, i);
      }
      ShortCostsAddUp(catalog, rates, parts);
    }
  }

  lemma CostsPerPart(catalog: Catalog, rates: TierRates, parts: seq<UsageCall>)
    ensures |RequestCosts(catalog, rates, parts)| == |parts|
  {
  }

  /** The minimum is the price of every split into short requests. */
  lemma ShortSplitCostsMinimum(catalog: Catalog, sample: UsageCall, parts: seq<UsageCall>)
    requires PriceCall(catalog, sample).priced && Splits(sample, parts)
    requires LongIsDearer(RatesOf(catalog, sample))
    requires forall i :: 0 <= i < |parts| ==> parts[i].tokens.input <= catalog.longContextThreshold
    ensures SaturatingSum(Prices(catalog, parts)) == PriceCall(catalog, sample).minimum
  {
    hide PriceCall, RatesOf, Cost, RequestCost, AmountsOf;
    DearerBounds(catalog, sample);
    PricesSumUp(catalog, sample, parts);
    ShortCostsAddUp(catalog, RatesOf(catalog, sample), parts);
  }

  /** The maximum is the price of the sample as one request. */
  lemma OneRequestCostsMaximum(catalog: Catalog, sample: UsageCall)
    requires PriceCall(catalog, sample).priced && !sample.requestExact
    requires LongIsDearer(RatesOf(catalog, sample))
    ensures PriceCall(catalog, sample.(requestExact := true)).priced
    ensures PriceCall(catalog, sample.(requestExact := true)).minimum == PriceCall(catalog, sample).maximum
  {
    DearerBounds(catalog, sample);
    SampleRates(catalog, sample);
    RequestIsPriced(catalog, sample, sample.(requestExact := true));
  }
}
