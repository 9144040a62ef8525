/**
 The credit units of every call (`estimate_call_weight` in src/attribution.rs), in terms of
 its counters and the published rates: what it weighs, and what a long request pays on top.
 */
module CreditWeights {
  import opened Options
  import opened Saturating
  import opened Text
  import opened Tokens
  import opened Dataset
  import opened Pricing
  import opened Credits
  import opened PriceTiers

  /** Input that was not read from a cache; tokens of unknown kind count as such input. */
  function FreshTokens(t: TokenUsage): nat {
    Cap64((if t.cachedInput <= t.input then t.input - t.cachedInput else 0) + Unclassified(t))
  }

  function CachedTokens(t: TokenUsage): nat {
    if t.cachedInput <= t.input then t.cachedInput else t.input
  }

  /** The three kinds of tokens, each at its own rate. */
  function ListUnits(t: TokenUsage, input: nat, cached: nat, output: nat): nat {
    Product(FreshTokens(t), input) + Product(CachedTokens(t), cached) + Product(t.output, output)
  }

  /** The published rates of the model and tier, or the fallback where there are none. */
  function PublishedRates(catalog: Catalog, call: UsageCall): CreditRates {
    var fast := IsFastText(call.tier);
    if catalog.creditRates(call.model, fast).Some? then catalog.creditRates(call.model, fast).value
    else catalog.fallbackCreditRates(fast)
  }

  /** A single request, classified, above the threshold, of a model that is charged for it. */
  predicate PaysForLength(catalog: Catalog, call: UsageCall) {
    && catalog.creditRates(call.model, IsFastText(call.tier)).Some? && catalog.creditLongContext(call.model)
    && call.requestExact && Unclassified(call.tokens) == 0 && call.tokens.input > catalog.longContextThreshold
  }

  /** Above the threshold for all that is known, but not known to be one classified request. */
  predicate MayPayForLength(catalog: Catalog, call: UsageCall) {
    && catalog.creditRates(call.model, IsFastText(call.tier)).Some? && catalog.creditLongContext(call.model)
    && (if Unclassified(call.tokens) > 0 then call.tokens.total > catalog.longContextThreshold
        else !call.requestExact && call.tokens.input > catalog.longContextThreshold)
  }

  lemma FastByText(tier: Option<string>)
    ensures IsFast(tier) <==> IsFastText(tier)
  {
    hide Trim, Lower;
    LowerConstants();
    assert Lower("") == "";
  }

  lemma UnitsAreListUnits(t: TokenUsage, r: CreditRates)
    ensures CreditUnits(FullInput(t), CachedInput(t), t.output, r)
         == Cap128(ListUnits(t, r.input, r.cachedInput, r.output))
  {
    hide Cap128, Add128, Times, Unclassified;
    assert FullInput(t) == FreshTokens(t) && CachedInput(t) == CachedTokens(t);
    TimesIsProduct(FullInput(t), r.input);
    TimesIsProduct(CachedInput(t), r.cachedInput);
    TimesIsProduct(t.output, r.output);
    var a, b, c := Times(FullInput(t), r.input), Times(CachedInput(t), r.cachedInput), Times(t.output, r.output);
    AddCapped(a, b);
    AddCapped(a + b, c);
  }

  /**
   The weight of every call: its tokens at the published rates and, for a long request
   only, what twice the input rates and one and a half times the output rate add to that.
   */
  lemma WeightOfCall(catalog: Catalog, call: UsageCall)
    ensures
      var w, t, r := Estimate(catalog, call), call.tokens, PublishedRates(catalog, call);
      var base := Cap128(ListUnits(t, r.input, r.cachedInput, r.output));
      var long := Cap128(ListUnits(t, Cap128(2 * r.input), Cap128(2 * r.cachedInput), Cap128(3 * r.output) / 2));
      && w.units == base
      && (w.usedLongContext <==> PaysForLength(catalog, call))
      && w.longContextExtra == (if PaysForLength(catalog, call) && long > base then long - base else 0)
      && (w.detectionFallback <==> MayPayForLength(catalog, call))
      && (w.breakdownFallback <==> Unclassified(t) > 0)
      && (w.modelFallback <==> catalog.creditRates(call.model, IsFastText(call.tier)).None? && t != NO_TOKENS)
  {
    hide CreditUnits, Cap128, ListUnits, Unclassified, IsFastText, IsFast, FullInput, CachedInput;
    FastByText(call.tier);
    var t, r := call.tokens, PublishedRates(catalog, call);
    assert r == BaseRates(catalog, call);
    UnitsAreListUnits(t, r);
    UnitsAreListUnits(t, LongContext(r));
    assert LongContext(r) == CreditRates(Cap128(2 * r.input), Cap128(2 * r.cachedInput), Cap128(3 * r.output) / 2);
    assert t.input > 0 || t.total > 0 ==> !IsZero(t);
  }

  lemma DoubledRates(n: nat, r: nat)
    ensures Product(n, 2 * r) == Product(n, r) + Product(n, r)
    ensures Product(n, 3 * r / 2) == Product(n, r) + Product(n, r / 2)
  {
    assert 3 * r / 2 == r + r / 2;
    Distributes(n, r, r / 2);
    Distributes(n, r, r);
  }

  lemma Distributes(n: nat, a: nat, b: nat)
    ensures Product(n, a + b) == Product(n, a) + Product(n, b)
  {
  }

  /** Where nothing saturates, a long request pays its input again, and half of its output. */
  lemma SurchargeOfLongRequest(catalog: Catalog, call: UsageCall)
    requires PaysForLength(catalog, call)
    requires
      var t, r := call.tokens, PublishedRates(catalog, call);
      && 3 * r.input <= U128_MAX && 3 * r.cachedInput <= U128_MAX && 3 * r.output <= U128_MAX
      && ListUnits(t, 2 * r.input, 2 * r.cachedInput, 3 * r.output / 2) <= U128_MAX
    ensures
      var r := PublishedRates(catalog, call);
      Estimate(catalog, call).longContextExtra == ListUnits(call.tokens, r.input, r.cachedInput, r.output / 2)
  {
    hide Estimate, Product, PaysForLength, MayPayForLength, FreshTokens, CachedTokens, PublishedRates;
    var t, r := call.tokens, PublishedRates(catalog, call);
    WeightOfCall(catalog, call);
    DoubledRates(FreshTokens(t), r.input);
    DoubledRates(CachedTokens(t), r.cachedInput);
    DoubledRates(t.output, r.output);
  }
}
