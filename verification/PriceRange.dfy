/**
 Exactly which rate tables make the price range of every sample sound, among those
 that the catalogue accepts (src/api_cost.rs, src/model_catalog.rs).
 */
module PriceRange {
  import opened Options
  import opened Saturating
  import opened Text
  import opened Tokens
  import opened Dataset
  import opened Pricing

  /** The largest rate a catalogue may hold. */
  const MAX_RATE: nat := U128_MAX / U64_MAX / 6

  // ----- Tokens of one kind

  datatype Kind = Regular | Cached | Write | Output

  function RateOf(r: TokenRates, k: Kind): nat {
    match k
    case Regular => r.input
    case Cached => r.cachedInput
    case Write => WriteRate(r)
    case Output => r.output
  }

  function Portion(k: Kind, n: nat): Amounts {
    match k
    case Regular => Amounts(n, 0, 0, 0)
    case Cached => Amounts(0, n, 0, 0)
    case Write => Amounts(0, 0, n, 0)
    case Output => Amounts(0, 0, 0, n)
  }

  lemma PortionCost(k: Kind, n: nat, r: TokenRates)
    ensures Cost(Portion(k, n), r) == Times(n, RateOf(r, k))
  {
    hide Times;
    NoTokens(r.input);
    NoTokens(r.cachedInput);
    NoTokens(WriteRate(r));
    NoTokens(r.output);
  }

  lemma NoTokens(r: nat)
    ensures Times(0, r) == 0
  {
  }

  /** Both rate sets charge for tokens of this kind. */
  predicate Charged(short: TokenRates, long: TokenRates, k: Kind) {
    k.Write? ==> short.cacheWrite.Some? && long.cacheWrite.Some?
  }

  function Only(k: Kind, wanted: Kind, n: U64): U64 {
    if k == wanted then n else 0
  }

  function InputOf(k: Kind, n: U64): U64 {
    if k.Output? then 0 else n
  }

  /** A counter with `n` tokens of one kind and `m` of another. */
  function TokensFor(x: Kind, n: U64, y: Kind, m: U64): TokenUsage
    requires n + m <= U64_MAX
  {
    TokenUsage(InputOf(x, n) + InputOf(y, m), Only(x, Cached, n) + Only(y, Cached, m),
               Only(x, Write, n) + Only(y, Write, m),
               Only(x, Output, n) + Only(y, Output, m), 0, 0, n + m)
  }

  lemma TokensForFacts(x: Kind, n: U64, y: Kind, m: U64)
    requires 0 < n + m <= U64_MAX
    ensures var t := TokensFor(x, n, y, m);
            Unclassified(t) == 0 && BreakdownFits(t) && AmountsOf(t) == Plus(Portion(x, n), Portion(y, m))
  {
  }

  // ----- A sample of two kinds, and its split into a long and a short request

  function CallFor(model: Option<string>, tier: Option<string>, exact: bool, t: TokenUsage): UsageCall {
    UsageCall(0, "thread", None, None, false, model, tier, t, exact)
  }

  function CrossedSample(model: Option<string>, tier: Option<string>, threshold: U64, x: Kind, y: Kind): UsageCall
    requires threshold + 2 <= U64_MAX
  {
    CallFor(model, tier, false, TokensFor(x, threshold + 1, y, 1))
  }

  function LongRequest(model: Option<string>, tier: Option<string>, threshold: U64, x: Kind, y: Kind): UsageCall
    requires threshold + 2 <= U64_MAX
  {
    CallFor(model, tier, true, TokensFor(x, threshold + 1, y, 0))
  }

  function ShortRequest(model: Option<string>, tier: Option<string>, y: Kind, x: Kind): UsageCall {
    CallFor(model, tier, true, TokensFor(y, 1, x, 0))
  }

  lemma PlusNothing(a: Amounts, k: Kind)
    ensures Plus(a, Portion(k, 0)) == a
  {
  }

  lemma TotalOfTwo(a: UsageCall, b: UsageCall)
    ensures TotalAmounts([a, b]) == Plus(AmountsOf(a.tokens), AmountsOf(b.tokens))
  {
    hide AmountsOf;
    assert [a, b][..1] == [a] && [a][..0] == [];
    assert TotalAmounts([a]) == Plus(TotalAmounts([]), AmountsOf(a.tokens));
  }

  lemma CrossedSplit(model: Option<string>, tier: Option<string>, threshold: U64, x: Kind, y: Kind)
    requires threshold + 2 <= U64_MAX
    ensures Splits(CrossedSample(model, tier, threshold, x, y),
                   [LongRequest(model, tier, threshold, x, y), ShortRequest(model, tier, y, x)])
  {
    hide TokensFor, AmountsOf, Unclassified, BreakdownFits, Portion, TotalAmounts;
    var a, b := LongRequest(model, tier, threshold, x, y), ShortRequest(model, tier, y, x);
    TokensForFacts(x, threshold + 1, y, 1);
    TokensForFacts(x, threshold + 1, y, 0);
    TokensForFacts(y, 1, x, 0);
    PlusNothing(Portion(x, threshold + 1), y);
    PlusNothing(Portion(y, 1), x);
    TotalOfTwo(a, b);
    assert [a, b][0] == a && [a, b][1] == b;
  }

  // ----- The prices

  /** What the catalogue's own checks demand of its threshold and rates, and room for one more token. */
  ghost predicate Configured(catalog: Catalog, rates: TierRates) {
    && 1 <= catalog.longContextThreshold <= U64_MAX - 2
    && (forall k :: RateOf(rates.short, k) <= MAX_RATE)
    && (rates.long.Published? ==> forall k :: RateOf(rates.long.rates, k) <= MAX_RATE)
  }

  lemma ProductBound(n: nat, r: nat)
    requires n <= U64_MAX && r <= MAX_RATE
    ensures Times(n, r) <= U128_MAX / 6
  {
    hide Times;
    TimesGrows(n, r, MAX_RATE);
    TimesIsProduct(n, MAX_RATE);
    assert n * MAX_RATE <= U64_MAX * MAX_RATE <= U128_MAX / 6;
  }

  /** Tokens of two kinds cost what they cost apart, and nothing is capped. */
  lemma TwoKindsCost(n: nat, x: Kind, m: nat, y: Kind, r: TokenRates)
    requires n <= U64_MAX && m <= U64_MAX && RateOf(r, x) <= MAX_RATE && RateOf(r, y) <= MAX_RATE
    ensures var cost := Cost(Plus(Portion(x, n), Portion(y, m)), r);
            Cap128(cost) == cost == Times(n, RateOf(r, x)) + Times(m, RateOf(r, y))
  {
    hide Cost, Portion, Times;
    CostAdds(Portion(x, n), Portion(y, m), r);
    PortionCost(x, n, r);
    PortionCost(y, m, r);
    ProductBound(n, RateOf(r, x));
    ProductBound(m, RateOf(r, y));
  }

  lemma SampleIsPriced(catalog: Catalog, sample: UsageCall, rates: TierRates)
    requires TierRatesFor(catalog, sample.model, sample.tier) == Success(rates) && rates.long.Published?
    requires Unclassified(sample.tokens) == 0 && BreakdownFits(sample.tokens)
    requires sample.tokens.cacheWriteInput == 0 || (rates.short.cacheWrite.Some? && rates.long.rates.cacheWrite.Some?)
    ensures PriceCall(catalog, sample).priced && RatesOf(catalog, sample) == rates
  {
    hide Unclassified, BreakdownFits, PriceUsage, TierRatesFor, AutoReviewUsesLuna, CoverageTokens;
    PriceIsCappedCost(sample.tokens, rates.short);
    PriceIsCappedCost(sample.tokens, rates.long.rates);
  }

  lemma SumOfTwo(a: nat, b: nat)
    ensures Sum([a, b]) == a + b
  {
    assert [a, b][..1] == [a] && [a][..0] == [];
    assert Sum([a]) == a;
  }

  ghost predicate InRange(catalog: Catalog, sample: UsageCall, parts: seq<UsageCall>) {
    var cost := PriceCall(catalog, sample);
    cost.minimum <= SaturatingSum(Prices(catalog, parts)) <= cost.maximum
  }

  /** `x` becomes dearer and `y` cheaper in a long request, or the other way round. */
  predicate Crossed(short: TokenRates, long: TokenRates, x: Kind, y: Kind) {
    || (RateOf(short, x) < RateOf(long, x) && RateOf(long, y) < RateOf(short, y))
    || (RateOf(long, x) < RateOf(short, x) && RateOf(short, y) < RateOf(long, y))
  }

  lemma SplitPrice(catalog: Catalog, model: Option<string>, tier: Option<string>, rates: TierRates, x: Kind, y: Kind)
    requires TierRatesFor(catalog, model, tier) == Success(rates) && rates.long.Published? && Configured(catalog, rates)
    requires !x.Output? && Charged(rates.short, rates.long.rates, x) && Charged(rates.short, rates.long.rates, y)
    ensures
      var t := catalog.longContextThreshold;
      var parts := [LongRequest(model, tier, t, x, y), ShortRequest(model, tier, y, x)];
      Sum(RequestCosts(catalog, rates, parts))
      == Times(t + 1, RateOf(rates.long.rates, x)) + Times(1, RateOf(rates.short, y))
  {
    hide Times, Cost, AmountsOf, TierRatesFor, TokensFor, Sum, Configured, Charged, Portion;
    var t := catalog.longContextThreshold;
    assert 1 <= t <= U64_MAX - 2 by { ThresholdOf(catalog, rates); }
    var a, b := LongRequest(model, tier, t, x, y), ShortRequest(model, tier, y, x);
    TokensForFacts(x, t + 1, y, 0);
    TokensForFacts(y, 1, x, 0);
    PlusNothing(Portion(x, t + 1), y);
    PlusNothing(Portion(y, 1), x);
    PortionCost(x, t + 1, rates.long.rates);
    PortionCost(y, 1, rates.short);
    assert a.tokens.input == t + 1 && b.tokens.input <= 1 by { InputsFor(x, t + 1, y, 0); InputsFor(y, 1, x, 0); }
    assert RequestCosts(catalog, rates, [a, b]) == [RequestCost(catalog, rates, a), RequestCost(catalog, rates, b)];
    SumOfTwo(RequestCost(catalog, rates, a), RequestCost(catalog, rates, b));
  }

  lemma ThresholdOf(catalog: Catalog, rates: TierRates)
    requires Configured(catalog, rates)
    ensures 1 <= catalog.longContextThreshold <= U64_MAX - 2
  {
  }

  lemma InputsFor(x: Kind, n: U64, y: Kind, m: U64)
    requires n + m <= U64_MAX
    ensures TokensFor(x, n, y, m).input == InputOf(x, n) + InputOf(y, m)
    ensures TokensFor(x, n, y, m).cacheWriteInput == Only(x, Write, n) + Only(y, Write, m)
  {
  }

  /** Crossed rates: the long request holds the one kind, the short one the other, and the sum leaves the range. */
  lemma CrossedRatesMissASplit(catalog: Catalog, model: Option<string>, tier: Option<string>, rates: TierRates,
                               x: Kind, y: Kind)
    requires TierRatesFor(catalog, model, tier) == Success(rates) && rates.long.Published? && Configured(catalog, rates)
    requires !x.Output? && Charged(rates.short, rates.long.rates, x) && Charged(rates.short, rates.long.rates, y)
    requires Crossed(rates.short, rates.long.rates, x, y)
    ensures
      var t := catalog.longContextThreshold;
      var sample := CrossedSample(model, tier, t, x, y);
      var parts := [LongRequest(model, tier, t, x, y), ShortRequest(model, tier, y, x)];
      PriceCall(catalog, sample).priced && Splits(sample, parts) && !InRange(catalog, sample, parts)
  {
    hide Times, Cost, AmountsOf, TierRatesFor, TokensFor, Sum, Portion, PriceCall, RequestCosts, SaturatingSum, RatesOf,
         Splits, LongRequest, ShortRequest, Unclassified, BreakdownFits, Cap128;
    var t := catalog.longContextThreshold;
    var sample := CrossedSample(model, tier, t, x, y);
    var parts := [LongRequest(model, tier, t, x, y), ShortRequest(model, tier, y, x)];
    var short, long := rates.short, rates.long.rates;
    CrossedSplit(model, tier, t, x, y);
    TokensForFacts(x, t + 1, y, 1);
    InputsFor(x, t + 1, y, 1);
    SampleIsPriced(catalog, sample, rates);
    SampleBounds(catalog, sample);
    PricesSumUp(catalog, sample, parts);
    SplitPrice(catalog, model, tier, rates, x, y);
    TwoKindsCost(t + 1, x, 1, y, short);
    TwoKindsCost(t + 1, x, 1, y, long);
    ProductBound(t + 1, RateOf(long, x));
    ProductBound(1, RateOf(short, y));
    var sum := Times(t + 1, RateOf(long, x)) + Times(1, RateOf(short, y));
    assert Cap128(sum) == sum by { NotCapped(sum); }
    if RateOf(short, x) < RateOf(long, x) {
      TimesGrowsStrictly(t + 1, RateOf(short, x), RateOf(long, x));
      TimesGrowsStrictly(1, RateOf(long, y), RateOf(short, y));
    } else {
      TimesGrowsStrictly(t + 1, RateOf(long, x), RateOf(short, x));
      TimesGrowsStrictly(1, RateOf(short, y), RateOf(long, y));
    }
  }

  lemma NotCapped(x: nat)
    requires x <= U128_MAX
    ensures Cap128(x) == x
  {
  }

  lemma TimesGrowsStrictly(n: nat, r: nat, s: nat)
    requires n > 0 && r < s
    ensures Times(n, r) < Times(n, s)
  {
    TimesGrows(n - 1, r, s);
  }

  // ----- The exact condition

  /** Every split of every priced sample of this model and tier lies within the sample's range. */
  ghost predicate RangeIsSound(catalog: Catalog, model: Option<string>, tier: Option<string>) {
    forall sample: UsageCall, parts: seq<UsageCall> ::
      sample.model == model && sample.tier == tier && PriceCall(catalog, sample).priced && Splits(sample, parts) ==>
        InRange(catalog, sample, parts)
  }

  lemma CrossedPair(short: TokenRates, long: TokenRates) returns (x: Kind, y: Kind)
    requires !Ordered(short, long) && !Ordered(long, short)
    ensures !x.Output? && Charged(short, long, x) && Charged(short, long, y) && Crossed(short, long, x, y)
  {
    var down := Falling(short, long);
    var up := Falling(long, short);
    if up.Output? {
      x, y := down, up;
    } else {
      x, y := up, down;
    }
  }

  lemma Falling(short: TokenRates, long: TokenRates) returns (k: Kind)
    requires !Ordered(short, long)
    ensures RateOf(long, k) < RateOf(short, k) && Charged(short, long, k)
  {
    k := if short.input > long.input then Regular
         else if short.cachedInput > long.cachedInput then Cached
         else if short.output > long.output then Output
         else Write;
  }

  /** The range is sound for a model and tier exactly if its rates are ordered, one way or the other. */
  lemma RangeIsSoundExactly(catalog: Catalog, model: Option<string>, tier: Option<string>)
    requires TierRatesFor(catalog, model, tier).Success?
    requires Configured(catalog, TierRatesFor(catalog, model, tier).value)
    ensures RangeIsSound(catalog, model, tier) <==> OrderedEitherWay(TierRatesFor(catalog, model, tier).value)
  {
    hide PriceCall, Splits, TierRatesFor, InRange, CrossedSample, LongRequest, ShortRequest, Ordered;
    var rates := TierRatesFor(catalog, model, tier).value;
    if OrderedEitherWay(rates) {
      forall sample: UsageCall, parts: seq<UsageCall>
        | sample.model == model && sample.tier == tier && PriceCall(catalog, sample).priced && Splits(sample, parts)
        ensures InRange(catalog, sample, parts)
      {
        OrderedIsInRange(catalog, sample, parts, rates);
      }
    } else {
      var x, y := CrossedPair(rates.short, rates.long.rates);
      CrossedRatesMissASplit(catalog, model, tier, rates, x, y);
      var t := catalog.longContextThreshold;
      assert CrossedSample(model, tier, t, x, y).model == model && CrossedSample(model, tier, t, x, y).tier == tier by {
        SampleKeepsTier(model, tier, t, x, y);
      }
    }
  }

  lemma SampleKeepsTier(model: Option<string>, tier: Option<string>, threshold: U64, x: Kind, y: Kind)
    requires threshold + 2 <= U64_MAX
    ensures CrossedSample(model, tier, threshold, x, y).model == model
    ensures CrossedSample(model, tier, threshold, x, y).tier == tier
  {
  }

  lemma OrderedIsInRange(catalog: Catalog, sample: UsageCall, parts: seq<UsageCall>, rates: TierRates)
    requires PriceCall(catalog, sample).priced && Splits(sample, parts)
    requires TierRatesFor(catalog, sample.model, sample.tier) == Success(rates) && OrderedEitherWay(rates)
    ensures InRange(catalog, sample, parts)
  {
    hide PriceCall, Splits, TierRatesFor, OrderedEitherWay, Prices, SaturatingSum;
    SplitPriceIsWithinRange(catalog, sample, parts);
  }

  /** A catalogue whose long output is free: no range of its samples can be trusted for every split. */
  lemma UnorderedRatesMissASplit()
    ensures
      var rates := TierRates(TokenRates(1, 0, None, 1), Published(TokenRates(2, 0, None, 0)));
      var catalog := Catalog(1, model => Some(ModelRates(rates, None)), (model, fast) => None,
                             fast => CreditRates(0, 0, 0), model => false);
      !RangeIsSound(catalog, None, Some("standard"))
  {
    var rates := TierRates(TokenRates(1, 0, None, 1), Published(TokenRates(2, 0, None, 0)));
    var catalog := Catalog(1, model => Some(ModelRates(rates, None)), (model, fast) => None,
                           fast => CreditRates(0, 0, 0), model => false);
    StandardTierIsKnown(catalog, rates);
    hide TierRatesFor, RangeIsSound;
    assert Configured(catalog, rates) by {
      assert MAX_RATE >= 2;
    }
    RangeIsSoundExactly(catalog, None, Some("standard"));
  }

  lemma StandardTierIsKnown(catalog: Catalog, rates: TierRates)
    requires catalog.apiRates(None) == Some(ModelRates(rates, None))
    ensures TierRatesFor(catalog, None, Some("standard")) == Success(rates)
  {
    assert TrimStart("standard") == "standard" && Trim("standard") == "standard";
    assert Nonempty(Some("standard")) == Some("standard");
  }
}
