/** Codex credit units of a usage sample (`estimate_call_weight` in src/attribution.rs). */
module Credits {
  import opened Options
  import opened Saturating
  import opened Text
  import opened Tokens
  import opened Dataset
  import opened Pricing

  datatype Weight = Weight(
    units: U128,
    longContextExtra: U128,
    modelFallback: bool,
    breakdownFallback: bool,
    usedLongContext: bool,
    detectionFallback: bool)

  predicate IsFast(tier: Option<string>) {
    tier.Some? && (EqualsIgnoringCase(Trim(tier.value), "fast") || EqualsIgnoringCase(Trim(tier.value), "priority"))
  }

  function LongContext(r: CreditRates): CreditRates {
    CreditRates(Cap128(r.input + r.input), Cap128(r.cachedInput + r.cachedInput),
                Cap128(r.output + r.output + r.output) / 2)
  }

  function CreditUnits(input: U64, cached: U64, output: U64, r: CreditRates): U128 {
    Add128(Add128(Mul128(input, r.input), Mul128(cached, r.cachedInput)), Mul128(output, r.output))
  }

  function Sub128(a: U128, b: U128): U128 {
    if a >= b then a - b else 0
  }

  function BaseRates(catalog: Catalog, call: UsageCall): CreditRates {
    match catalog.creditRates(call.model, IsFast(call.tier))
    case Some(rates) => rates
    case None => catalog.fallbackCreditRates(IsFast(call.tier))
  }

  predicate SupportsLongContext(catalog: Catalog, call: UsageCall) {
    catalog.creditRates(call.model, IsFast(call.tier)).Some? && catalog.creditLongContext(call.model)
  }

  /** Whether the surcharge applies, and whether it might although that cannot be seen. */
  function Detect(catalog: Catalog, call: UsageCall): (bool, bool) {
    var t := call.tokens;
    if !SupportsLongContext(catalog, call) || IsZero(t) then
      (false, false)
    else if call.requestExact && Unclassified(t) == 0 then
      (t.input > catalog.longContextThreshold, false)
    else if (if Unclassified(t) > 0 then t.total else t.input) <= catalog.longContextThreshold then
      (false, false)
    else
      (false, true)
  }

  function CachedInput(t: TokenUsage): U64 {
    if t.cachedInput <= t.input then t.cachedInput else t.input
  }

  function FullInput(t: TokenUsage): U64 {
    Add64(t.input - CachedInput(t), Unclassified(t))
  }

  function Estimate(catalog: Catalog, call: UsageCall): Weight {
    var t, base := call.tokens, BaseRates(catalog, call);
    var (long, ambiguous) := Detect(catalog, call);
    var units := CreditUnits(FullInput(t), CachedInput(t), t.output, base);
    var longUnits := CreditUnits(FullInput(t), CachedInput(t), t.output, if long then LongContext(base) else base);
    Weight(
      units,
      Sub128(longUnits, units),
      catalog.creditRates(call.model, IsFast(call.tier)).None? && !IsZero(t),
      Unclassified(t) > 0,
      long,
      ambiguous)
  }

  // ----- Splitting a sample into requests

  /** The tokens that credits are charged for; cache writes are input like any other. */
  datatype Charge = Charge(input: nat, cached: nat, output: nat)

  function ChargeOf(t: TokenUsage): Charge {
    Charge(t.input - CachedInput(t), CachedInput(t), t.output)
  }

  function PlusCharge(a: Charge, b: Charge): Charge {
    Charge(a.input + b.input, a.cached + b.cached, a.output + b.output)
  }

  function TotalCharge(parts: seq<UsageCall>): Charge {
    if parts == [] then
      Charge(0, 0, 0)
    else
      PlusCharge(TotalCharge(parts[..|parts| - 1]), ChargeOf(parts[|parts| - 1].tokens))
  }

  /** A request of the same model and tier whose tokens are classified. */
  predicate IsPartOf(sample: UsageCall, part: UsageCall) {
    part.requestExact && part.model == sample.model && part.tier == sample.tier && Unclassified(part.tokens) == 0
  }

  /** `parts` are requests that together account for the charged tokens of the classified sample. */
  predicate SplitsCharge(sample: UsageCall, parts: seq<UsageCall>) {
    && Unclassified(sample.tokens) == 0
    && (forall i :: 0 <= i < |parts| ==> IsPartOf(sample, parts[i]))
    && TotalCharge(parts) == ChargeOf(sample.tokens)
  }

  function CreditCost(a: Charge, r: CreditRates): nat {
    Times(a.input, r.input) + Times(a.cached, r.cachedInput) + Times(a.output, r.output)
  }

  lemma UnitsAreCappedCost(t: TokenUsage, r: CreditRates)
    requires Unclassified(t) == 0
    ensures CreditUnits(FullInput(t), CachedInput(t), t.output, r) == Cap128(CreditCost(ChargeOf(t), r))
  {
    hide Cap128, Add128, Times, Unclassified, CachedInput;
    assert FullInput(t) == t.input - CachedInput(t);
    var a, b, c := Times(FullInput(t), r.input), Times(CachedInput(t), r.cachedInput), Times(t.output, r.output);
    AddCapped(a, b);
    AddCapped(a + b, c);
  }

  lemma CreditCostAdds(a: Charge, b: Charge, r: CreditRates)
    ensures CreditCost(PlusCharge(a, b), r) == CreditCost(a, r) + CreditCost(b, r)
  {
    hide Times;
    TimesAdds(a.input, b.input, r.input);
    TimesAdds(a.cached, b.cached, r.cachedInput);
    TimesAdds(a.output, b.output, r.output);
  }

  function PartCosts(parts: seq<UsageCall>, r: CreditRates): seq<nat> {
    seq(|parts|, i requires 0 <= i < |parts| => CreditCost(ChargeOf(parts[i].tokens), r))
  }

  function PartUnits(catalog: Catalog, parts: seq<UsageCall>): seq<U128> {
    seq(|parts|, i requires 0 <= i < |parts| => Estimate(catalog, parts[i]).units)
  }

  function PartExtras(catalog: Catalog, parts: seq<UsageCall>): seq<U128> {
    seq(|parts|, i requires 0 <= i < |parts| => Estimate(catalog, parts[i]).longContextExtra)
  }

  lemma {:induction false} PartCostsAddUp(parts: seq<UsageCall>, r: CreditRates)
    ensures Sum(PartCosts(parts, r)) == CreditCost(TotalCharge(parts), r)
  {
    hide CreditCost, ChargeOf;
    if parts == [] {
      NothingWeighsNothing(r);
    } else {
      var init, part := parts[..|parts| - 1], parts[|parts| - 1];
      PartCostsAddUp(init, r);
      CreditCostAdds(TotalCharge(init), ChargeOf(part.tokens), r);
      assert PartCosts(parts, r)[..|parts| - 1] == PartCosts(init, r);
    }
  }

  lemma NothingWeighsNothing(r: CreditRates)
    ensures CreditCost(Charge(0, 0, 0), r) == 0
  {
  }

  lemma PartUnitsAreCapped(catalog: Catalog, sample: UsageCall, part: UsageCall)
    requires IsPartOf(sample, part)
    ensures Estimate(catalog, part).units == Cap128(CreditCost(ChargeOf(part.tokens), BaseRates(catalog, sample)))
  {
    hide Cap128, CreditCost, CreditUnits, Unclassified, Detect, IsFast;
    UnitsAreCappedCost(part.tokens, BaseRates(catalog, sample));
  }

  /**
   A classified sample weighs exactly what its requests weigh together, even when
   amounts saturate, and whatever its cache writes and its total say.
   */
  lemma SplitUnitsAreExact(catalog: Catalog, sample: UsageCall, parts: seq<UsageCall>)
    requires SplitsCharge(sample, parts)
    ensures SaturatingSum(PartUnits(catalog, parts)) == Estimate(catalog, sample).units
  {
    hide Cap128, CreditCost, CreditUnits, Unclassified, Detect, IsFast, BaseRates, TotalCharge, SaturatingSum, Sum,
         ChargeOf;
    var r := BaseRates(catalog, sample);
    UnitsAreCappedCost(sample.tokens, r);
    PartCostsAddUp(parts, r);
    forall i | 0 <= i < |parts|
      ensures Estimate(catalog, parts[i]).units == Cap128(CreditCost(ChargeOf(parts[i].tokens), r))
    {
      PartUnitsAreCapped(catalog, sample, parts[i]);
    }
    CappedTermsSumToCappedSum(PartCosts(parts, r), PartUnits(catalog, parts));
  }

  lemma {:induction false} ZerosSumToZero(s: seq<U128>)
    requires forall i :: 0 <= i < |s| ==> s[i] == 0
    ensures SaturatingSum(s) == 0
  {
    if s != [] {
      ZerosSumToZero(s[..|s| - 1]);
    }
  }

  lemma {:induction false} PartChargesAreSmaller(parts: seq<UsageCall>, i: nat)
    requires i < |parts|
    ensures parts[i].tokens.input <= TotalCharge(parts).input + TotalCharge(parts).cached
  {
    if i < |parts| - 1 {
      PartChargesAreSmaller(parts[..|parts| - 1], i);
    }
  }

  lemma ShortPartHasNoExtra(catalog: Catalog, sample: UsageCall, part: UsageCall)
    requires !sample.requestExact && Unclassified(sample.tokens) == 0 && IsPartOf(sample, part)
    requires part.tokens.input <= sample.tokens.input
    requires !Estimate(catalog, sample).detectionFallback
    ensures Estimate(catalog, part).longContextExtra == 0
  {
    hide CreditUnits, IsFast, BaseRates;
    assert SupportsLongContext(catalog, part) == SupportsLongContext(catalog, sample);
  }

  /**
   A classified sample that is not an exact request is charged no surcharge at all, so
   its estimate is a lower bound of what any split pays; unless it is flagged as
   ambiguous, no split pays a surcharge either and the estimate is exact.
   */
  lemma SplitExtraIsLowerBound(catalog: Catalog, sample: UsageCall, parts: seq<UsageCall>)
    requires SplitsCharge(sample, parts) && !sample.requestExact
    ensures Estimate(catalog, sample).longContextExtra == 0 <= SaturatingSum(PartExtras(catalog, parts))
    ensures !Estimate(catalog, sample).detectionFallback ==> SaturatingSum(PartExtras(catalog, parts)) == 0
  {
    hide CreditUnits, IsFast, BaseRates, TotalCharge, SaturatingSum, Unclassified, SupportsLongContext;
    assert Estimate(catalog, sample).longContextExtra == 0;
    if !Estimate(catalog, sample).detectionFallback {
      forall i | 0 <= i < |parts| ensures Estimate(catalog, parts[i]).longContextExtra == 0 {
        PartChargesAreSmaller(parts, i);
        ShortPartHasNoExtra(catalog, sample, parts[i]);
      }
      ZerosSumToZero(PartExtras(catalog, parts));
    }
  }

  /** The ambiguity flag is raised exactly when the sample, read as one request, would pay the surcharge. */
  lemma AmbiguousMeansPossiblyLong(catalog: Catalog, sample: UsageCall)
    requires !sample.requestExact && Unclassified(sample.tokens) == 0
    ensures Estimate(catalog, sample).detectionFallback
       <==> Estimate(catalog, sample.(requestExact := true)).usedLongContext
  {
    hide CreditUnits, IsFast, BaseRates;
    assert SupportsLongContext(catalog, sample.(requestExact := true)) == SupportsLongContext(catalog, sample);
  }
}
