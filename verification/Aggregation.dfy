/**
 Aggregating the calls of one window (src/attribution.rs, src/api_cost.rs).

 The result does not depend on the order of the calls, and every breakdown (by
 thread, by model) adds up to the total, saturation included.
 */
module Aggregation {
  import opened Time
  import opened Options
  import opened Saturating
  import opened Folding
  import opened Tokens
  import opened Dataset
  import opened Pricing
  import opened Credits

  // ----- API cost accumulator

  datatype ApiCost = ApiCost(
    minimum: U128,
    maximum: U128,
    observedSamples: U64,
    pricedSamples: U64,
    observedTokens: U64,
    pricedTokens: U64,
    reasons: set<Reason>)

  const NO_COST := ApiCost(0, 0, 0, 0, 0, 0, {})

  function AddCosts(a: ApiCost, b: ApiCost): ApiCost {
    ApiCost(
      Add128(a.minimum, b.minimum),
      Add128(a.maximum, b.maximum),
      Add64(a.observedSamples, b.observedSamples),
      Add64(a.pricedSamples, b.pricedSamples),
      Add64(a.observedTokens, b.observedTokens),
      Add64(a.pricedTokens, b.pricedTokens),
      a.reasons + b.reasons)
  }

  function ReasonSet(r: Option<Reason>): set<Reason> {
    if r.Some? then {r.value} else {}
  }

  /** What one priced or unpriced call contributes to every accumulator it is added to. */
  function CostOf(c: CallCost): ApiCost {
    ApiCost(
      if c.priced then c.minimum else 0,
      if c.priced then c.maximum else 0,
      1,
      if c.priced then 1 else 0,
      c.observedTokens,
      if c.priced then c.observedTokens else 0,
      ReasonSet(c.partialReason) + ReasonSet(c.assumptionReason))
  }

  lemma AddCostsAccumulates()
    ensures Accumulates(AddCosts, NO_COST) && Exchanges(AddCosts)
  {
    forall a, b ensures AddCosts(a, b) == AddCosts(b, a) {
    }
    forall a, b, c ensures AddCosts(AddCosts(a, b), c) == AddCosts(a, AddCosts(b, c)) {
      assert (a.reasons + b.reasons) + c.reasons == a.reasons + (b.reasons + c.reasons);
    }
    assert NO_COST.reasons + NO_COST.reasons == {};
    AccumulatesExchanges(AddCosts, NO_COST);
  }

  // ----- Usage accumulator

  datatype Usage = Usage(tokens: TokenUsage, units: U128, longContextExtra: U128)

  const NO_USAGE := Usage(NO_TOKENS, 0, 0)

  function AddUsages(a: Usage, b: Usage): Usage {
    Usage(Add(a.tokens, b.tokens), Add128(a.units, b.units), Add128(a.longContextExtra, b.longContextExtra))
  }

  lemma AddUsagesAccumulates()
    ensures Accumulates(AddUsages, NO_USAGE) && Exchanges(AddUsages)
  {
    hide Add;
    AddAccumulates();
    forall a, b ensures AddUsages(a, b) == AddUsages(b, a) {
    }
    forall a, b, c ensures AddUsages(AddUsages(a, b), c) == AddUsages(a, AddUsages(b, c)) {
    }
    AccumulatesExchanges(AddUsages, NO_USAGE);
  }

  function ProjectedUnits(u: Usage, longContext: bool): U128 {
    if longContext then Add128(u.units, u.longContextExtra) else u.units
  }

  // ----- The aggregation of a window

  datatype Window = Window(
    local: Usage,
    tasks: map<string, Usage>,
    turns: map<(string, string), Usage>,
    models: map<string, Usage>,
    modelFallback: bool,
    breakdownFallback: bool,
    detectionFallback: bool,
    apiTotal: ApiCost,
    apiThreads: map<string, ApiCost>,
    apiTurns: map<(string, string), ApiCost>,
    apiModels: map<string, ApiCost>)

  const EMPTY_WINDOW :=
    Window(NO_USAGE, map[], map[], map[], false, false, false, NO_COST, map[], map[], map[])

  predicate IsSpark(model: Option<string>) {
    IsModel(model, "gpt-5.3-codex-spark")
  }

  function ModelName(call: UsageCall): string {
    match Nonempty(call.model)
    case Some(name) => name
    case None => "unknown"
  }

  /** Everything the aggregation looks at in a call. */
  datatype Contribution = Contribution(
    thread: string, turn: Option<string>, model: string, spark: bool, usage: Usage, cost: ApiCost,
    modelFallback: bool, breakdownFallback: bool, detectionFallback: bool)

  function ContributionOf(catalog: Catalog, call: UsageCall): Contribution {
    var w := Estimate(catalog, call);
    Contribution(
      call.thread, call.turn, ModelName(call), IsSpark(call.model),
      Usage(call.tokens, w.units, w.longContextExtra), CostOf(PriceCall(catalog, call)),
      w.modelFallback, w.breakdownFallback, w.detectionFallback)
  }

  function TaskMap(m: map<string, Usage>, c: Contribution): map<string, Usage> {
    if c.spark then Touch(NO_USAGE, m, c.thread) else Bump(AddUsages, NO_USAGE, m, c.thread, c.usage)
  }

  function TurnMap(m: map<(string, string), Usage>, c: Contribution): map<(string, string), Usage> {
    if c.turn.None? then m
    else if c.spark then Touch(NO_USAGE, m, (c.thread, c.turn.value))
    else Bump(AddUsages, NO_USAGE, m, (c.thread, c.turn.value), c.usage)
  }

  function ModelMap(m: map<string, Usage>, c: Contribution): map<string, Usage> {
    if c.spark then m else Bump(AddUsages, NO_USAGE, m, c.model, c.usage)
  }

  function ApiThreadMap(m: map<string, ApiCost>, c: Contribution): map<string, ApiCost> {
    Bump(AddCosts, NO_COST, m, c.thread, c.cost)
  }

  function ApiTurnMap(m: map<(string, string), ApiCost>, c: Contribution): map<(string, string), ApiCost> {
    if c.turn.None? then m else Bump(AddCosts, NO_COST, m, (c.thread, c.turn.value), c.cost)
  }

  function ApiModelMap(m: map<string, ApiCost>, c: Contribution): map<string, ApiCost> {
    Bump(AddCosts, NO_COST, m, c.model, c.cost)
  }

  /** Spark calls count for the API cost only, but still make their thread and turn appear. */
  function Absorb(w: Window, c: Contribution): Window {
    Window(
      if c.spark then w.local else AddUsages(w.local, c.usage),
      TaskMap(w.tasks, c),
      TurnMap(w.turns, c),
      ModelMap(w.models, c),
      w.modelFallback || (!c.spark && c.modelFallback),
      w.breakdownFallback || (!c.spark && c.breakdownFallback),
      w.detectionFallback || (!c.spark && c.detectionFallback),
      AddCosts(w.apiTotal, c.cost),
      ApiThreadMap(w.apiThreads, c),
      ApiTurnMap(w.apiTurns, c),
      ApiModelMap(w.apiModels, c))
  }

  /** The call falls into the window. */
  predicate InWindow(call: UsageCall, startsAt: Instant, endsAt: Instant, now: Instant) {
    call.timestamp >= startsAt && call.timestamp <= now && call.timestamp <= endsAt
  }

  datatype Bounds = Bounds(startsAt: Instant, endsAt: Instant, now: Instant)

  function WindowStep(catalog: Catalog, b: Bounds): (Window, UsageCall) -> Window {
    (w: Window, call: UsageCall) =>
      if InWindow(call, b.startsAt, b.endsAt, b.now) then Absorb(w, ContributionOf(catalog, call)) else w
  }

  function Aggregate(catalog: Catalog, calls: seq<UsageCall>, b: Bounds): Window {
    Fold(WindowStep(catalog, b), EMPTY_WINDOW, calls)
  }

  // ----- Order independence

  lemma BumpsExchange<K, A(!new)>(op: (A, A) -> A, zero: A, m: map<K, A>, k: K, v: A, l: K, w: A)
    requires Exchanges(op)
    ensures Bump(op, zero, Bump(op, zero, m, k, v), l, w) == Bump(op, zero, Bump(op, zero, m, l, w), k, v)
  {
  }

  lemma BumpTouchExchange<K, A(!new)>(op: (A, A) -> A, zero: A, m: map<K, A>, k: K, v: A, l: K)
    ensures Touch(zero, Bump(op, zero, m, k, v), l) == Bump(op, zero, Touch(zero, m, l), k, v)
  {
  }

  lemma TouchesExchange<K, A(!new)>(zero: A, m: map<K, A>, k: K, l: K)
    ensures Touch(zero, Touch(zero, m, k), l) == Touch(zero, Touch(zero, m, l), k)
  {
  }

  lemma UsageMapsExchange(w: Window, x: Contribution, y: Contribution)
    ensures TaskMap(TaskMap(w.tasks, x), y) == TaskMap(TaskMap(w.tasks, y), x)
    ensures TurnMap(TurnMap(w.turns, x), y) == TurnMap(TurnMap(w.turns, y), x)
    ensures ModelMap(ModelMap(w.models, x), y) == ModelMap(ModelMap(w.models, y), x)
  {
    hide AddUsages, Bump, Touch;
    AddUsagesAccumulates();
    BumpsExchange(AddUsages, NO_USAGE, w.tasks, x.thread, x.usage, y.thread, y.usage);
    BumpTouchExchange(AddUsages, NO_USAGE, w.tasks, x.thread, x.usage, y.thread);
    BumpTouchExchange(AddUsages, NO_USAGE, w.tasks, y.thread, y.usage, x.thread);
    TouchesExchange(NO_USAGE, w.tasks, x.thread, y.thread);
    BumpsExchange(AddUsages, NO_USAGE, w.models, x.model, x.usage, y.model, y.usage);
    if x.turn.Some? && y.turn.Some? {
      var k, l := (x.thread, x.turn.value), (y.thread, y.turn.value);
      BumpsExchange(AddUsages, NO_USAGE, w.turns, k, x.usage, l, y.usage);
      BumpTouchExchange(AddUsages, NO_USAGE, w.turns, k, x.usage, l);
      BumpTouchExchange(AddUsages, NO_USAGE, w.turns, l, y.usage, k);
      TouchesExchange(NO_USAGE, w.turns, k, l);
    }
  }

  lemma CostMapsExchange(w: Window, x: Contribution, y: Contribution)
    ensures ApiThreadMap(ApiThreadMap(w.apiThreads, x), y) == ApiThreadMap(ApiThreadMap(w.apiThreads, y), x)
    ensures ApiTurnMap(ApiTurnMap(w.apiTurns, x), y) == ApiTurnMap(ApiTurnMap(w.apiTurns, y), x)
    ensures ApiModelMap(ApiModelMap(w.apiModels, x), y) == ApiModelMap(ApiModelMap(w.apiModels, y), x)
  {
    hide AddCosts, Bump;
    AddCostsAccumulates();
    BumpsExchange(AddCosts, NO_COST, w.apiThreads, x.thread, x.cost, y.thread, y.cost);
    BumpsExchange(AddCosts, NO_COST, w.apiModels, x.model, x.cost, y.model, y.cost);
    if x.turn.Some? && y.turn.Some? {
      BumpsExchange(AddCosts, NO_COST, w.apiTurns, (x.thread, x.turn.value), x.cost, (y.thread, y.turn.value), y.cost);
    }
  }

  lemma AbsorbExchanges(w: Window, x: Contribution, y: Contribution)
    ensures Absorb(Absorb(w, x), y) == Absorb(Absorb(w, y), x)
  {
    hide AddUsages, AddCosts, TaskMap, TurnMap, ModelMap, ApiThreadMap, ApiTurnMap, ApiModelMap;
    UsageMapsExchange(w, x, y);
    CostMapsExchange(w, x, y);
    AddUsagesAccumulates();
    AddCostsAccumulates();
  }

  /** A window aggregation depends only on which calls there are, not on their order. */
  lemma AggregateIgnoresOrder(catalog: Catalog, s: seq<UsageCall>, t: seq<UsageCall>, b: Bounds)
    requires multiset(s) == multiset(t)
    ensures Aggregate(catalog, s, b) == Aggregate(catalog, t, b)
  {
    hide Absorb, ContributionOf;
    var step := WindowStep(catalog, b);
    forall w, x, y ensures step(step(w, x), y) == step(step(w, y), x) {
      AbsorbExchanges(w, ContributionOf(catalog, x), ContributionOf(catalog, y));
    }
    FoldPermutation(step, EMPTY_WINDOW, s, t);
  }

  // ----- Conservation

  /** Every breakdown of the window adds up to its total. */
  ghost predicate AddsUp(w: Window) {
    && MapSum(AddUsages, NO_USAGE, w.tasks) == w.local
    && MapSum(AddUsages, NO_USAGE, w.models) == w.local
    && MapSum(AddCosts, NO_COST, w.apiThreads) == w.apiTotal
    && MapSum(AddCosts, NO_COST, w.apiModels) == w.apiTotal
  }

  lemma AbsorbAddsUp(w: Window, c: Contribution)
    requires AddsUp(w)
    ensures AddsUp(Absorb(w, c))
  {
    hide AddUsages, AddCosts, MapSum, Bump, Touch;
    AddUsagesAccumulates();
    AddCostsAccumulates();
    MapSumBump(AddUsages, NO_USAGE, w.tasks, c.thread, c.usage);
    MapSumTouch(AddUsages, NO_USAGE, w.tasks, c.thread);
    MapSumBump(AddUsages, NO_USAGE, w.models, c.model, c.usage);
    MapSumBump(AddCosts, NO_COST, w.apiThreads, c.thread, c.cost);
    MapSumBump(AddCosts, NO_COST, w.apiModels, c.model, c.cost);
  }

  /** The price range is a range, and nothing is priced that was not observed. */
  predicate Sound(c: ApiCost) {
    c.minimum <= c.maximum && c.pricedSamples <= c.observedSamples && c.pricedTokens <= c.observedTokens
  }

  ghost predicate AllSound(w: Window) {
    && Sound(w.apiTotal)
    && (forall k :: k in w.apiThreads ==> Sound(w.apiThreads[k]))
    && (forall k :: k in w.apiTurns ==> Sound(w.apiTurns[k]))
    && (forall k :: k in w.apiModels ==> Sound(w.apiModels[k]))
  }

  lemma PriceIsSound(catalog: Catalog, call: UsageCall)
    ensures Sound(CostOf(PriceCall(catalog, call)))
  {
    hide TierRatesFor, PriceUsage, AutoReviewUsesLuna, CoverageTokens, BreakdownFits, Unclassified;
  }

  lemma SumIsSound(a: ApiCost, b: ApiCost)
    requires Sound(a) && Sound(b)
    ensures Sound(AddCosts(a, b))
  {
  }

  lemma AbsorbIsSound(w: Window, c: Contribution)
    requires AllSound(w) && Sound(c.cost)
    ensures AllSound(Absorb(w, c))
  {
    hide Sound, AddCosts, TaskMap, TurnMap, ModelMap, AddUsages;
    forall a | Sound(a) ensures Sound(AddCosts(a, c.cost)) {
      SumIsSound(a, c.cost);
    }
    NoCostIsSound();
  }

  lemma NoCostIsSound()
    ensures Sound(NO_COST)
  {
  }

  /** For every list of calls, all breakdowns add up and all price ranges are sound. */
  lemma {:induction false} AggregateAddsUp(catalog: Catalog, calls: seq<UsageCall>, b: Bounds)
    ensures AddsUp(Aggregate(catalog, calls, b))
    ensures AllSound(Aggregate(catalog, calls, b))
  {
    hide AddsUp, AllSound, Absorb, ContributionOf, Sound;
    if calls == [] {
      EmptyAddsUp();
    } else {
      AggregateAddsUp(catalog, calls[..|calls| - 1], b);
      var w, call := Aggregate(catalog, calls[..|calls| - 1], b), calls[|calls| - 1];
      AbsorbAddsUp(w, ContributionOf(catalog, call));
      ContributionIsSound(catalog, call);
      AbsorbIsSound(w, ContributionOf(catalog, call));
    }
  }

  lemma ContributionIsSound(catalog: Catalog, call: UsageCall)
    ensures Sound(ContributionOf(catalog, call).cost)
  {
    hide Sound, CostOf, PriceCall, Estimate;
    PriceIsSound(catalog, call);
  }

  lemma EmptyAddsUp()
    ensures AddsUp(EMPTY_WINDOW) && AllSound(EMPTY_WINDOW)
  {
  }

  // ----- Spark

  /** The calls of the window that count for the quota. */
  function QuotaCalls(calls: seq<UsageCall>, b: Bounds): seq<UsageCall> {
    if calls == [] then
      []
    else
      var init, c := QuotaCalls(calls[..|calls| - 1], b), calls[|calls| - 1];
      if InWindow(c, b.startsAt, b.endsAt, b.now) && !IsSpark(c.model) then init + [c] else init
  }

  function UsagesOf(catalog: Catalog, calls: seq<UsageCall>): seq<Usage> {
    seq(|calls|, i requires 0 <= i < |calls| => ContributionOf(catalog, calls[i]).usage)
  }

  /** The local usage is exactly the usage of the window's calls that are not Spark calls. */
  lemma {:induction false} LocalUsageLeavesOutSpark(catalog: Catalog, calls: seq<UsageCall>, b: Bounds)
    ensures Aggregate(catalog, calls, b).local == Fold(AddUsages, NO_USAGE, UsagesOf(catalog, QuotaCalls(calls, b)))
  {
    hide AddUsages, TaskMap, TurnMap, ModelMap, ApiThreadMap, ApiTurnMap, ApiModelMap, AddCosts, Estimate, PriceCall,
         IsSpark;
    if calls != [] {
      var init, c := calls[..|calls| - 1], calls[|calls| - 1];
      LocalUsageLeavesOutSpark(catalog, init, b);
      if InWindow(c, b.startsAt, b.endsAt, b.now) && !IsSpark(c.model) {
        var before := QuotaCalls(init, b);
        assert UsagesOf(catalog, before + [c]) == UsagesOf(catalog, before) + [ContributionOf(catalog, c).usage];
        FoldExtend(AddUsages, NO_USAGE, UsagesOf(catalog, before), ContributionOf(catalog, c).usage);
      }
    }
  }
}
