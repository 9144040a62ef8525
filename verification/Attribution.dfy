/**
 Window analysis (src/attribution.rs): shares of tokens and of the quota gauge.
 Percentages are real numbers here, so rounding is not part of the statements.
 */
module Attribution {
  import opened Time
  import opened Saturating
  import opened Folding
  import opened Tokens
  import opened Dataset
  import opened Pricing
  import opened Credits
  import opened Aggregation

  datatype Confidence = High | Medium | Low | UnknownConfidence

  /** The quota window under analysis: the gauge, its bounds and whether the reading is stale. */
  datatype Selected = Selected(limitId: string, durationMins: nat, usedPercent: real, provenance: Provenance,
                               startsAt: Instant, endsAt: Instant)

  datatype WindowUsage = WindowUsage(tokenUsage: TokenUsage, tokenShare: real, quota: real, confidence: Confidence,
                                     apiCost: ApiCost)

  datatype PartialReason = QuotaWindowStale | UnpricedModelRateFallback | TokenBreakdownAbsent | LongContextUsageUnknown

  datatype Analysis = Analysis(
    selected: Selected,
    usedPercent: real,
    settled: bool,
    localTokens: TokenUsage,
    confidence: Confidence,
    projectedPercent: real,
    threads: map<string, WindowUsage>,
    turns: map<(string, string), WindowUsage>,
    models: map<string, WindowUsage>,
    partialReasons: seq<PartialReason>,
    apiTotal: ApiCost,
    apiModels: map<string, ApiCost>)

  function Clamp(x: real): real {
    if x < 0.0 then 0.0 else if x > 100.0 then 100.0 else x
  }

  /** `part` as a percentage of `whole`, and 0 when there is nothing to share. */
  function Share(part: nat, whole: nat): real {
    if whole == 0 then 0.0 else part as real / whole as real * 100.0
  }

  /** The entry's part of the quota gauge, in proportion to its credit units. */
  function QuotaOf(used: real, longContext: bool, local: Usage, u: Usage): real {
    Scale(used, Share(ProjectedUnits(u, longContext), ProjectedUnits(local, longContext)))
  }

  function Scale(used: real, percent: real): real {
    used * percent / 100.0
  }

  /** The API amount of an entry; reasons are reported for the total only. */
  function AmountAt<K>(m: map<K, ApiCost>, k: K): ApiCost {
    if k in m then m[k].(reasons := {}) else NO_COST
  }

  function UsageFor(used: real, longContext: bool, local: Usage, confidence: Confidence, u: Usage,
                    cost: ApiCost): WindowUsage {
    WindowUsage(
      u.tokens,
      Share(u.tokens.total, local.tokens.total),
      QuotaOf(used, longContext, local, u),
      if IsZero(u.tokens) then UnknownConfidence else confidence,
      cost)
  }

  function Reasons(w: Window, longContext: bool, stale: bool): seq<PartialReason> {
    (if stale then [QuotaWindowStale] else [])
    + (if w.modelFallback then [UnpricedModelRateFallback] else [])
    + (if w.breakdownFallback then [TokenBreakdownAbsent] else [])
    + (if longContext && w.detectionFallback then [LongContextUsageUnknown] else [])
  }

  function Build(selected: Selected, settled: bool, longContext: bool, w: Window): Analysis {
    var used := Clamp(selected.usedPercent);
    var none := w.local.tokens.total == 0;
    var confidence := if none then UnknownConfidence else Low;
    Analysis(
      selected, used, settled, w.local.tokens, confidence, if none then 0.0 else used,
      map k | k in w.tasks :: UsageFor(used, longContext, w.local, confidence, w.tasks[k], AmountAt(w.apiThreads, k)),
      map k | k in w.turns :: UsageFor(used, longContext, w.local, confidence, w.turns[k], AmountAt(w.apiTurns, k)),
      map k | k in w.models ::
        UsageFor(used, longContext, w.local, confidence, w.models[k],
                 AmountAt(w.apiModels, k)).(confidence := confidence),
      Reasons(w, longContext, selected.provenance == StaleSource || selected.provenance == UnknownSource),
      w.apiTotal,
      map k | k in w.apiModels :: w.apiModels[k].(reasons := {}))
  }

  /** The analysis of one window and its long-context variant. */
  function Analyze(catalog: Catalog, calls: seq<UsageCall>, selected: Selected, now: Instant, settled: bool)
    : (Analysis, Analysis)
  {
    var w := Aggregate(catalog, calls, Bounds(selected.startsAt, selected.endsAt, now));
    (Build(selected, settled, false, w), Build(selected, settled, true, w))
  }

  // ----- The loop over the calls

  /** The accumulators of one window, updated call by call. */
  class WindowAggregation {
    var local: Usage
    var tasks: map<string, Usage>
    var turns: map<(string, string), Usage>
    var models: map<string, Usage>
    var modelFallback: bool
    var breakdownFallback: bool
    var detectionFallback: bool
    var apiTotal: ApiCost
    var apiThreads: map<string, ApiCost>
    var apiTurns: map<(string, string), ApiCost>
    var apiModels: map<string, ApiCost>

    constructor ()
      ensures View() == EMPTY_WINDOW
    {
      local, tasks, turns, models := NO_USAGE, map[], map[], map[];
      modelFallback, breakdownFallback, detectionFallback := false, false, false;
      apiTotal, apiThreads, apiTurns, apiModels := NO_COST, map[], map[], map[];
    }

    function View(): Window
      reads this
    {
      Window(local, tasks, turns, models, modelFallback, breakdownFallback, detectionFallback,
             apiTotal, apiThreads, apiTurns, apiModels)
    }

    method AddApiCost(c: Contribution)
      modifies `apiTotal, `apiThreads, `apiTurns, `apiModels
      ensures apiTotal == AddCosts(old(apiTotal), c.cost)
      ensures apiThreads == ApiThreadMap(old(apiThreads), c)
      ensures apiTurns == ApiTurnMap(old(apiTurns), c)
      ensures apiModels == ApiModelMap(old(apiModels), c)
    {
      hide AddCosts, Bump;
      apiTotal := AddCosts(apiTotal, c.cost);
      apiThreads := Bump(AddCosts, NO_COST, apiThreads, c.thread, c.cost);
      if c.turn.Some? {
        apiTurns := Bump(AddCosts, NO_COST, apiTurns, (c.thread, c.turn.value), c.cost);
      }
      apiModels := Bump(AddCosts, NO_COST, apiModels, c.model, c.cost);
    }

    method AddQuotaUsage(c: Contribution)
      modifies `local, `tasks, `turns, `models
      ensures local == if c.spark then old(local) else AddUsages(old(local), c.usage)
      ensures tasks == TaskMap(old(tasks), c)
      ensures turns == TurnMap(old(turns), c)
      ensures models == ModelMap(old(models), c)
    {
      hide AddUsages, Bump, Touch;
      if c.spark {
        tasks := Touch(NO_USAGE, tasks, c.thread);
        if c.turn.Some? {
          turns := Touch(NO_USAGE, turns, (c.thread, c.turn.value));
        }
        return;
      }
      local := AddUsages(local, c.usage);
      tasks := Bump(AddUsages, NO_USAGE, tasks, c.thread, c.usage);
      if c.turn.Some? {
        turns := Bump(AddUsages, NO_USAGE, turns, (c.thread, c.turn.value), c.usage);
      }
      models := Bump(AddUsages, NO_USAGE, models, c.model, c.usage);
    }

    method AddCall(catalog: Catalog, call: UsageCall)
      modifies this
      ensures View() == Absorb(old(View()), ContributionOf(catalog, call))
    {
      hide AddUsages, AddCosts, ContributionOf, TaskMap, TurnMap, ModelMap, ApiThreadMap, ApiTurnMap, ApiModelMap;
      var c := ContributionOf(catalog, call);
      AddApiCost(c);
      AddQuotaUsage(c);
      if !c.spark {
        modelFallback := modelFallback || c.modelFallback;
        breakdownFallback := breakdownFallback || c.breakdownFallback;
        detectionFallback := detectionFallback || c.detectionFallback;
      }
    }
  }

  method AnalyzeSelectedWindow(catalog: Catalog, calls: seq<UsageCall>, selected: Selected, now: Instant, settled: bool)
    returns (base: Analysis, longContext: Analysis)
    ensures (base, longContext) == Analyze(catalog, calls, selected, now, settled)
  {
    hide Absorb, ContributionOf, Build;
    var aggregation := new WindowAggregation();
    ghost var b := Bounds(selected.startsAt, selected.endsAt, now);
    for i := 0 to |calls|
      invariant aggregation.View() == Aggregate(catalog, calls[..i], b)
    {
      assert calls[..i + 1] == calls[..i] + [calls[i]];
      FoldExtend(WindowStep(catalog, b), EMPTY_WINDOW, calls[..i], calls[i]);
      if InWindow(calls[i], selected.startsAt, selected.endsAt, now) {
        aggregation.AddCall(catalog, calls[i]);
      }
    }
    assert calls[..|calls|] == calls;
    longContext := Build(selected, settled, true, aggregation.View());
    base := Build(selected, settled, false, aggregation.View());
  }

  /** Two call lists with the same calls have the same analysis, in every field. */
  lemma AnalysisIgnoresOrder(catalog: Catalog, s: seq<UsageCall>, t: seq<UsageCall>, selected: Selected, now: Instant,
                             settled: bool)
    requires multiset(s) == multiset(t)
    ensures Analyze(catalog, s, selected, now, settled) == Analyze(catalog, t, selected, now, settled)
  {
    hide Build, Aggregate;
    AggregateIgnoresOrder(catalog, s, t, Bounds(selected.startsAt, selected.endsAt, now));
  }

  // ----- Shares

  function RealPlus(a: real, b: real): real {
    a + b
  }

  function NatPlus(a: nat, b: nat): nat {
    a + b
  }

  ghost function RealSum<K>(m: map<K, real>): real {
    MapSum(RealPlus, 0.0, m)
  }

  ghost function NatSum<K>(m: map<K, nat>): nat {
    MapSum(NatPlus, 0, m)
  }

  lemma RealSumPullsOut<K(!new)>(m: map<K, real>, k: K)
    requires k in m
    ensures RealSum(m) == RealSum(m - {k}) + m[k]
  {
    MapSumPullsOut(RealPlus, 0.0, m, k);
  }

  lemma NatSumPullsOut<K(!new)>(m: map<K, nat>, k: K)
    requires k in m
    ensures NatSum(m) == NatSum(m - {k}) + m[k]
  {
    MapSumPullsOut(NatPlus, 0, m, k);
  }

  lemma EmptySums<K>()
    ensures RealSum<K>(map[]) == 0.0 && NatSum<K>(map[]) == 0
  {
  }

  lemma RemovalShrinks<K, V>(m: map<K, V>, k: K)
    requires k in m
    ensures |m - {k}| < |m|
  {
    assert (m - {k}).Keys == m.Keys - {k};
  }

  function CapAt(x: nat, limit: nat): nat {
    if x <= limit then x else limit
  }

  function Measures<K>(f: Usage -> nat, m: map<K, Usage>): map<K, nat> {
    map k | k in m :: f(m[k])
  }

  function Shares<K>(f: Usage -> nat, whole: nat, m: map<K, Usage>): map<K, real> {
    map k | k in m :: Share(f(m[k]), whole)
  }

  /** `f` counts something that saturates at `limit` when usages are added. */
  ghost predicate CountsUpTo(f: Usage -> nat, limit: nat) {
    && f(NO_USAGE) == 0
    && (forall a, b :: f(AddUsages(a, b)) == CapAt(f(a) + f(b), limit))
  }

  lemma {:induction false} MeasureOfSum<K(!new)>(f: Usage -> nat, limit: nat, m: map<K, Usage>)
    requires CountsUpTo(f, limit)
    ensures f(MapSum(AddUsages, NO_USAGE, m)) == CapAt(NatSum(Measures(f, m)), limit)
    decreases |m|
  {
    hide AddUsages, NatSum, MapSum, CapAt;
    if m == map[] {
      NothingToMeasure(f, limit, m);
    } else {
      var k :| k in m;
      RemovalShrinks(m, k);
      MeasureOfSum(f, limit, m - {k});
      AddUsagesAccumulates();
      MapSumPullsOut(AddUsages, NO_USAGE, m, k);
      assert Measures(f, m) - {k} == Measures(f, m - {k});
      NatSumPullsOut(Measures(f, m), k);
      CapAgain(NatSum(Measures(f, m - {k})), f(m[k]), limit);
    }
  }

  lemma NothingToMeasure<K>(f: Usage -> nat, limit: nat, m: map<K, Usage>)
    requires f(NO_USAGE) == 0 && m == map[]
    ensures f(MapSum(AddUsages, NO_USAGE, m)) == CapAt(NatSum(Measures(f, m)), limit)
  {
    assert Measures(f, m) == map[];
  }

  lemma CapAgain(a: nat, b: nat, limit: nat)
    ensures CapAt(CapAt(a, limit) + b, limit) == CapAt(a + b, limit)
  {
  }

  lemma ShareAdds(a: nat, b: nat, whole: nat)
    requires whole > 0
    ensures Share(a + b, whole) == Share(a, whole) + Share(b, whole)
  {
    var x, y, z := a as real, b as real, whole as real;
    assert (x + y) / z == x / z + y / z;
  }

  lemma {:induction false} SharesSum<K(!new)>(f: Usage -> nat, whole: nat, m: map<K, Usage>)
    requires whole > 0
    ensures RealSum(Shares(f, whole, m)) == Share(NatSum(Measures(f, m)), whole)
    decreases |m|
  {
    hide Share, NatSum, RealSum;
    if m == map[] {
      assert Measures(f, m) == map[] && Shares(f, whole, m) == map[];
      EmptySums<K>();
      ShareOfNothing(whole);
    } else {
      var k :| k in m;
      RemovalShrinks(m, k);
      SharesSum(f, whole, m - {k});
      assert Measures(f, m) - {k} == Measures(f, m - {k});
      assert Shares(f, whole, m) - {k} == Shares(f, whole, m - {k});
      NatSumPullsOut(Measures(f, m), k);
      RealSumPullsOut(Shares(f, whole, m), k);
      ShareAdds(NatSum(Measures(f, m - {k})), f(m[k]), whole);
    }
  }

  lemma ShareOfNothing(whole: nat)
    ensures Share(0, whole) == 0.0
  {
  }

  lemma ShareIsWhole(part: nat, whole: nat)
    requires whole > 0
    ensures Share(part, whole) == 100.0 <==> part == whole
  {
    var x, z := part as real, whole as real;
    assert Share(part, whole) == 100.0 <==> x / z == 1.0;
    assert x / z == 1.0 <==> x == z;
  }

  /** Shares of a breakdown that adds up come to 100 percent exactly when nothing saturated. */
  lemma SharesSumToHundred<K(!new)>(f: Usage -> nat, limit: nat, m: map<K, Usage>, whole: Usage)
    requires CountsUpTo(f, limit) && MapSum(AddUsages, NO_USAGE, m) == whole && f(whole) > 0
    ensures RealSum(Shares(f, f(whole), m)) == 100.0 <==> NatSum(Measures(f, m)) <= limit
  {
    hide Share, MapSum, AddUsages, NatSum, RealSum;
    MeasureOfSum(f, limit, m);
    SharesSum(f, f(whole), m);
    ShareIsWhole(NatSum(Measures(f, m)), f(whole));
  }

  function TotalTokens(): Usage -> nat {
    (u: Usage) => u.tokens.total
  }

  function Projected(longContext: bool): Usage -> nat {
    (u: Usage) => ProjectedUnits(u, longContext)
  }

  lemma TokensCount()
    ensures CountsUpTo(TotalTokens(), U64_MAX)
  {
    hide Unclassified;
  }

  lemma ProjectedCounts(longContext: bool)
    ensures CountsUpTo(Projected(longContext), U128_MAX)
  {
    hide Add, ProjectedUnits;
    forall a, b ensures Projected(longContext)(AddUsages(a, b))
                     == CapAt(Projected(longContext)(a) + Projected(longContext)(b), U128_MAX)
    {
      ProjectedOfSum(a, b, longContext);
    }
    assert ProjectedUnits(NO_USAGE, longContext) == 0 by { NothingIsProjected(longContext); }
  }

  lemma NothingIsProjected(longContext: bool)
    ensures ProjectedUnits(NO_USAGE, longContext) == 0
  {
  }

  lemma ProjectedOfSum(a: Usage, b: Usage, longContext: bool)
    ensures ProjectedUnits(AddUsages(a, b), longContext)
         == CapAt(ProjectedUnits(a, longContext) + ProjectedUnits(b, longContext), U128_MAX)
  {
    hide Add;
    if longContext {
      ProjectedAdds(a.units, a.longContextExtra, b.units, b.longContextExtra);
    }
  }

  lemma ProjectedAdds(a: U128, b: U128, c: U128, d: U128)
    ensures Add128(Add128(a, c), Add128(b, d)) == Cap128(Add128(a, b) + Add128(c, d))
  {
    hide Cap128;
    AddCapped(a + c, b + d);
    AddCapped(a + b, c + d);
    assert a + c + (b + d) == a + b + (c + d);
  }

  /**
   For every list of calls with any local tokens, the token shares of the threads
   and of the models add up to 100 percent exactly if what is listed fits the counter.
   */
  lemma TokenSharesAddUp(catalog: Catalog, calls: seq<UsageCall>, b: Bounds)
    ensures
      var w, f := Aggregate(catalog, calls, b), TotalTokens();
      w.local.tokens.total > 0 ==>
        && (RealSum(Shares(f, w.local.tokens.total, w.tasks)) == 100.0
            <==> NatSum(Measures(f, w.tasks)) <= U64_MAX)
        && (RealSum(Shares(f, w.local.tokens.total, w.models)) == 100.0
            <==> NatSum(Measures(f, w.models)) <= U64_MAX)
  {
    hide Aggregate, AllSound, AddUsages, MapSum, NatSum, RealSum, Shares, Measures, CountsUpTo;
    var w := Aggregate(catalog, calls, b);
    AggregateAddsUp(catalog, calls, b);
    TokensCount();
    if w.local.tokens.total > 0 {
      SharesSumToHundred(TotalTokens(), U64_MAX, w.tasks, w.local);
      SharesSumToHundred(TotalTokens(), U64_MAX, w.models, w.local);
    }
  }

  function Quotas<K>(used: real, longContext: bool, local: Usage, m: map<K, Usage>): map<K, real> {
    map k | k in m :: QuotaOf(used, longContext, local, m[k])
  }

  lemma {:induction false} ScaledSum<K(!new)>(used: real, longContext: bool, local: Usage, m: map<K, Usage>)
    ensures RealSum(Quotas(used, longContext, local, m))
         == Scale(used, RealSum(Shares(Projected(longContext), ProjectedUnits(local, longContext), m)))
    decreases |m|
  {
    hide Share, ProjectedUnits, RealSum, Scale;
    var f, whole := Projected(longContext), ProjectedUnits(local, longContext);
    if m == map[] {
      assert Quotas(used, longContext, local, m) == map[] && Shares(f, whole, m) == map[];
      EmptySums<K>();
      ScaleAdds(used, 0.0, 0.0);
    } else {
      var k :| k in m;
      RemovalShrinks(m, k);
      ScaledSum(used, longContext, local, m - {k});
      QuotasWithout(used, longContext, local, m, k);
      assert Shares(f, whole, m) - {k} == Shares(f, whole, m - {k});
      RealSumPullsOut(Quotas(used, longContext, local, m), k);
      RealSumPullsOut(Shares(f, whole, m), k);
      ScaleAdds(used, RealSum(Shares(f, whole, m - {k})), Share(f(m[k]), whole));
    }
  }

  lemma QuotasWithout<K(!new)>(used: real, longContext: bool, local: Usage, m: map<K, Usage>, k: K)
    ensures Quotas(used, longContext, local, m) - {k} == Quotas(used, longContext, local, m - {k})
  {
    hide QuotaOf;
  }

  lemma ScaleAdds(used: real, a: real, b: real)
    ensures Scale(used, a + b) == Scale(used, a) + Scale(used, b)
    ensures Scale(used, 0.0) == 0.0 && Scale(used, 100.0) == used
  {
  }

  lemma ScaledToAll(used: real, percent: real)
    ensures Scale(used, percent) == used <==> used == 0.0 || percent == 100.0
  {
    if used != 0.0 && Scale(used, percent) == used {
      assert percent == used * percent / used;
      assert used * percent == used * 100.0;
      assert used * 100.0 / used == 100.0;
    }
  }

  /**
   The quota estimates of the threads add up to the gauge, with and without
   long-context pricing, exactly if the gauge is zero or the listed units fit the counter.
   */
  lemma QuotaEstimatesAddUpToGauge(catalog: Catalog, calls: seq<UsageCall>, b: Bounds, used: real, longContext: bool)
    requires ProjectedUnits(Aggregate(catalog, calls, b).local, longContext) > 0
    ensures
      var w := Aggregate(catalog, calls, b);
      RealSum(Quotas(used, longContext, w.local, w.tasks)) == used <==>
        used == 0.0 || NatSum(Measures(Projected(longContext), w.tasks)) <= U128_MAX
  {
    hide Aggregate, AllSound, AddUsages, MapSum, NatSum, RealSum, Shares, Measures, CountsUpTo, ProjectedUnits, Quotas,
         Scale;
    var w := Aggregate(catalog, calls, b);
    AggregateAddsUp(catalog, calls, b);
    ProjectedCounts(longContext);
    SharesSumToHundred(Projected(longContext), U128_MAX, w.tasks, w.local);
    ScaledSum(used, longContext, w.local, w.tasks);
    ScaledToAll(used, RealSum(Shares(Projected(longContext), ProjectedUnits(w.local, longContext), w.tasks)));
  }

  /** The quotas above are the ones the analysis reports. */
  lemma BuildReportsQuotas(selected: Selected, settled: bool, longContext: bool, w: Window, k: string)
    requires k in w.tasks
    ensures
      var a := Build(selected, settled, longContext, w);
      && k in a.threads
      && a.threads[k].quota == Quotas(a.usedPercent, longContext, w.local, w.tasks)[k]
      && a.threads[k].tokenShare == Shares(TotalTokens(), w.local.tokens.total, w.tasks)[k]
      && 0.0 <= a.usedPercent <= 100.0
  {
    hide ProjectedUnits, AmountAt;
  }

  // ----- From the calls

  /** The exact sum of what `f` counts over the calls that count for the quota. */
  function ExactSum(f: Usage -> nat, catalog: Catalog, calls: seq<UsageCall>): nat {
    if calls == [] then 0
    else ExactSum(f, catalog, calls[..|calls| - 1]) + f(ContributionOf(catalog, calls[|calls| - 1]).usage)
  }

  lemma BumpMeasures<K(!new)>(f: Usage -> nat, limit: nat, m: map<K, Usage>, k: K, u: Usage)
    requires CountsUpTo(f, limit)
    ensures NatSum(Measures(f, Bump(AddUsages, NO_USAGE, m, k, u))) <= NatSum(Measures(f, m)) + f(u)
  {
    hide AddUsages, NatSum;
    var after := Bump(AddUsages, NO_USAGE, m, k, u);
    NatSumPullsOut(Measures(f, after), k);
    assert Measures(f, after) - {k} == Measures(f, m) - {k};
    if k in m {
      NatSumPullsOut(Measures(f, m), k);
    } else {
      assert Measures(f, m) - {k} == Measures(f, m);
    }
  }

  lemma TouchMeasures<K(!new)>(f: Usage -> nat, m: map<K, Usage>, k: K)
    requires f(NO_USAGE) == 0
    ensures NatSum(Measures(f, Touch(NO_USAGE, m, k))) == NatSum(Measures(f, m))
  {
    hide NatSum;
    if k !in m {
      var after := Touch(NO_USAGE, m, k);
      NatSumPullsOut(Measures(f, after), k);
      assert Measures(f, after) - {k} == Measures(f, m);
    }
  }

  lemma AbsorbMeasures(f: Usage -> nat, limit: nat, w: Window, c: Contribution)
    requires CountsUpTo(f, limit)
    ensures NatSum(Measures(f, Absorb(w, c).tasks)) <= NatSum(Measures(f, w.tasks)) + if c.spark then 0 else f(c.usage)
    ensures NatSum(Measures(f, Absorb(w, c).models))
         <= NatSum(Measures(f, w.models)) + if c.spark then 0 else f(c.usage)
  {
    hide AddUsages, NatSum, Measures, AddCosts, Bump, Touch, ApiThreadMap, ApiTurnMap, ApiModelMap;
    if c.spark {
      TouchMeasures(f, w.tasks, c.thread);
    } else {
      BumpMeasures(f, limit, w.tasks, c.thread, c.usage);
      BumpMeasures(f, limit, w.models, c.model, c.usage);
    }
  }

  /** What is listed for the threads, and for the models, is never more than the calls themselves add up to. */
  lemma {:induction false} ListedAtMostExact(f: Usage -> nat, limit: nat, catalog: Catalog, calls: seq<UsageCall>,
                                             b: Bounds)
    requires CountsUpTo(f, limit)
    ensures NatSum(Measures(f, Aggregate(catalog, calls, b).tasks)) <= ExactSum(f, catalog, QuotaCalls(calls, b))
    ensures NatSum(Measures(f, Aggregate(catalog, calls, b).models)) <= ExactSum(f, catalog, QuotaCalls(calls, b))
  {
    hide CountsUpTo, NatSum, Measures, Absorb, Estimate, PriceCall, IsSpark, CostOf;
    if calls == [] {
      NothingListed(f);
    } else {
      var init, c := calls[..|calls| - 1], calls[|calls| - 1];
      ListedAtMostExact(f, limit, catalog, init, b);
      AbsorbMeasures(f, limit, Aggregate(catalog, init, b), ContributionOf(catalog, c));
      var before := QuotaCalls(init, b);
      assert (before + [c])[..|before|] == before;
    }
  }

  lemma NothingListed(f: Usage -> nat)
    ensures NatSum(Measures(f, EMPTY_WINDOW.tasks)) == 0 && NatSum(Measures(f, EMPTY_WINDOW.models)) == 0
  {
    assert Measures(f, EMPTY_WINDOW.tasks) == map[] && Measures(f, EMPTY_WINDOW.models) == map[];
    EmptySums<string>();
  }

  /** If the tokens of the quota calls fit the counter, all token shares add up to 100 percent. */
  lemma TokenSharesOfCalls(catalog: Catalog, calls: seq<UsageCall>, b: Bounds)
    requires ExactSum(TotalTokens(), catalog, QuotaCalls(calls, b)) <= U64_MAX
    ensures
      var w, f := Aggregate(catalog, calls, b), TotalTokens();
      w.local.tokens.total > 0 ==>
        && RealSum(Shares(f, w.local.tokens.total, w.tasks)) == 100.0
        && RealSum(Shares(f, w.local.tokens.total, w.models)) == 100.0
  {
    hide Aggregate, NatSum, RealSum, Shares, Measures, CountsUpTo, ExactSum;
    TokensCount();
    ListedAtMostExact(TotalTokens(), U64_MAX, catalog, calls, b);
    TokenSharesAddUp(catalog, calls, b);
  }

  /** If the credit units of the quota calls fit, the thread estimates add up to the gauge. */
  lemma QuotaEstimatesOfCalls(catalog: Catalog, calls: seq<UsageCall>, b: Bounds, used: real, longContext: bool)
    requires ProjectedUnits(Aggregate(catalog, calls, b).local, longContext) > 0
    requires ExactSum(Projected(longContext), catalog, QuotaCalls(calls, b)) <= U128_MAX
    ensures
      var w := Aggregate(catalog, calls, b);
      RealSum(Quotas(used, longContext, w.local, w.tasks)) == used
  {
    hide Aggregate, NatSum, RealSum, Quotas, Measures, CountsUpTo, ExactSum, ProjectedUnits;
    ProjectedCounts(longContext);
    ListedAtMostExact(Projected(longContext), U128_MAX, catalog, calls, b);
    QuotaEstimatesAddUpToGauge(catalog, calls, b, used, longContext);
  }
}
