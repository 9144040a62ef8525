/**
 What each entry of a window analysis holds, in terms of the calls themselves
 (src/attribution.rs, src/api_cost.rs): a thread's entry sums exactly that thread's
 calls of the window, and likewise for turns and models.
 */
module WindowEntries {
  import opened Time
  import opened Options
  import opened Saturating
  import opened Folding
  import opened Text
  import opened Tokens
  import opened Dataset
  import opened Pricing
  import opened Credits
  import opened Aggregation
  import opened Attribution

  // ----- Selections of calls

  function Select(calls: seq<UsageCall>, p: UsageCall -> bool): seq<UsageCall> {
    if calls == [] then
      []
    else
      var init, c := Select(calls[..|calls| - 1], p), calls[|calls| - 1];
      if p(c) then init + [c] else init
  }

  lemma {:induction false} SelectMembers(calls: seq<UsageCall>, p: UsageCall -> bool)
    ensures forall c :: c in Select(calls, p) <==> c in calls && p(c)
  {
    if calls != [] {
      SelectMembers(calls[..|calls| - 1], p);
      assert calls == calls[..|calls| - 1] + [calls[|calls| - 1]];
    }
  }

  lemma SelectExtend(calls: seq<UsageCall>, c: UsageCall, p: UsageCall -> bool)
    ensures Select(calls + [c], p) == Select(calls, p) + if p(c) then [c] else []
  {
    assert (calls + [c])[..|calls|] == calls;
  }

  lemma {:induction false} SelectSame(calls: seq<UsageCall>, p: UsageCall -> bool, q: UsageCall -> bool)
    requires forall c :: p(c) == q(c)
    ensures Select(calls, p) == Select(calls, q)
  {
    if calls != [] {
      SelectSame(calls[..|calls| - 1], p, q);
    }
  }

  /** At or after the start, at or before the end, and not after now. */
  predicate Inside(c: UsageCall, b: Bounds) {
    b.startsAt <= c.timestamp <= b.endsAt && c.timestamp <= b.now
  }

  /** Calls of the Spark model, whose name may be spelled in any case and with blanks around it. */
  predicate OfSpark(c: UsageCall) {
    c.model.Some? && Lower(Trim(c.model.value)) == "gpt-5.3-codex-spark"
  }

  /** The model's name without blanks around it, or `unknown` where there is none. */
  function NameOf(c: UsageCall): string {
    if c.model.Some? && Trim(c.model.value) != "" then Trim(c.model.value) else "unknown"
  }

  lemma SparkIsSpark(c: UsageCall)
    ensures IsSpark(c.model) <==> OfSpark(c)
  {
    assert Lower("gpt-5.3-codex-spark") == "gpt-5.3-codex-spark";
  }

  lemma NameIsModelName(c: UsageCall)
    ensures ModelName(c) == NameOf(c)
  {
  }

  // ----- What a group of calls adds up to

  function UnitsOf(catalog: Catalog, group: seq<UsageCall>): seq<U128> {
    seq(|group|, i requires 0 <= i < |group| => Estimate(catalog, group[i]).units)
  }

  function ExtrasOf(catalog: Catalog, group: seq<UsageCall>): seq<U128> {
    seq(|group|, i requires 0 <= i < |group| => Estimate(catalog, group[i]).longContextExtra)
  }

  function CountersOf(group: seq<UsageCall>): seq<TokenUsage> {
    seq(|group|, i requires 0 <= i < |group| => group[i].tokens)
  }

  /** The tokens, base units and surcharge units of the group, each added up on its own. */
  function GroupUsage(catalog: Catalog, group: seq<UsageCall>): Usage {
    Usage(Total(CountersOf(group)), SaturatingSum(UnitsOf(catalog, group)), SaturatingSum(ExtrasOf(catalog, group)))
  }

  lemma OneMoreUsage(catalog: Catalog, group: seq<UsageCall>, c: UsageCall)
    ensures GroupUsage(catalog, group + [c]) == AddUsages(GroupUsage(catalog, group), ContributionOf(catalog, c).usage)
  {
    hide Estimate, PriceCall, CostOf, IsSpark, ModelName, Add, Add128;
    var more, n := group + [c], |group|;
    assert CountersOf(more)[..n] == CountersOf(group);
    assert UnitsOf(catalog, more)[..n] == UnitsOf(catalog, group);
    assert ExtrasOf(catalog, more)[..n] == ExtrasOf(catalog, group);
  }

  lemma NoUsage(catalog: Catalog)
    ensures GroupUsage(catalog, []) == NO_USAGE
  {
    assert CountersOf([]) == [] && UnitsOf(catalog, []) == [] && ExtrasOf(catalog, []) == [];
  }

  function PricedOnly(catalog: Catalog, group: seq<UsageCall>): seq<UsageCall> {
    Select(group, (c: UsageCall) => PriceCall(catalog, c).priced)
  }

  function MinimaOf(catalog: Catalog, group: seq<UsageCall>): seq<U128> {
    seq(|group|, i requires 0 <= i < |group| => PriceCall(catalog, group[i]).minimum)
  }

  function MaximaOf(catalog: Catalog, group: seq<UsageCall>): seq<U128> {
    seq(|group|, i requires 0 <= i < |group| => PriceCall(catalog, group[i]).maximum)
  }

  /** The tokens observed in a call: its total, or its input and output if they are more. */
  function ObservedIn(group: seq<UsageCall>): nat {
    if group == [] then 0
    else
      var t := group[|group| - 1].tokens;
      ObservedIn(group[..|group| - 1]) + Higher64(Add64(t.input, t.output), t.total)
  }

  function ReasonsIn(catalog: Catalog, group: seq<UsageCall>): set<Reason> {
    if group == [] then {}
    else
      var cost := PriceCall(catalog, group[|group| - 1]);
      ReasonsIn(catalog, group[..|group| - 1])
      + (if cost.partialReason.Some? then {cost.partialReason.value} else {})
      + (if cost.assumptionReason.Some? then {cost.assumptionReason.value} else {})
  }

  /** Prices, samples and tokens of the priced calls of the group, and samples and tokens of all of them. */
  function GroupCost(catalog: Catalog, group: seq<UsageCall>): ApiCost {
    var priced := PricedOnly(catalog, group);
    ApiCost(
      SaturatingSum(MinimaOf(catalog, priced)), SaturatingSum(MaximaOf(catalog, priced)),
      Cap64(|group|), Cap64(|priced|), Cap64(ObservedIn(group)), Cap64(ObservedIn(priced)), ReasonsIn(catalog, group))
  }

  lemma ObservedIsCoverage(catalog: Catalog, call: UsageCall)
    ensures PriceCall(catalog, call).observedTokens == CoverageTokens(call.tokens)
  {
    hide PriceUsage, CoverageTokens, AutoReviewUsesLuna;
  }

  lemma NoCost(catalog: Catalog)
    ensures GroupCost(catalog, []) == NO_COST
  {
    assert MinimaOf(catalog, []) == [] && MaximaOf(catalog, []) == [];
  }

  lemma OneMoreCost(catalog: Catalog, group: seq<UsageCall>, c: UsageCall)
    ensures GroupCost(catalog, group + [c]) == AddCosts(GroupCost(catalog, group), ContributionOf(catalog, c).cost)
  {
    hide PriceCall, Estimate, Higher64, IsSpark, ModelName, SaturatingSum, MinimaOf, MaximaOf, ObservedIn, Select,
         CoverageTokens, ReasonSet, ReasonsIn;
    var priced := PricedOnly(catalog, group);
    SelectExtend(group, c, (x: UsageCall) => PriceCall(catalog, x).priced);
    assert PricedOnly(catalog, group + [c]) == priced + if PriceCall(catalog, c).priced then [c] else [];
    OneMoreObserved(catalog, group, c);
    if PriceCall(catalog, c).priced {
      OneMorePriced(catalog, priced, c);
      OneMoreObserved(catalog, priced, c);
    } else {
      assert priced + [] == priced;
    }
    OneMoreReason(catalog, group, c);
  }

  lemma OneMoreReason(catalog: Catalog, group: seq<UsageCall>, c: UsageCall)
    ensures ReasonsIn(catalog, group + [c])
         == ReasonsIn(catalog, group) + ContributionOf(catalog, c).cost.reasons
  {
    hide PriceCall, Estimate, IsSpark, ModelName;
    assert (group + [c])[..|group|] == group;
  }

  lemma OneMoreObserved(catalog: Catalog, group: seq<UsageCall>, c: UsageCall)
    ensures Cap64(ObservedIn(group + [c])) == Add64(Cap64(ObservedIn(group)), PriceCall(catalog, c).observedTokens)
    ensures Cap64(|group + [c]|) == Add64(Cap64(|group|), 1)
  {
    hide PriceCall, Higher64;
    assert (group + [c])[..|group|] == group;
    ObservedIsCoverage(catalog, c);
  }

  lemma OneMorePriced(catalog: Catalog, priced: seq<UsageCall>, c: UsageCall)
    ensures SaturatingSum(MinimaOf(catalog, priced + [c]))
         == Add128(SaturatingSum(MinimaOf(catalog, priced)), PriceCall(catalog, c).minimum)
    ensures SaturatingSum(MaximaOf(catalog, priced + [c]))
         == Add128(SaturatingSum(MaximaOf(catalog, priced)), PriceCall(catalog, c).maximum)
    ensures ObservedIn(priced + [c])
         == ObservedIn(priced) + Higher64(Add64(c.tokens.input, c.tokens.output), c.tokens.total)
  {
    hide PriceCall, Add128, Higher64;
    var more := priced + [c];
    assert more[..|priced|] == priced;
    assert MinimaOf(catalog, more)[..|priced|] == MinimaOf(catalog, priced);
    assert MaximaOf(catalog, more)[..|priced|] == MaximaOf(catalog, priced);
  }

  // ----- Maps of groups

  /** One entry per key; a call that is not counted only makes its entry appear. */
  function Entries<K, A>(op: (A, A) -> A, zero: A, key: UsageCall -> Option<K>, counted: UsageCall -> bool,
                         value: UsageCall -> A, calls: seq<UsageCall>): map<K, A>
  {
    if calls == [] then
      map[]
    else
      var m, c := Entries(op, zero, key, counted, value, calls[..|calls| - 1]), calls[|calls| - 1];
      if key(c).None? then m
      else if counted(c) then Bump(op, zero, m, key(c).value, value(c))
      else Touch(zero, m, key(c).value)
  }

  ghost predicate AddsGroups<A(!new)>(op: (A, A) -> A, zero: A, value: UsageCall -> A, total: seq<UsageCall> -> A) {
    total([]) == zero && forall s, c :: total(s + [c]) == op(total(s), value(c))
  }

  function Group<K(==)>(key: UsageCall -> Option<K>, counted: UsageCall -> bool, k: K): UsageCall -> bool {
    (c: UsageCall) => key(c) == Some(k) && counted(c)
  }

  /** The entry of a key exists exactly if some call has the key, and holds the total of the counted calls with it. */
  lemma {:induction false} EntryIsGroup<K(!new), A(!new)>(
    op: (A, A) -> A, zero: A, key: UsageCall -> Option<K>, counted: UsageCall -> bool, value: UsageCall -> A,
    total: seq<UsageCall> -> A, calls: seq<UsageCall>, k: K)
    requires AddsGroups(op, zero, value, total)
    ensures
      var m := Entries(op, zero, key, counted, value, calls);
      && (k in m <==> exists c :: c in calls && key(c) == Some(k))
      && (k in m ==> m[k] == total(Select(calls, Group(key, counted, k))))
      && (k !in m ==> Select(calls, Group(key, counted, k)) == [])
  {
    if calls != [] {
      var init, c := calls[..|calls| - 1], calls[|calls| - 1];
      assert calls == init + [c];
      EntryIsGroup(op, zero, key, counted, value, total, init, k);
      var before := Select(init, Group(key, counted, k));
      assert total(before + [c]) == op(total(before), value(c));
    }
  }

  // ----- The six maps of a window

  function ThreadKey(b: Bounds): UsageCall -> Option<string> {
    (c: UsageCall) => if Inside(c, b) then Some(c.thread) else None
  }

  function TurnKey(b: Bounds): UsageCall -> Option<(string, string)> {
    (c: UsageCall) => if Inside(c, b) && c.turn.Some? then Some((c.thread, c.turn.value)) else None
  }

  function ModelKey(b: Bounds): UsageCall -> Option<string> {
    (c: UsageCall) => if Inside(c, b) then Some(NameOf(c)) else None
  }

  /** Spark calls have no entry of their own among the models that share the quota. */
  function QuotaModelKey(b: Bounds): UsageCall -> Option<string> {
    (c: UsageCall) => if Inside(c, b) && !OfSpark(c) then Some(NameOf(c)) else None
  }

  function NotSpark(): UsageCall -> bool {
    (c: UsageCall) => !OfSpark(c)
  }

  function Every(): UsageCall -> bool {
    (c: UsageCall) => true
  }

  function UsageIn(catalog: Catalog): UsageCall -> Usage {
    (c: UsageCall) => ContributionOf(catalog, c).usage
  }

  function CostIn(catalog: Catalog): UsageCall -> ApiCost {
    (c: UsageCall) => ContributionOf(catalog, c).cost
  }

  ghost predicate UsageMapsAre(catalog: Catalog, calls: seq<UsageCall>, b: Bounds, w: Window) {
    && w.tasks == Entries(AddUsages, NO_USAGE, ThreadKey(b), NotSpark(), UsageIn(catalog), calls)
    && w.turns == Entries(AddUsages, NO_USAGE, TurnKey(b), NotSpark(), UsageIn(catalog), calls)
    && w.models == Entries(AddUsages, NO_USAGE, QuotaModelKey(b), Every(), UsageIn(catalog), calls)
  }

  ghost predicate CostMapsAre(catalog: Catalog, calls: seq<UsageCall>, b: Bounds, w: Window) {
    && w.apiThreads == Entries(AddCosts, NO_COST, ThreadKey(b), Every(), CostIn(catalog), calls)
    && w.apiTurns == Entries(AddCosts, NO_COST, TurnKey(b), Every(), CostIn(catalog), calls)
    && w.apiModels == Entries(AddCosts, NO_COST, ModelKey(b), Every(), CostIn(catalog), calls)
  }

  lemma EntriesExtend<K, A>(op: (A, A) -> A, zero: A, key: UsageCall -> Option<K>, counted: UsageCall -> bool,
                            value: UsageCall -> A, calls: seq<UsageCall>, c: UsageCall)
    ensures
      var m := Entries(op, zero, key, counted, value, calls);
      Entries(op, zero, key, counted, value, calls + [c])
      == if key(c).None? then m
         else if counted(c) then Bump(op, zero, m, key(c).value, value(c))
         else Touch(zero, m, key(c).value)
  {
    assert (calls + [c])[..|calls|] == calls;
  }

  lemma UsageMapsStep(catalog: Catalog, calls: seq<UsageCall>, b: Bounds, w: Window, c: UsageCall)
    requires UsageMapsAre(catalog, calls, b, w)
    ensures UsageMapsAre(catalog, calls + [c], b, WindowStep(catalog, b)(w, c))
  {
    hide Bump, Touch, AddUsages, AddCosts, Estimate, PriceCall, IsSpark, OfSpark, CostOf, ModelName, NameOf, Entries,
         ApiThreadMap, ApiTurnMap, ApiModelMap;
    SparkIsSpark(c);
    NameIsModelName(c);
    EntriesExtend(AddUsages, NO_USAGE, ThreadKey(b), NotSpark(), UsageIn(catalog), calls, c);
    EntriesExtend(AddUsages, NO_USAGE, TurnKey(b), NotSpark(), UsageIn(catalog), calls, c);
    EntriesExtend(AddUsages, NO_USAGE, QuotaModelKey(b), Every(), UsageIn(catalog), calls, c);
  }

  lemma CostMapsStep(catalog: Catalog, calls: seq<UsageCall>, b: Bounds, w: Window, c: UsageCall)
    requires CostMapsAre(catalog, calls, b, w)
    ensures CostMapsAre(catalog, calls + [c], b, WindowStep(catalog, b)(w, c))
  {
    hide Bump, Touch, AddUsages, AddCosts, Estimate, PriceCall, IsSpark, OfSpark, CostOf, ModelName, NameOf, Entries,
         TaskMap, TurnMap, ModelMap;
    NameIsModelName(c);
    EntriesExtend(AddCosts, NO_COST, ThreadKey(b), Every(), CostIn(catalog), calls, c);
    EntriesExtend(AddCosts, NO_COST, TurnKey(b), Every(), CostIn(catalog), calls, c);
    EntriesExtend(AddCosts, NO_COST, ModelKey(b), Every(), CostIn(catalog), calls, c);
  }

  lemma {:induction false} WindowMapsAre(catalog: Catalog, calls: seq<UsageCall>, b: Bounds)
    ensures UsageMapsAre(catalog, calls, b, Aggregate(catalog, calls, b))
    ensures CostMapsAre(catalog, calls, b, Aggregate(catalog, calls, b))
  {
    hide WindowStep, UsageMapsAre, CostMapsAre;
    if calls == [] {
      NoEntries(catalog, b);
    } else {
      var init, c := calls[..|calls| - 1], calls[|calls| - 1];
      WindowMapsAre(catalog, init, b);
      assert calls == init + [c];
      UsageMapsStep(catalog, init, b, Aggregate(catalog, init, b), c);
      CostMapsStep(catalog, init, b, Aggregate(catalog, init, b), c);
    }
  }

  lemma NoEntries(catalog: Catalog, b: Bounds)
    ensures UsageMapsAre(catalog, [], b, EMPTY_WINDOW) && CostMapsAre(catalog, [], b, EMPTY_WINDOW)
  {
  }

  lemma UsagesAddGroups(catalog: Catalog)
    ensures AddsGroups(AddUsages, NO_USAGE, UsageIn(catalog), (s: seq<UsageCall>) => GroupUsage(catalog, s))
  {
    hide GroupUsage, AddUsages, ContributionOf;
    NoUsage(catalog);
    forall s, c ensures GroupUsage(catalog, s + [c]) == AddUsages(GroupUsage(catalog, s), UsageIn(catalog)(c)) {
      OneMoreUsage(catalog, s, c);
    }
  }

  lemma CostsAddGroups(catalog: Catalog)
    ensures AddsGroups(AddCosts, NO_COST, CostIn(catalog), (s: seq<UsageCall>) => GroupCost(catalog, s))
  {
    hide GroupCost, AddCosts, ContributionOf;
    NoCost(catalog);
    forall s, c ensures GroupCost(catalog, s + [c]) == AddCosts(GroupCost(catalog, s), CostIn(catalog)(c)) {
      OneMoreCost(catalog, s, c);
    }
  }

  // ----- The groups, by the calls' own fields

  function ThreadCalls(calls: seq<UsageCall>, b: Bounds, thread: string): seq<UsageCall> {
    Select(calls, (c: UsageCall) => Inside(c, b) && c.thread == thread)
  }

  function TurnCalls(calls: seq<UsageCall>, b: Bounds, thread: string, turn: string): seq<UsageCall> {
    Select(calls, (c: UsageCall) => Inside(c, b) && c.thread == thread && c.turn == Some(turn))
  }

  function ModelCalls(calls: seq<UsageCall>, b: Bounds, name: string): seq<UsageCall> {
    Select(calls, (c: UsageCall) => Inside(c, b) && NameOf(c) == name)
  }

  function WithoutSpark(calls: seq<UsageCall>): seq<UsageCall> {
    Select(calls, NotSpark())
  }

  lemma {:induction false} SelectTwice(calls: seq<UsageCall>, p: UsageCall -> bool, q: UsageCall -> bool,
                                       both: UsageCall -> bool)
    requires forall c :: both(c) == (p(c) && q(c))
    ensures Select(Select(calls, p), q) == Select(calls, both)
  {
    if calls != [] {
      var init, c := calls[..|calls| - 1], calls[|calls| - 1];
      SelectTwice(init, p, q, both);
      SelectExtend(Select(init, p), c, q);
    }
  }

  /**
   The entry of a thread: there exactly if the window has a call of it, with the usage of
   its calls that are not Spark calls and the API cost of all of them.
   */
  lemma ThreadEntry(catalog: Catalog, calls: seq<UsageCall>, b: Bounds, thread: string)
    ensures
      var w, group := Aggregate(catalog, calls, b), ThreadCalls(calls, b, thread);
      && (thread in w.tasks <==> group != []) && (thread in w.apiThreads <==> group != [])
      && (group != [] ==> w.tasks[thread] == GroupUsage(catalog, WithoutSpark(group)))
      && (group != [] ==> w.apiThreads[thread] == GroupCost(catalog, group))
  {
    hide Aggregate, GroupUsage, GroupCost, AddUsages, AddCosts, Entries, AddsGroups, ContributionOf, OfSpark, Select;
    var p := (c: UsageCall) => Inside(c, b) && c.thread == thread;
    WindowMapsAre(catalog, calls, b);
    UsagesAddGroups(catalog);
    CostsAddGroups(catalog);
    EntryIsGroup(AddUsages, NO_USAGE, ThreadKey(b), NotSpark(), UsageIn(catalog),
                 (s: seq<UsageCall>) => GroupUsage(catalog, s), calls, thread);
    EntryIsGroup(AddCosts, NO_COST, ThreadKey(b), Every(), CostIn(catalog),
                 (s: seq<UsageCall>) => GroupCost(catalog, s), calls, thread);
    SelectTwice(calls, p, NotSpark(), Group(ThreadKey(b), NotSpark(), thread));
    SelectSame(calls, Group(ThreadKey(b), Every(), thread), p);
    SomeSelected(calls, p);
    assert forall c :: ThreadKey(b)(c) == Some(thread) <==> p(c);
  }

  lemma SomeSelected(calls: seq<UsageCall>, p: UsageCall -> bool)
    ensures Select(calls, p) != [] <==> exists c :: c in calls && p(c)
  {
    SelectMembers(calls, p);
    hide Select;
    if Select(calls, p) != [] {
      assert Select(calls, p)[0] in Select(calls, p);
    }
  }

  lemma TurnEntry(catalog: Catalog, calls: seq<UsageCall>, b: Bounds, thread: string, turn: string)
    ensures
      var w, group := Aggregate(catalog, calls, b), TurnCalls(calls, b, thread, turn);
      var k := (thread, turn);
      && (k in w.turns <==> group != []) && (k in w.apiTurns <==> group != [])
      && (group != [] ==> w.turns[k] == GroupUsage(catalog, WithoutSpark(group)))
      && (group != [] ==> w.apiTurns[k] == GroupCost(catalog, group))
  {
    hide Aggregate, GroupUsage, GroupCost, AddUsages, AddCosts, Entries, AddsGroups, ContributionOf, OfSpark, Select;
    var k := (thread, turn);
    var p := (c: UsageCall) => Inside(c, b) && c.thread == thread && c.turn == Some(turn);
    WindowMapsAre(catalog, calls, b);
    UsagesAddGroups(catalog);
    CostsAddGroups(catalog);
    EntryIsGroup(AddUsages, NO_USAGE, TurnKey(b), NotSpark(), UsageIn(catalog),
                 (s: seq<UsageCall>) => GroupUsage(catalog, s), calls, k);
    EntryIsGroup(AddCosts, NO_COST, TurnKey(b), Every(), CostIn(catalog),
                 (s: seq<UsageCall>) => GroupCost(catalog, s), calls, k);
    SelectTwice(calls, p, NotSpark(), Group(TurnKey(b), NotSpark(), k));
    SelectSame(calls, Group(TurnKey(b), Every(), k), p);
    SomeSelected(calls, p);
    assert forall c :: TurnKey(b)(c) == Some(k) <==> p(c);
  }

  /** A model has a quota entry exactly if one of its calls in the window is not a Spark call. */
  lemma ModelEntry(catalog: Catalog, calls: seq<UsageCall>, b: Bounds, name: string)
    ensures
      var w, group := Aggregate(catalog, calls, b), ModelCalls(calls, b, name);
      && (name in w.models <==> WithoutSpark(group) != []) && (name in w.apiModels <==> group != [])
      && (name in w.models ==> w.models[name] == GroupUsage(catalog, WithoutSpark(group)))
      && (group != [] ==> w.apiModels[name] == GroupCost(catalog, group))
  {
    hide Aggregate, GroupUsage, GroupCost, AddUsages, AddCosts, Entries, AddsGroups, ContributionOf, OfSpark, Select,
         NameOf;
    var p := (c: UsageCall) => Inside(c, b) && NameOf(c) == name;
    var quota := Group(QuotaModelKey(b), Every(), name);
    WindowMapsAre(catalog, calls, b);
    UsagesAddGroups(catalog);
    CostsAddGroups(catalog);
    EntryIsGroup(AddUsages, NO_USAGE, QuotaModelKey(b), Every(), UsageIn(catalog),
                 (s: seq<UsageCall>) => GroupUsage(catalog, s), calls, name);
    EntryIsGroup(AddCosts, NO_COST, ModelKey(b), Every(), CostIn(catalog),
                 (s: seq<UsageCall>) => GroupCost(catalog, s), calls, name);
    SelectTwice(calls, p, NotSpark(), quota);
    SelectSame(calls, Group(ModelKey(b), Every(), name), p);
    SomeSelected(calls, p);
    SomeSelected(calls, quota);
    assert forall c :: ModelKey(b)(c) == Some(name) <==> p(c);
    assert forall c :: QuotaModelKey(b)(c) == Some(name) <==> quota(c);
  }

  // ----- The totals and flags of a window

  function IsInside(b: Bounds): UsageCall -> bool {
    (c: UsageCall) => Inside(c, b)
  }

  function WindowCalls(calls: seq<UsageCall>, b: Bounds): seq<UsageCall> {
    Select(calls, IsInside(b))
  }

  ghost predicate Flagged(catalog: Catalog, group: seq<UsageCall>, flag: Weight -> bool) {
    exists c :: c in group && flag(Estimate(catalog, c))
  }

  ghost predicate TotalsAre(catalog: Catalog, group: seq<UsageCall>, w: Window) {
    && w.local == GroupUsage(catalog, WithoutSpark(group))
    && w.apiTotal == GroupCost(catalog, group)
    && (w.modelFallback <==> Flagged(catalog, WithoutSpark(group), (x: Weight) => x.modelFallback))
    && (w.breakdownFallback <==> Flagged(catalog, WithoutSpark(group), (x: Weight) => x.breakdownFallback))
    && (w.detectionFallback <==> Flagged(catalog, WithoutSpark(group), (x: Weight) => x.detectionFallback))
  }

  lemma FlaggedExtends(catalog: Catalog, group: seq<UsageCall>, c: UsageCall, flag: Weight -> bool)
    ensures Flagged(catalog, group + [c], flag) <==> Flagged(catalog, group, flag) || flag(Estimate(catalog, c))
  {
    hide Estimate;
    if Flagged(catalog, group, flag) {
      var x :| x in group && flag(Estimate(catalog, x));
      assert x in group + [c];
    }
    assert c in group + [c];
  }

  lemma TotalsStep(catalog: Catalog, group: seq<UsageCall>, w: Window, c: UsageCall)
    requires TotalsAre(catalog, group, w)
    ensures TotalsAre(catalog, group + [c], Absorb(w, ContributionOf(catalog, c)))
  {
    hide GroupUsage, GroupCost, AddUsages, AddCosts, Estimate, PriceCall, CostOf, IsSpark, OfSpark, ModelName, TaskMap,
         TurnMap, ModelMap, ApiThreadMap, ApiTurnMap, ApiModelMap, Flagged, Select;
    SparkIsSpark(c);
    SelectExtend(group, c, NotSpark());
    OneMoreCost(catalog, group, c);
    var quota := WithoutSpark(group);
    if OfSpark(c) {
      assert quota + [] == quota;
    } else {
      OneMoreUsage(catalog, quota, c);
      FlaggedExtends(catalog, quota, c, (x: Weight) => x.modelFallback);
      FlaggedExtends(catalog, quota, c, (x: Weight) => x.breakdownFallback);
      FlaggedExtends(catalog, quota, c, (x: Weight) => x.detectionFallback);
    }
  }

  /** The totals are those of all calls of the window, and each flag is raised by some call that counts. */
  lemma {:induction false} WindowTotals(catalog: Catalog, calls: seq<UsageCall>, b: Bounds)
    ensures TotalsAre(catalog, WindowCalls(calls, b), Aggregate(catalog, calls, b))
  {
    hide TotalsAre, Absorb, ContributionOf;
    if calls == [] {
      NoTotals(catalog);
    } else {
      var init, c := calls[..|calls| - 1], calls[|calls| - 1];
      WindowTotals(catalog, init, b);
      assert calls == init + [c];
      SelectExtend(init, c, IsInside(b));
      AggregateExtends(catalog, init, b, c);
      if Inside(c, b) {
        TotalsStep(catalog, WindowCalls(init, b), Aggregate(catalog, init, b), c);
      } else {
        assert WindowCalls(calls, b) == WindowCalls(init, b);
      }
    }
  }

  lemma AggregateExtends(catalog: Catalog, calls: seq<UsageCall>, b: Bounds, c: UsageCall)
    ensures Aggregate(catalog, calls + [c], b)
         == if Inside(c, b) then Absorb(Aggregate(catalog, calls, b), ContributionOf(catalog, c))
            else Aggregate(catalog, calls, b)
  {
    hide Estimate, PriceCall, CostOf, IsSpark, ModelName, AddUsages, AddCosts, TaskMap, TurnMap, ModelMap, ApiThreadMap,
         ApiTurnMap, ApiModelMap;
    FoldExtend(WindowStep(catalog, b), EMPTY_WINDOW, calls, c);
  }

  lemma NoTotals(catalog: Catalog)
    ensures TotalsAre(catalog, [], EMPTY_WINDOW)
  {
    hide GroupUsage, GroupCost;
    NoUsage(catalog);
    NoCost(catalog);
    assert WithoutSpark([]) == [];
  }

  // ----- The entries of an analysis

  /** What an entry of the analysis shows for a group of calls. */
  ghost predicate Shows(a: Analysis, longContext: bool, catalog: Catalog, all: seq<UsageCall>, group: seq<UsageCall>,
                        entry: WindowUsage)
  {
    var local, own := GroupUsage(catalog, WithoutSpark(all)), GroupUsage(catalog, WithoutSpark(group));
    && entry.tokenUsage == Total(CountersOf(WithoutSpark(group)))
    && entry.tokenShare == Share(own.tokens.total, local.tokens.total)
    && entry.quota
       == a.usedPercent * (if longContext then Share(Add128(own.units, own.longContextExtra),
                                                     Add128(local.units, local.longContextExtra))
                           else Share(own.units, local.units)) / 100.0
    && entry.apiCost == GroupCost(catalog, group).(reasons := {})
  }

  /** An entry is as uncertain as the whole analysis, and unknown if it has no tokens. */
  predicate Trusts(a: Analysis, entry: WindowUsage) {
    entry.confidence == if entry.tokenUsage == NO_TOKENS then UnknownConfidence else a.confidence
  }

  lemma EntriesAreTrusted(selected: Selected, settled: bool, longContext: bool, w: Window)
    ensures
      var a := Build(selected, settled, longContext, w);
      && (forall thread :: thread in a.threads ==> Trusts(a, a.threads[thread]))
      && (forall turn :: turn in a.turns ==> Trusts(a, a.turns[turn]))
      && (forall name :: name in a.models ==> a.models[name].confidence == a.confidence)
  {
    hide QuotaOf, Share, AmountAt, Reasons, Clamp;
  }

  ghost predicate ShowsThread(a: Analysis, longContext: bool, catalog: Catalog, calls: seq<UsageCall>, b: Bounds,
                              thread: string)
  {
    var group := ThreadCalls(calls, b, thread);
    && (thread in a.threads <==> group != [])
    && (thread in a.threads ==>
          && Shows(a, longContext, catalog, WindowCalls(calls, b), group, a.threads[thread])
          && Trusts(a, a.threads[thread]))
  }

  ghost predicate ShowsTurn(a: Analysis, longContext: bool, catalog: Catalog, calls: seq<UsageCall>, b: Bounds,
                            thread: string, turn: string)
  {
    var group, k := TurnCalls(calls, b, thread, turn), (thread, turn);
    && (k in a.turns <==> group != [])
    && (k in a.turns ==>
          Shows(a, longContext, catalog, WindowCalls(calls, b), group, a.turns[k]) && Trusts(a, a.turns[k]))
  }

  ghost predicate ShowsModel(a: Analysis, longContext: bool, catalog: Catalog, calls: seq<UsageCall>, b: Bounds,
                             name: string)
  {
    var group := ModelCalls(calls, b, name);
    && (name in a.models <==> WithoutSpark(group) != [])
    && (name in a.models ==>
          && Shows(a, longContext, catalog, WindowCalls(calls, b), group, a.models[name])
          && a.models[name].confidence == a.confidence)
    && (name in a.apiModels <==> group != [])
    && (name in a.apiModels ==> a.apiModels[name] == GroupCost(catalog, group).(reasons := {}))
  }

  ghost predicate ShowsAll(a: Analysis, longContext: bool, catalog: Catalog, calls: seq<UsageCall>, b: Bounds) {
    && a.localTokens == Total(CountersOf(WithoutSpark(WindowCalls(calls, b))))
    && a.apiTotal == GroupCost(catalog, WindowCalls(calls, b))
    && (forall thread :: ShowsThread(a, longContext, catalog, calls, b, thread))
    && (forall thread, turn :: ShowsTurn(a, longContext, catalog, calls, b, thread, turn))
    && (forall name :: ShowsModel(a, longContext, catalog, calls, b, name))
  }

  lemma EntryShows(a: Analysis, longContext: bool, catalog: Catalog, all: seq<UsageCall>, group: seq<UsageCall>,
                   w: Window, confidence: Confidence, u: Usage, cost: ApiCost)
    requires w.local == GroupUsage(catalog, WithoutSpark(all)) && u == GroupUsage(catalog, WithoutSpark(group))
    requires cost == GroupCost(catalog, group).(reasons := {})
    ensures var entry := UsageFor(a.usedPercent, longContext, w.local, confidence, u, cost);
            Shows(a, longContext, catalog, all, group, entry)
    ensures var entry := UsageFor(a.usedPercent, longContext, w.local, confidence, u, cost);
            Shows(a, longContext, catalog, all, group, entry.(confidence := confidence))
  {
    hide GroupCost, Add128, Share, Select, Total;
  }

  lemma WithoutSparkOfNothing(group: seq<UsageCall>)
    ensures WithoutSpark(group) != [] ==> group != []
  {
  }

  lemma BuildShowsThread(catalog: Catalog, calls: seq<UsageCall>, b: Bounds, selected: Selected, settled: bool,
                         longContext: bool, thread: string)
    ensures ShowsThread(Build(selected, settled, longContext, Aggregate(catalog, calls, b)), longContext, catalog,
                        calls, b, thread)
  {
    hide Aggregate, GroupUsage, GroupCost, Shows, Trusts, UsageFor, ThreadCalls, WindowCalls, WithoutSpark, Reasons,
         Clamp;
    var w, all, group := Aggregate(catalog, calls, b), WindowCalls(calls, b), ThreadCalls(calls, b, thread);
    var a := Build(selected, settled, longContext, w);
    WindowTotals(catalog, calls, b);
    EntriesAreTrusted(selected, settled, longContext, w);
    ThreadEntry(catalog, calls, b, thread);
    if group != [] {
      EntryShows(a, longContext, catalog, all, group, w, a.confidence, w.tasks[thread],
                 AmountAt(w.apiThreads, thread));
    }
  }

  lemma BuildShowsTurn(catalog: Catalog, calls: seq<UsageCall>, b: Bounds, selected: Selected, settled: bool,
                       longContext: bool, thread: string, turn: string)
    ensures ShowsTurn(Build(selected, settled, longContext, Aggregate(catalog, calls, b)), longContext, catalog,
                      calls, b, thread, turn)
  {
    hide Aggregate, GroupUsage, GroupCost, Shows, Trusts, UsageFor, TurnCalls, WindowCalls, WithoutSpark, Reasons,
         Clamp;
    var w, all, group := Aggregate(catalog, calls, b), WindowCalls(calls, b), TurnCalls(calls, b, thread, turn);
    var a, k := Build(selected, settled, longContext, w), (thread, turn);
    WindowTotals(catalog, calls, b);
    EntriesAreTrusted(selected, settled, longContext, w);
    TurnEntry(catalog, calls, b, thread, turn);
    if group != [] {
      EntryShows(a, longContext, catalog, all, group, w, a.confidence, w.turns[k], AmountAt(w.apiTurns, k));
    }
  }

  lemma BuildShowsModel(catalog: Catalog, calls: seq<UsageCall>, b: Bounds, selected: Selected, settled: bool,
                        longContext: bool, name: string)
    ensures ShowsModel(Build(selected, settled, longContext, Aggregate(catalog, calls, b)), longContext, catalog,
                       calls, b, name)
  {
    hide Aggregate, GroupUsage, GroupCost, Shows, Trusts, UsageFor, ModelCalls, WindowCalls, WithoutSpark, Reasons,
         Clamp;
    var w, all, group := Aggregate(catalog, calls, b), WindowCalls(calls, b), ModelCalls(calls, b, name);
    var a := Build(selected, settled, longContext, w);
    WindowTotals(catalog, calls, b);
    EntriesAreTrusted(selected, settled, longContext, w);
    ModelEntry(catalog, calls, b, name);
    WithoutSparkOfNothing(group);
    if name in w.models {
      EntryShows(a, longContext, catalog, all, group, w, a.confidence, w.models[name], AmountAt(w.apiModels, name));
    }
  }

  lemma BuildShowsAll(catalog: Catalog, calls: seq<UsageCall>, b: Bounds, selected: Selected, settled: bool,
                      longContext: bool)
    ensures ShowsAll(Build(selected, settled, longContext, Aggregate(catalog, calls, b)), longContext, catalog, calls,
                     b)
  {
    hide Aggregate, GroupUsage, GroupCost, ShowsThread, ShowsTurn, ShowsModel, UsageFor, WindowCalls, WithoutSpark,
         Reasons, Clamp, CountersOf, Total;
    var a := Build(selected, settled, longContext, Aggregate(catalog, calls, b));
    WindowTotals(catalog, calls, b);
    GroupTokens(catalog, WithoutSpark(WindowCalls(calls, b)));
    forall thread ensures ShowsThread(a, longContext, catalog, calls, b, thread) {
      BuildShowsThread(catalog, calls, b, selected, settled, longContext, thread);
    }
    forall thread, turn ensures ShowsTurn(a, longContext, catalog, calls, b, thread, turn) {
      BuildShowsTurn(catalog, calls, b, selected, settled, longContext, thread, turn);
    }
    forall name ensures ShowsModel(a, longContext, catalog, calls, b, name) {
      BuildShowsModel(catalog, calls, b, selected, settled, longContext, name);
    }
  }

  lemma GroupTokens(catalog: Catalog, group: seq<UsageCall>)
    ensures GroupUsage(catalog, group).tokens == Total(CountersOf(group))
  {
  }

  /**
   Both variants of an analysis show, for every thread, turn and model, exactly the tokens,
   shares and API cost of its own calls of the window, and an entry for nothing else.
   */
  lemma AnalysisShowsCalls(catalog: Catalog, calls: seq<UsageCall>, selected: Selected, now: Instant, settled: bool)
    ensures
      var (base, long) := Analyze(catalog, calls, selected, now, settled);
      var b := Bounds(selected.startsAt, selected.endsAt, now);
      ShowsAll(base, false, catalog, calls, b) && ShowsAll(long, true, catalog, calls, b)
  {
    hide Build, ShowsAll, Aggregate;
    BuildShowsAll(catalog, calls, Bounds(selected.startsAt, selected.endsAt, now), selected, settled, false);
    BuildShowsAll(catalog, calls, Bounds(selected.startsAt, selected.endsAt, now), selected, settled, true);
  }

  lemma ReasonMembers(w: Window, longContext: bool, stale: bool)
    ensures
      var reasons := Reasons(w, longContext, stale);
      && (QuotaWindowStale in reasons <==> stale)
      && (UnpricedModelRateFallback in reasons <==> w.modelFallback)
      && (TokenBreakdownAbsent in reasons <==> w.breakdownFallback)
      && (LongContextUsageUnknown in reasons <==> longContext && w.detectionFallback)
  {
  }

  /** The gauge, the confidence and the reasons of an analysis, in terms of the calls that count. */
  lemma AnalysisReasons(catalog: Catalog, calls: seq<UsageCall>, b: Bounds, selected: Selected, settled: bool,
                        longContext: bool)
    ensures
      var a := Build(selected, settled, longContext, Aggregate(catalog, calls, b));
      var quota := WithoutSpark(WindowCalls(calls, b));
      && a.selected == selected && a.settled == settled
      && (a.confidence == if Total(CountersOf(quota)).total == 0 then UnknownConfidence else Low)
      && (0.0 <= selected.usedPercent <= 100.0 ==> a.usedPercent == selected.usedPercent)
      && (selected.usedPercent < 0.0 ==> a.usedPercent == 0.0)
      && (selected.usedPercent > 100.0 ==> a.usedPercent == 100.0)
      && a.projectedPercent == (if Total(CountersOf(quota)).total == 0 then 0.0 else a.usedPercent)
      && (QuotaWindowStale in a.partialReasons <==>
          selected.provenance == StaleSource || selected.provenance == UnknownSource)
      && (UnpricedModelRateFallback in a.partialReasons <==>
          Flagged(catalog, quota, (x: Weight) => x.modelFallback))
      && (TokenBreakdownAbsent in a.partialReasons <==> Flagged(catalog, quota, (x: Weight) => x.breakdownFallback))
      && (LongContextUsageUnknown in a.partialReasons <==>
          longContext && Flagged(catalog, quota, (x: Weight) => x.detectionFallback))
  {
    hide Aggregate, GroupUsage, GroupCost, Flagged, Select, Reasons, WithoutSpark, WindowCalls, CountersOf, Total;
    ReasonMembers(Aggregate(catalog, calls, b), longContext,
                  selected.provenance == StaleSource || selected.provenance == UnknownSource);
    WindowTotals(catalog, calls, b);
    GroupTokens(catalog, WithoutSpark(WindowCalls(calls, b)));
  }
}
