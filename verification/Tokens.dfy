/**
 Token counters (src/domain.rs).

 A counter that reports neither input nor output detail counts its whole total
 as unclassified, so `Unclassified` switches between two fields.  The lemmas show
 that addition is nevertheless a commutative, associative operation even when it
 saturates, and when a cumulative counter can be rebuilt from its deltas.
 */
module Tokens {
  import opened Options
  import opened Saturating
  import opened Folding

  datatype TokenUsage = TokenUsage(
    input: U64,
    cachedInput: U64,
    cacheWriteInput: U64,
    output: U64,
    reasoningOutput: U64,
    unclassifiedTokens: U64,
    total: U64)

  const NO_TOKENS := TokenUsage(0, 0, 0, 0, 0, 0, 0)

  function Unclassified(t: TokenUsage): U64 {
    if t.input == 0 && t.output == 0 && t.unclassifiedTokens == 0 then t.total else t.unclassifiedTokens
  }

  predicate HasValidBreakdown(t: TokenUsage) {
    && t.cachedInput <= t.input
    && t.cacheWriteInput <= t.input
    && t.reasoningOutput <= t.output
    && t.input + t.output + Unclassified(t) == t.total
  }

  predicate IsZero(t: TokenUsage) {
    t == NO_TOKENS
  }

  function Add(a: TokenUsage, b: TokenUsage): TokenUsage {
    TokenUsage(
      Add64(a.input, b.input),
      Add64(a.cachedInput, b.cachedInput),
      Add64(a.cacheWriteInput, b.cacheWriteInput),
      Add64(a.output, b.output),
      Add64(a.reasoningOutput, b.reasoningOutput),
      Add64(Unclassified(a), Unclassified(b)),
      Add64(a.total, b.total))
  }

  function DeltaFrom(current: TokenUsage, previous: TokenUsage): Option<TokenUsage> {
    if || current.input < previous.input
       || current.cachedInput < previous.cachedInput
       || current.cacheWriteInput < previous.cacheWriteInput
       || current.output < previous.output
       || current.reasoningOutput < previous.reasoningOutput
       || current.total < previous.total
       || Unclassified(current) < Unclassified(previous)
    then
      None
    else
      Some(TokenUsage(
             current.input - previous.input,
             current.cachedInput - previous.cachedInput,
             current.cacheWriteInput - previous.cacheWriteInput,
             current.output - previous.output,
             current.reasoningOutput - previous.reasoningOutput,
             Unclassified(current) - Unclassified(previous),
             current.total - previous.total))
  }

  /** The counter with its unclassified part written out in its own field. */
  function Normalised(t: TokenUsage): TokenUsage {
    t.(unclassifiedTokens := Unclassified(t))
  }

  /** The total of a list of counters, accumulated from the default counter. */
  function Total(s: seq<TokenUsage>): TokenUsage {
    Fold(Add, NO_TOKENS, s)
  }

  lemma UnclassifiedIsHomomorphic(a: TokenUsage, b: TokenUsage)
    ensures Unclassified(Add(a, b)) == Add64(Unclassified(a), Unclassified(b))
  {
  }

  lemma NormalisedIsInvisible(a: TokenUsage, b: TokenUsage)
    ensures Add(NO_TOKENS, a) == Normalised(a)
    ensures Add(Normalised(a), b) == Add(a, b) == Normalised(Add(a, b))
    ensures Unclassified(Normalised(a)) == Unclassified(a)
  {
  }

  lemma AddAssociates(a: TokenUsage, b: TokenUsage, c: TokenUsage)
    ensures Add(Add(a, b), c) == Add(a, Add(b, c))
  {
    UnclassifiedIsHomomorphic(a, b);
    UnclassifiedIsHomomorphic(b, c);
  }

  lemma AddAccumulates()
    ensures Accumulates(Add, NO_TOKENS)
    ensures Exchanges(Add)
  {
    forall a, b ensures Add(a, b) == Add(b, a) {
    }
    forall a, b, c ensures Add(Add(a, b), c) == Add(a, Add(b, c)) {
      AddAssociates(a, b, c);
    }
    AccumulatesExchanges(Add, NO_TOKENS);
  }

  /** The total does not depend on the order in which samples arrive, even when it saturates. */
  lemma TotalPermutation(s: seq<TokenUsage>, t: seq<TokenUsage>)
    requires multiset(s) == multiset(t)
    ensures Total(s) == Total(t)
  {
    AddAccumulates();
    FoldPermutation(Add, NO_TOKENS, s, t);
  }

  lemma ValidBreakdownsAreClosed(a: TokenUsage, b: TokenUsage)
    requires HasValidBreakdown(a) && HasValidBreakdown(b)
    requires a.total + b.total <= U64_MAX
    ensures HasValidBreakdown(Add(a, b))
  {
    UnclassifiedIsHomomorphic(a, b);
  }

  /**
   Adding a delta back gives the current counter exactly when the delta's own
   total is not mistaken for unclassified tokens.
   */
  lemma DeltaRebuildsExactly(current: TokenUsage, previous: TokenUsage)
    requires DeltaFrom(current, previous).Some?
    ensures
      var d := DeltaFrom(current, previous).value;
      Add(previous, d) == Normalised(current)
      <==>
      (current.input == previous.input && current.output == previous.output
       && Unclassified(current) == Unclassified(previous)
       ==> current.total == previous.total || Unclassified(previous) == U64_MAX)
  {
  }

  /** Two counters with valid breakdowns always satisfy that condition. */
  lemma DeltaRebuilds(current: TokenUsage, previous: TokenUsage)
    requires HasValidBreakdown(current) && HasValidBreakdown(previous)
    requires DeltaFrom(current, previous).Some?
    ensures Add(previous, DeltaFrom(current, previous).value) == Normalised(current)
  {
    DeltaRebuildsExactly(current, previous);
  }

  /** A counter whose total moves without any detail moving cannot be rebuilt. */
  lemma DeltaMayNotRebuild()
    ensures
      var previous := NO_TOKENS.(input := 1, total := 1);
      var current := NO_TOKENS.(input := 1, total := 2);
      && DeltaFrom(current, previous).Some?
      && Add(previous, DeltaFrom(current, previous).value) != Normalised(current)
  {
  }

  /** Counters with valid breakdowns, each of which has a delta from the one before. */
  predicate Chain(counters: seq<TokenUsage>) {
    counters != [] ==>
      var last := |counters| - 1;
      && HasValidBreakdown(counters[last])
      && Chain(counters[..last])
      && (last > 0 ==> DeltaFrom(counters[last], counters[last - 1]).Some?)
  }

  function Deltas(counters: seq<TokenUsage>): seq<TokenUsage>
    requires Chain(counters)
  {
    var last := |counters| - 1;
    if last <= 0 then
      []
    else
      Deltas(counters[..last]) + [DeltaFrom(counters[last], counters[last - 1]).value]
  }

  /** Deltas along a chain telescope to the last counter, whatever happened in between. */
  lemma {:induction false} DeltasTelescope(counters: seq<TokenUsage>)
    requires counters != [] && Chain(counters)
    ensures Normalised(Fold(Add, counters[0], Deltas(counters))) == Normalised(counters[|counters| - 1])
  {
    hide HasValidBreakdown, DeltaFrom, Add, Normalised;
    var last := |counters| - 1;
    if last > 0 {
      var init := counters[..last];
      DeltasTelescope(init);
      assert HasValidBreakdown(init[last - 1]);
      DeltasTelescopeStep(Fold(Add, counters[0], Deltas(init)), counters[last], init[last - 1]);
      FoldExtend(Add, counters[0], Deltas(init), DeltaFrom(counters[last], counters[last - 1]).value);
    }
  }

  lemma DeltasTelescopeStep(before: TokenUsage, current: TokenUsage, previous: TokenUsage)
    requires Normalised(before) == Normalised(previous)
    requires HasValidBreakdown(current) && HasValidBreakdown(previous)
    requires DeltaFrom(current, previous).Some?
    ensures Normalised(Add(before, DeltaFrom(current, previous).value)) == Normalised(current)
  {
    var d := DeltaFrom(current, previous).value;
    NormalisedIsInvisible(before, d);
    NormalisedIsInvisible(previous, d);
    DeltaRebuilds(current, previous);
  }

  /** Two deltas in a row add up to one, even where the middle counter is left out. */
  lemma DeltasCompose(first: TokenUsage, middle: TokenUsage, last: TokenUsage)
    requires HasValidBreakdown(first) && HasValidBreakdown(middle) && HasValidBreakdown(last)
    requires DeltaFrom(middle, first).Some? && DeltaFrom(last, middle).Some?
    ensures DeltaFrom(last, first) == Some(Add(DeltaFrom(middle, first).value, DeltaFrom(last, middle).value))
  {
    DeltaIsClassified(middle, first);
    DeltaIsClassified(last, middle);
  }

  lemma DeltaIsClassified(current: TokenUsage, previous: TokenUsage)
    requires HasValidBreakdown(current) && HasValidBreakdown(previous) && DeltaFrom(current, previous).Some?
    ensures Unclassified(DeltaFrom(current, previous).value) == Unclassified(current) - Unclassified(previous)
  {
  }

  /** The sum of all deltas is the one delta from the first counter to the last. */
  lemma {:induction false} DeltaSumIsOverallDelta(counters: seq<TokenUsage>)
    requires counters != [] && Chain(counters)
    ensures DeltaFrom(counters[|counters| - 1], counters[0]) == Some(Total(Deltas(counters)))
    ensures HasValidBreakdown(counters[0])
  {
    hide HasValidBreakdown, DeltaFrom, Add;
    var last := |counters| - 1;
    if last == 0 {
      assert Total([]) == NO_TOKENS;
      NoDelta(counters[0]);
    } else {
      var init := counters[..last];
      DeltaSumIsOverallDelta(init);
      FoldExtend(Add, NO_TOKENS, Deltas(init), DeltaFrom(counters[last], counters[last - 1]).value);
      assert HasValidBreakdown(init[last - 1]);
      DeltasCompose(counters[0], counters[last - 1], counters[last]);
    }
  }

  lemma NoDelta(t: TokenUsage)
    ensures DeltaFrom(t, t) == Some(NO_TOKENS)
  {
  }
}
