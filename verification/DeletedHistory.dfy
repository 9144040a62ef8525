/**
 Deleting sessions loses no history (src/deleted_sessions.rs): after capture, prepare,
 any outcomes, loss of the logs and overlay, every turn and every interaction is shown as
 before, and each deleted task has the details that its evidence proves.
 */
module DeletedHistory {
  import opened Time
  import opened Options
  import opened Saturating
  import opened Folding
  import opened Ordering
  import opened Tokens
  import opened Dataset
  import opened Records
  import opened Capture
  import opened Ledger
  import opened LedgerRuns
  import opened Overlay
  import opened OverlayLaws
  import opened OverlayOrder
  import opened Deletion
  import opened WindowEntries

  // ----- Turns in the overlay

  lemma {:induction false} MergedFirst(previous: seq<DeletedTurn>, incoming: seq<DeletedTurn>, turnId: string)
    ensures FirstSaved(MergeTurns(previous, incoming), turnId)
         == Or(FirstSaved(incoming, turnId), FirstSaved(previous, turnId))
  {
    hide HasTurn;
    if previous != [] {
      var init, turn := previous[..|previous| - 1], previous[|previous| - 1];
      MergedFirst(init, incoming, turnId);
      var merged := MergeTurns(init, incoming);
      FirstSavedFacts(merged, turn.turnId);
      assert (merged + [turn])[..|merged|] == merged;
    }
  }

  lemma {:induction false} LiveTurnIsFirst(turns: seq<Turn>, thread: string, turnId: string)
    ensures FirstTurn(turns, thread, turnId).Some? <==> HasLiveTurn(turns, thread, turnId)
  {
    FirstTurnFacts(turns, thread, turnId);
    var found := FirstTurn(turns, thread, turnId);
    if found.Some? {
      var i :| 0 <= i < |turns| && turns[i] == found.value;
    }
  }

  function RestoredOption(thread: string, saved: Option<DeletedTurn>): Option<Turn> {
    if saved.Some? then Some(RestoredTurn(thread, saved.value)) else None
  }

  lemma {:induction false} AddedFirst(turns: seq<Turn>, owner: string, saved: seq<DeletedTurn>, thread: string,
                                      turnId: string)
    ensures FirstTurn(AddTurns(turns, owner, saved), thread, turnId)
         == if owner == thread
            then Or(FirstTurn(turns, thread, turnId), RestoredOption(thread, FirstSaved(saved, turnId)))
            else FirstTurn(turns, thread, turnId)
  {
    hide HasLiveTurn;
    if saved != [] {
      var init, t := saved[..|saved| - 1], saved[|saved| - 1];
      AddedFirst(turns, owner, init, thread, turnId);
      var before := AddTurns(turns, owner, init);
      LiveTurnIsFirst(before, owner, t.turnId);
      assert (before + [RestoredTurn(owner, t)])[..|before|] == before;
    }
  }

  lemma FirstTurnExtend(turns: seq<Turn>, t: Turn, thread: string, turnId: string)
    ensures FirstTurn(turns + [t], thread, turnId)
         == Or(FirstTurn(turns, thread, turnId), if t.thread == thread && t.turnId == turnId then Some(t) else None)
  {
    assert (turns + [t])[..|turns|] == turns;
  }

  lemma NoTurns(thread: string, turnId: string)
    ensures FirstTurn([], thread, turnId) == None
  {
  }

  /** The saved turn of the record that the overlay considers. */
  function SavedFor(record: Option<Record>, turnId: string): Option<DeletedTurn> {
    if record.Some? then FirstSaved(record.value.turns, turnId) else None
  }

  lemma {:induction false} AllTurnsFirst(turns: seq<Turn>, records: seq<Record>, asOf: Instant, thread: string,
                                         turnId: string)
    requires DistinctThreads(records)
    ensures FirstTurn(AllTurns(turns, records, asOf), thread, turnId)
         == Or(FirstTurn(turns, thread, turnId),
               RestoredOption(thread, SavedFor(RecordFor(records, thread, asOf), turnId)))
  {
    hide AddTurns, FirstTurn, FirstSaved, RestoredTurn;
    if records != [] {
      var init, r := records[..|records| - 1], records[|records| - 1];
      AllTurnsFirst(turns, init, asOf, thread, turnId);
      AddedFirst(AllTurns(turns, init, asOf), r.thread, r.turns, thread, turnId);
      if r.thread == thread {
        NoEarlierRecord(records, thread, asOf);
      }
    }
  }

  lemma {:induction false} DroppedFirst(turns: seq<Turn>, threads: set<string>, thread: string, turnId: string)
    ensures FirstTurn(DropTurns(turns, threads), thread, turnId)
         == if thread in threads then None else FirstTurn(turns, thread, turnId)
  {
    hide FirstTurn;
    NoTurns(thread, turnId);
    if turns != [] {
      var init, t := turns[..|turns| - 1], turns[|turns| - 1];
      DroppedFirst(init, threads, thread, turnId);
      FirstTurnExtend(DropTurns(init, threads), t, thread, turnId);
      FirstTurnExtend(init, t, thread, turnId);
      assert turns == init + [t];
    }
  }

  function RetotalOption(turn: Option<Turn>, touched: set<string>, calls: seq<UsageCall>): Option<Turn> {
    if turn.Some? then Some(RetotalTurn(turn.value, touched, calls)) else None
  }

  lemma {:induction false} RetotalledFirst(turns: seq<Turn>, touched: set<string>, calls: seq<UsageCall>,
                                           thread: string, turnId: string)
    ensures FirstTurn(RetotalTurns(turns, touched, calls), thread, turnId)
         == RetotalOption(FirstTurn(turns, thread, turnId), touched, calls)
  {
    hide TurnTotal;
    var after := RetotalTurns(turns, touched, calls);
    if turns != [] {
      var init := turns[..|turns| - 1];
      RetotalledFirst(init, touched, calls, thread, turnId);
      assert after[..|turns| - 1] == RetotalTurns(init, touched, calls);
    }
  }

  lemma {:induction false} TouchedThreads(records: seq<Record>, asOf: Instant, thread: string)
    ensures thread in Touched(records, asOf) <==> RecordFor(records, thread, asOf).Some?
  {
    if records != [] {
      TouchedThreads(records[..|records| - 1], asOf, thread);
    }
  }

  // ----- Totals

  /** The sum of the calls of one turn. */
  function TurnTokens(calls: seq<UsageCall>, thread: string, turnId: string): TokenUsage {
    Total(CountersOf(Select(calls, (c: UsageCall) => c.thread == thread && c.turn == Some(turnId))))
  }

  /** The sum of the calls of one thread. */
  function ThreadTokens(calls: seq<UsageCall>, thread: string): TokenUsage {
    Total(CountersOf(Select(calls, (c: UsageCall) => c.thread == thread)))
  }

  lemma {:induction false} SelectedTotal(calls: seq<UsageCall>, p: UsageCall -> bool,
                                         step: (TokenUsage, UsageCall) -> TokenUsage)
    requires forall sum, c :: step(sum, c) == if p(c) then Add(sum, c.tokens) else sum
    ensures Fold(step, NO_TOKENS, calls) == Total(CountersOf(Select(calls, p)))
  {
    hide Add;
    if calls != [] {
      var init, c := calls[..|calls| - 1], calls[|calls| - 1];
      SelectedTotal(init, p, step);
      var chosen := Select(init, p);
      assert CountersOf(chosen + [c]) == CountersOf(chosen) + [c.tokens];
      FoldExtend(Add, NO_TOKENS, CountersOf(chosen), c.tokens);
    } else {
      assert CountersOf([]) == [];
    }
  }

  lemma TotalsAreSums(calls: seq<UsageCall>, thread: string, turnId: string)
    ensures TurnTotal(calls, thread, turnId) == TurnTokens(calls, thread, turnId)
    ensures ThreadTotal(calls, thread) == ThreadTokens(calls, thread)
  {
    hide Fold, Total, CountersOf, Select, Add;
    SelectedTotal(calls, (c: UsageCall) => c.thread == thread && c.turn == Some(turnId), TurnStep(thread, turnId));
    SelectedTotal(calls, (c: UsageCall) => c.thread == thread, ThreadStep(thread));
  }

  // ----- What the overlay shows of a ledger

  predicate Considered(l: Tables, thread: string, asOf: Instant) {
    thread in l.sessions && l.sessions[thread].record.capturedAt <= asOf
  }

  function SavedIn(l: Tables, thread: string, turnId: string, asOf: Instant): Option<DeletedTurn> {
    if Considered(l, thread, asOf) then FirstSaved(l.sessions[thread].record.turns, turnId) else None
  }

  function Totalled(turn: Option<Turn>, considered: bool, tokens: TokenUsage): Option<Turn> {
    if turn.Some? && considered then Some(turn.value.(tokenUsage := tokens)) else turn
  }

  lemma ShownTurn(env: Environment, d: Rollout, l: Tables, shown: seq<Record>, asOf: Instant, thread: string,
                  turnId: string)
    requires Loadable(env, l) && ListsSessions(env, l, shown)
    ensures
      var first := Or(FirstTurn(d.turns, thread, turnId), RestoredOption(thread, SavedIn(l, thread, turnId, asOf)));
      var after := Overlaid(d, shown, asOf);
      FirstTurn(after.turns, thread, turnId)
      == Totalled(first, Considered(l, thread, asOf), TurnTokens(after.calls, thread, turnId))
  {
    hide Loadable, ListsSessions, Overlaid, FirstTurn, FirstSaved, RecordFor, AllTurns, AllTasks, Touched, Sorted,
         RetotalTurns, RetotalTasks, TurnTotal, TurnTokens, OneRecordPerThread;
    var after, touched := Overlaid(d, shown, asOf), Touched(shown, asOf);
    OverlaySort(d, shown, asOf);
    LoadedAreDistinct(env, l, shown);
    LoadedRecordFor(env, l, shown, thread, asOf);
    TouchedThreads(shown, asOf, thread);
    AllTurnsFirst(d.turns, shown, asOf, thread, turnId);
    RetotalledFirst(AllTurns(d.turns, shown, asOf), touched, after.calls, thread, turnId);
    FirstTurnFacts(AllTurns(d.turns, shown, asOf), thread, turnId);
    TotalsAreSums(after.calls, thread, turnId);
  }

  lemma LoadedAreDistinct(env: Environment, l: Tables, shown: seq<Record>)
    requires Loadable(env, l) && ListsSessions(env, l, shown)
    ensures DistinctThreads(shown)
  {
    hide Loadable, ListsSessions, OwnsItsCalls;
    LoadedRecords(env, l, shown);
  }

  // ----- The deletion

  /** One deletion from end to end, with the listings of the ledger before and after it. */
  ghost predicate Deletes(env: Environment, d: Rollout, before: Tables, operation: string, records: seq<Record>,
                          now: Instant, merged: seq<Record>, states: seq<Tables>, steps: seq<Step>,
                          shownBefore: seq<Record>, shownAfter: seq<Record>, asOf: Instant)
  {
    && Consistent(env, before) && ListsSessions(env, before, shownBefore)
    && Captured(env.shorten, d, records)
    && Outcomes(env, states, steps)
    && PrepareStep(env, LEDGER_READ_BUDGET, before, operation, records, now, merged, states[0])
    && ListsSessions(env, states[|steps|], shownAfter)
    && (forall i :: 0 <= i < |merged| ==> merged[i].capturedAt <= asOf)
  }

  /** What the ledger holds of each thread after the deletion, in terms of what it held before. */
  ghost predicate Saves(env: Environment, before: Tables, records: seq<Record>, after: Tables) {
    && after.sessions.Keys == before.sessions.Keys + Threads(records)
    && (forall t :: t in before.sessions && t !in Threads(records) ==>
                      SameRecord(before.sessions[t].record, after.sessions[t].record))
    && (forall i :: 0 <= i < |records| ==> SavesMember(env, before, records[i], after))
  }

  ghost predicate SavesMember(env: Environment, before: Tables, r: Record, after: Tables) {
    && r.thread in after.sessions
    && exists merged :: && MergesWith(env, before.sessions, Normal(env, r), merged)
                        && SameRecord(merged, after.sessions[r.thread].record)
  }

  lemma DeletionSaves(env: Environment, d: Rollout, before: Tables, operation: string, records: seq<Record>,
                      now: Instant, merged: seq<Record>, states: seq<Tables>, steps: seq<Step>,
                      shownBefore: seq<Record>, shownAfter: seq<Record>, asOf: Instant)
    requires Deletes(env, d, before, operation, records, now, merged, states, steps, shownBefore, shownAfter, asOf)
    ensures Loadable(env, before) && Loadable(env, states[|steps|])
    ensures Saves(env, before, records, states[|steps|])
    ensures forall i :: 0 <= i < |records| ==> Considered(states[|steps|], records[i].thread, asOf)
  {
    hide Consistent, Loadable, ListsSessions, Next, Captured, PrepareStep, Saves, Considered, SameEvidence;
    var prepared, after := states[0], states[|steps|];
    StepKeepsConsistent(env, before, Prepare(operation, records, now, merged), prepared) by {
      PrepareIsNext(env, before, operation, records, now, merged, prepared);
    }
    OutcomesKeepEvidence(env, states, steps, |steps|);
    ConsistentIsLoadable(env, before);
    ConsistentIsLoadable(env, after);
    PreparedRows(env, before, operation, records, now, merged, prepared);
    SavedAfterOutcomes(env, before, records, merged, prepared, after, asOf);
  }

  /** The rows right after the prepare. */
  ghost predicate HoldsRows(env: Environment, before: Tables, records: seq<Record>, merged: seq<Record>,
                            prepared: Tables)
  {
    && |merged| == |records|
    && prepared.sessions.Keys == before.sessions.Keys + Threads(records)
    && (forall t :: t in before.sessions && t !in Threads(records) ==> prepared.sessions[t] == before.sessions[t])
    && (forall i :: 0 <= i < |records| ==> HoldsRow(env, before, records[i], merged[i], prepared))
  }

  ghost predicate HoldsRow(env: Environment, before: Tables, r: Record, merged: Record, prepared: Tables) {
    && r.thread in prepared.sessions && prepared.sessions[r.thread].record == merged
    && MergesWith(env, before.sessions, Normal(env, r), merged)
  }

  lemma PreparedRows(env: Environment, before: Tables, operation: string, records: seq<Record>, now: Instant,
                     merged: seq<Record>, prepared: Tables)
    requires PrepareStep(env, LEDGER_READ_BUDGET, before, operation, records, now, merged, prepared)
    ensures HoldsRows(env, before, records, merged, prepared)
  {
    hide Valid, WithinBudget, ReceiptsReadable, MergesWith, PublishAll, Preserves, CapturesFit, DistinctThreads,
         Threads, Normal;
    var started := before.(operations := before.operations[operation := now]);
    PreparedMembers(env, before, records, merged);
    PublishedSessions(started, operation, merged);
    forall i | 0 <= i < |records| ensures HoldsRow(env, before, records[i], merged[i], prepared) {
      assert Normals(env, records)[i] == Normal(env, records[i]);
      ThreadIsListed(merged, i);
    }
  }

  lemma ThreadIsListed(records: seq<Record>, i: nat)
    requires i < |records|
    ensures records[i].thread in Threads(records)
  {
  }

  lemma SavedAfterOutcomes(env: Environment, before: Tables, records: seq<Record>, merged: seq<Record>,
                           prepared: Tables, after: Tables, asOf: Instant)
    requires HoldsRows(env, before, records, merged, prepared) && SameEvidence(prepared, after)
    requires forall i :: 0 <= i < |merged| ==> merged[i].capturedAt <= asOf
    ensures Saves(env, before, records, after)
    ensures forall i :: 0 <= i < |records| ==> Considered(after, records[i].thread, asOf)
  {
    hide MergesWith, Normal, Threads;
    forall i | 0 <= i < |records| ensures SavesMember(env, before, records[i], after) {
      assert SameRecord(merged[i], after.sessions[records[i].thread].record);
    }
  }

  // ----- Every turn

  /** All that is saved of a turn is the same. */
  predicate SameTurn(t: Turn, later: Turn) {
    && later.thread == t.thread && later.turnId == t.turnId && later.model == t.model && later.tier == t.tier
    && later.startedAt == t.startedAt && later.completedAt == t.completedAt && later.durationMs == t.durationMs
    && later.status == t.status
  }

  lemma MemberTurn(env: Environment, d: Rollout, before: Tables, r: Record, after: Tables, asOf: Instant,
                   turnId: string)
    requires SavesMember(env, before, r, after) && Considered(after, r.thread, asOf)
    requires Matches(FirstSaved(r.turns, turnId), FirstTurn(d.turns, r.thread, turnId))
    ensures
      var live, saved := FirstTurn(d.turns, r.thread, turnId), SavedIn(before, r.thread, turnId, asOf);
      var kept := SavedIn(after, r.thread, turnId, asOf);
      && (live.Some? ==> kept.Some? && TellsOf(kept.value, live.value))
      && (live.None? ==> kept == saved)
  {
    hide FirstTurn, FirstSaved, Merges, TellsOf;
    var incoming := Normal(env, r);
    var merged :| MergesWith(env, before.sessions, incoming, merged)
                  && SameRecord(merged, after.sessions[r.thread].record);
    if r.thread in before.sessions {
      var previous := before.sessions[r.thread].record;
      MergedTurnsAndTime(previous, incoming, merged);
      MergedFirst(previous.turns, incoming.turns, turnId);
    }
  }

  lemma MergedTurnsAndTime(previous: Record, incoming: Record, merged: Record)
    requires Merges(previous, incoming, merged)
    ensures merged.turns == MergeTurns(previous.turns, incoming.turns)
    ensures merged.interactions == MergeInteractions(previous.interactions, incoming.interactions)
    ensures previous.capturedAt <= merged.capturedAt
  {
    hide Valid, DistinctKeys, KeyMap, Sorted;
  }

  lemma CapturedHistory(shorten: string -> string, d: Rollout, records: seq<Record>, i: nat)
    requires Captured(shorten, d, records) && i < |records|
    ensures exists r :: Complete(r, records[i].thread, d) && r.(parent := records[i].parent) == records[i]
  {
    hide Complete;
    var title, at :| IsCapture(FromDataset(shorten, records[i].thread, title, at, d), records[i]);
    CaptureIsComplete(shorten, records[i].thread, title, at, d);
  }

  /** A bystander's row is considered after the deletion exactly if it was before, with the same turns. */
  lemma BystanderTurn(env: Environment, before: Tables, records: seq<Record>, after: Tables, thread: string,
                      turnId: string, asOf: Instant)
    requires Saves(env, before, records, after) && thread !in Threads(records)
    ensures Considered(after, thread, asOf) == Considered(before, thread, asOf)
    ensures SavedIn(after, thread, turnId, asOf) == SavedIn(before, thread, turnId, asOf)
  {
    hide SavesMember, FirstSaved;
  }

  /**
   Deleting sessions changes no turn.  Looked up by thread and id, the overlaid dataset has
   a turn after the deletion exactly if it had one before, with the same model, tier,
   times, duration and status; for a deleted thread its total is that of the turn's calls,
   and neither effort nor message comes back.
   */
  lemma DeletionKeepsTurns(env: Environment, d: Rollout, before: Tables, operation: string, records: seq<Record>,
                           now: Instant, merged: seq<Record>, states: seq<Tables>, steps: seq<Step>,
                           shownBefore: seq<Record>, shownAfter: seq<Record>, asOf: Instant, thread: string,
                           turnId: string)
    requires Deletes(env, d, before, operation, records, now, merged, states, steps, shownBefore, shownAfter, asOf)
    ensures
      var earlier := Overlaid(d, shownBefore, asOf);
      var later := Overlaid(Drop(d, Threads(records)), shownAfter, asOf);
      var was, remains := FirstTurn(earlier.turns, thread, turnId), FirstTurn(later.turns, thread, turnId);
      if thread in Threads(records) then
        && (was.Some? <==> remains.Some?)
        && (was.Some? ==> && SameTurn(was.value, remains.value)
                          && remains.value.reasoningEffort == remains.value.messagePreview == None
                          && remains.value.tokenUsage == TurnTokens(earlier.calls, thread, turnId))
      else
        remains == was
  {
    hide Consistent, Captured, Next, PrepareStep, Overlaid, Drop, ListsSessions, FirstTurn, FirstSaved, TurnTokens,
         Saves, SavesMember, Threads, Considered, SavedIn, Loadable;
    var after, dropped := states[|steps|], Drop(d, Threads(records));
    DeletionSaves(env, d, before, operation, records, now, merged, states, steps, shownBefore, shownAfter, asOf);
    ShownTurn(env, d, before, shownBefore, asOf, thread, turnId);
    ShownTurn(env, dropped, after, shownAfter, asOf, thread, turnId);
    DroppedTurn(d, Threads(records), thread, turnId);
    DeletionKeepsCalls(env, d, before, operation, records, now, merged, states, steps, shownBefore, shownAfter, asOf);
    TokensIgnoreOrder(Overlaid(d, shownBefore, asOf).calls, Overlaid(dropped, shownAfter, asOf).calls, thread, turnId);
    if thread in Threads(records) {
      MemberOfDeletion(env, d, before, records, after, thread, turnId, asOf);
    } else {
      BystanderTurn(env, before, records, after, thread, turnId, asOf);
    }
  }

  lemma DroppedTurn(d: Rollout, threads: set<string>, thread: string, turnId: string)
    ensures FirstTurn(Drop(d, threads).turns, thread, turnId)
         == if thread in threads then None else FirstTurn(d.turns, thread, turnId)
  {
    hide FirstTurn, DropTurns;
    DroppedFirst(d.turns, threads, thread, turnId);
  }

  lemma TokensIgnoreOrder(s: seq<UsageCall>, t: seq<UsageCall>, thread: string, turnId: string)
    requires multiset(s) == multiset(t)
    ensures TurnTokens(s, thread, turnId) == TurnTokens(t, thread, turnId)
    ensures ThreadTokens(s, thread) == ThreadTokens(t, thread)
  {
    hide *;
    TotalsIgnoreOrder(s, t, thread, turnId);
    TotalsAreSums(s, thread, turnId);
    TotalsAreSums(t, thread, turnId);
  }

  lemma MemberOfDeletion(env: Environment, d: Rollout, before: Tables, records: seq<Record>, after: Tables,
                         thread: string, turnId: string, asOf: Instant)
    requires Captured(env.shorten, d, records) && Saves(env, before, records, after) && thread in Threads(records)
    requires forall i :: 0 <= i < |records| ==> Considered(after, records[i].thread, asOf)
    ensures Considered(after, thread, asOf)
    ensures
      var live, saved := FirstTurn(d.turns, thread, turnId), SavedIn(before, thread, turnId, asOf);
      var kept := SavedIn(after, thread, turnId, asOf);
      && (live.Some? ==> live.value.thread == thread && kept.Some? && TellsOf(kept.value, live.value))
      && (live.None? ==> kept == saved)
  {
    hide Captured, SavesMember, Considered, SavedIn, FirstTurn, FirstSaved, TellsOf, CapturesTurns, Involves, IsTaskOf,
         DetailsOf;
    var i := MemberIndex(records, thread);
    CapturedHistory(env.shorten, d, records, i);
    MemberTurn(env, d, before, records[i], after, asOf, turnId);
    FirstTurnFacts(d.turns, thread, turnId);
  }

  /** The overlay adds no second turn under an id. */
  lemma {:induction false} AddedIsFirst(turns: seq<Turn>, owner: string, saved: seq<DeletedTurn>, x: Turn)
    requires x in AddTurns(turns, owner, saved) && x !in turns
    ensures FirstTurn(AddTurns(turns, owner, saved), x.thread, x.turnId) == Some(x)
  {
    hide HasLiveTurn, FirstTurn;
    var init, t := saved[..|saved| - 1], saved[|saved| - 1];
    var before := AddTurns(turns, owner, init);
    if x in before {
      AddedIsFirst(turns, owner, init, x);
    } else {
      LiveTurnIsFirst(before, owner, t.turnId);
    }
    FirstTurnExtend(before, RestoredTurn(owner, t), x.thread, x.turnId);
  }

  lemma {:induction false} RestoredIsFirst(turns: seq<Turn>, records: seq<Record>, asOf: Instant, x: Turn)
    requires x in AllTurns(turns, records, asOf) && x !in turns
    ensures FirstTurn(AllTurns(turns, records, asOf), x.thread, x.turnId) == Some(x)
  {
    hide FirstTurn, AddTurns, FirstSaved;
    var init, r := records[..|records| - 1], records[|records| - 1];
    var before := AllTurns(turns, init, asOf);
    if x in before {
      RestoredIsFirst(turns, init, asOf, x);
      AddedFirst(before, r.thread, r.turns, x.thread, x.turnId);
    } else {
      AddedIsFirst(before, r.thread, r.turns, x);
    }
  }

  lemma RetotalledMember(turns: seq<Turn>, touched: set<string>, calls: seq<UsageCall>, x: Turn) returns (y: Turn)
    requires x in RetotalTurns(turns, touched, calls)
    ensures y in turns && x == RetotalTurn(y, touched, calls)
  {
    hide RetotalTurn;
    var i :| 0 <= i < |turns| && RetotalTurns(turns, touched, calls)[i] == x;
    y := turns[i];
  }

  lemma {:induction false} DroppedIsGone(turns: seq<Turn>, threads: set<string>, x: Turn)
    requires x.thread in threads
    ensures x !in DropTurns(turns, threads)
  {
    if turns != [] {
      DroppedIsGone(turns[..|turns| - 1], threads, x);
    }
  }

  /** A deleted thread has at most one turn under each id after the overlay. */
  lemma ShownIsFirst(d: Rollout, threads: set<string>, shown: seq<Record>, asOf: Instant, x: Turn)
    requires x in Overlaid(Drop(d, threads), shown, asOf).turns && x.thread in threads
    ensures FirstTurn(Overlaid(Drop(d, threads), shown, asOf).turns, x.thread, x.turnId) == Some(x)
  {
    hide Overlaid, FirstTurn, AllTurns, AllTasks, Touched, Sorted, DropTurns, DropCalls, DropTasks, DropInteractions,
         RetotalTasks, RetotalTurns, TurnTotal;
    var dropped := Drop(d, threads);
    OverlaySort(dropped, shown, asOf);
    var calls, touched := Overlaid(dropped, shown, asOf).calls, Touched(shown, asOf);
    var all := AllTurns(dropped.turns, shown, asOf);
    var y := RetotalledMember(all, touched, calls, x);
    DroppedIsGone(d.turns, threads, y);
    RestoredIsFirst(dropped.turns, shown, asOf, y);
    RetotalledFirst(all, touched, calls, x.thread, x.turnId);
  }

  /**
   A turn of a deleted thread is shown again exactly if the first turn under its id says the same;
   of turns that share an id and differ, only the first is saved.
   */
  lemma DroppedTurnIsShown(env: Environment, d: Rollout, before: Tables, operation: string, records: seq<Record>,
                           now: Instant, merged: seq<Record>, states: seq<Tables>, steps: seq<Step>,
                           shownBefore: seq<Record>, shownAfter: seq<Record>, asOf: Instant, t: Turn, first: Turn)
    requires Deletes(env, d, before, operation, records, now, merged, states, steps, shownBefore, shownAfter, asOf)
    requires t in d.turns && t.thread in Threads(records) && FirstTurn(d.turns, t.thread, t.turnId) == Some(first)
    ensures
      var later := Overlaid(Drop(d, Threads(records)), shownAfter, asOf);
      SameTurn(first, t) <==> exists x :: x in later.turns && SameTurn(t, x)
  {
    hide Consistent, Captured, Next, PrepareStep, Overlaid, Drop, ListsSessions, FirstTurn, FirstSaved, TurnTokens,
         Saves, Threads, Considered, SavedIn, Loadable;
    var later := Overlaid(Drop(d, Threads(records)), shownAfter, asOf);
    DeletionSaves(env, d, before, operation, records, now, merged, states, steps, shownBefore, shownAfter, asOf);
    ShownTurn(env, d, before, shownBefore, asOf, t.thread, t.turnId);
    DeletionKeepsTurns(env, d, before, operation, records, now, merged, states, steps, shownBefore, shownAfter, asOf,
                       t.thread, t.turnId);
    FirstTurnFacts(later.turns, t.thread, t.turnId);
    var x := FirstTurn(later.turns, t.thread, t.turnId).value;
    assert x in later.turns && SameTurn(first, x);
    if y :| y in later.turns && SameTurn(t, y) {
      ShownIsFirst(d, Threads(records), shownAfter, asOf, y);
    }
  }

  /** Two saved turns under one id: the overlay shows the first only. */
  lemma SecondTurnMayBeLost()
    ensures
      var a := DeletedTurn("1", Some("m"), None, None, None, None, TurnCompleted);
      var b := a.(model := Some("n"));
      forall x :: x in AddTurns([], "t", [a, b]) ==> !TellsOf(b, x)
  {
    var a := DeletedTurn("1", Some("m"), None, None, None, None, TurnCompleted);
    var b := a.(model := Some("n"));
    assert [a, b][..1] == [a] && [a][..0] == [];
    assert AddTurns([], "t", []) == [] && !HasLiveTurn([], "t", "1");
    var once := AddTurns([], "t", [a]);
    assert once == [RestoredTurn("t", a)];
    assert once[0].thread == "t" && once[0].turnId == "1";
    assert HasLiveTurn(once, "t", "1");
  }

  // ----- Every interaction

  lemma {:induction false} MergedEdges(previous: seq<AgentInteraction>, incoming: seq<AgentInteraction>)
    ensures forall e :: e in MergeInteractions(previous, incoming) <==> e in previous || e in incoming
  {
    if previous != [] {
      MergedEdges(previous[..|previous| - 1], incoming);
      assert previous == previous[..|previous| - 1] + [previous[|previous| - 1]];
    }
  }

  ghost predicate InRecord(records: seq<Record>, asOf: Instant, e: AgentInteraction) {
    exists r :: r in records && r.capturedAt <= asOf && e in r.interactions
  }

  lemma {:induction false} OverlaidEdges(edges: seq<AgentInteraction>, records: seq<Record>, asOf: Instant,
                                         e: AgentInteraction)
    ensures e in AllInteractions(edges, records, asOf) <==> e in edges || InRecord(records, asOf, e)
  {
    if records != [] {
      var init, r := records[..|records| - 1], records[|records| - 1];
      OverlaidEdges(edges, init, asOf, e);
      MergedEdges(r.interactions, AllInteractions(edges, init, asOf));
      assert records == init + [r];
      assert InRecord(records, asOf, e) <==> InRecord(init, asOf, e) || (r.capturedAt <= asOf && e in r.interactions);
    }
  }

  lemma {:induction false} DroppedEdges(edges: seq<AgentInteraction>, threads: set<string>)
    ensures forall e :: e in DropInteractions(edges, threads)
                        <==> e in edges && e.parentThread !in threads && e.childThread !in threads
  {
    if edges != [] {
      DroppedEdges(edges[..|edges| - 1], threads);
      assert edges == edges[..|edges| - 1] + [edges[|edges| - 1]];
    }
  }

  predicate EdgeAt(l: Tables, thread: string, asOf: Instant, e: AgentInteraction) {
    Considered(l, thread, asOf) && e in l.sessions[thread].record.interactions
  }

  lemma ShownEdges(env: Environment, d: Rollout, l: Tables, shown: seq<Record>, asOf: Instant, e: AgentInteraction)
    requires Loadable(env, l) && ListsSessions(env, l, shown)
    ensures e in Overlaid(d, shown, asOf).interactions <==> e in d.interactions || exists t :: EdgeAt(l, t, asOf, e)
  {
    hide Loadable, AddRecords, AllConflicts, Touched, AllTasks, AllTurns, RetotalTasks, RetotalTurns, Sort,
         AllInteractions, StringLe;
    OverlaidEdges(d.interactions, shown, asOf, e);
    if InRecord(shown, asOf, e) {
      var r :| r in shown && r.capturedAt <= asOf && e in r.interactions;
      var i :| 0 <= i < |shown| && shown[i] == r;
      assert EdgeAt(l, shown[i].thread, asOf, e);
    }
    if t :| EdgeAt(l, t, asOf, e) {
      var i :| 0 <= i < |shown| && shown[i].thread == t;
      assert shown[i] in shown;
    }
  }

  /** The row of a deleted thread holds the interactions captured and those saved before. */
  lemma MemberEdges(env: Environment, d: Rollout, before: Tables, r: Record, after: Tables, asOf: Instant,
                    e: AgentInteraction)
    requires SavesMember(env, before, r, after) && Considered(after, r.thread, asOf)
    requires e in r.interactions <==> e in d.interactions && Involves(e, r.thread)
    ensures EdgeAt(after, r.thread, asOf, e)
       <==> (e in d.interactions && Involves(e, r.thread)) || EdgeAt(before, r.thread, asOf, e)
  {
    hide Merges;
    var incoming := Normal(env, r);
    var merged :| MergesWith(env, before.sessions, incoming, merged)
                  && SameRecord(merged, after.sessions[r.thread].record);
    if r.thread in before.sessions {
      var previous := before.sessions[r.thread].record;
      MergedTurnsAndTime(previous, incoming, merged);
      MergedEdges(previous.interactions, incoming.interactions);
    }
  }

  lemma EdgesOfThread(env: Environment, d: Rollout, before: Tables, records: seq<Record>, after: Tables,
                      thread: string, asOf: Instant, e: AgentInteraction)
    requires Captured(env.shorten, d, records) && Saves(env, before, records, after)
    requires forall i :: 0 <= i < |records| ==> Considered(after, records[i].thread, asOf)
    ensures EdgeAt(after, thread, asOf, e)
       <==> || (thread in Threads(records) && e in d.interactions && Involves(e, thread))
            || EdgeAt(before, thread, asOf, e)
  {
    if thread in Threads(records) {
      hide Captured, SavesMember, Considered, EdgeAt, CapturesTurns, Matches, IsTaskOf, DetailsOf;
      var i := MemberIndex(records, thread);
      CapturedHistory(env.shorten, d, records, i);
      MemberEdges(env, d, before, records[i], after, asOf, e);
    } else {
      hide SavesMember, Captured;
    }
  }

  /** Deleting sessions changes no interaction: the same ones are shown before and after. */
  lemma DeletionKeepsInteractions(env: Environment, d: Rollout, before: Tables, operation: string,
                                  records: seq<Record>, now: Instant, merged: seq<Record>, states: seq<Tables>,
                                  steps: seq<Step>, shownBefore: seq<Record>, shownAfter: seq<Record>, asOf: Instant,
                                  e: AgentInteraction)
    requires Deletes(env, d, before, operation, records, now, merged, states, steps, shownBefore, shownAfter, asOf)
    ensures e in Overlaid(Drop(d, Threads(records)), shownAfter, asOf).interactions
       <==> e in Overlaid(d, shownBefore, asOf).interactions
    ensures e in d.interactions ==> e in Overlaid(Drop(d, Threads(records)), shownAfter, asOf).interactions
  {
    hide Consistent, Captured, Next, PrepareStep, Overlaid, ListsSessions, Saves, Threads, Considered, EdgeAt, Loadable;
    var after, dropped := states[|steps|], Drop(d, Threads(records));
    DeletionSaves(env, d, before, operation, records, now, merged, states, steps, shownBefore, shownAfter, asOf);
    ShownEdges(env, d, before, shownBefore, asOf, e);
    ShownEdges(env, dropped, after, shownAfter, asOf, e);
    DroppedEdges(d.interactions, Threads(records));
    forall t
      ensures EdgeAt(after, t, asOf, e)
         <==> (t in Threads(records) && e in d.interactions && Involves(e, t)) || EdgeAt(before, t, asOf, e)
    {
      EdgesOfThread(env, d, before, records, after, t, asOf, e);
    }
    if e in d.interactions && e !in dropped.interactions {
      assert EdgeAt(after, e.parentThread, asOf, e) || EdgeAt(after, e.childThread, asOf, e);
    }
  }

  // ----- The deleted tasks

  lemma {:induction false} FindTaskExtend(tasks: seq<Task>, task: Task, thread: string)
    ensures FindTask(thread, tasks + [task])
         == Or(FindTask(thread, tasks), if task.thread == thread then Some(task) else None)
  {
    if tasks != [] {
      FindTaskExtend(tasks[1..], task, thread);
      assert (tasks + [task])[1..] == tasks[1..] + [task];
    }
  }

  lemma TaskIsFound(tasks: seq<Task>, thread: string)
    ensures FindTask(thread, tasks).Some? <==> HasTask(tasks, thread)
  {
    FoundTask(thread, tasks);
  }

  lemma {:induction false} DroppedTask(tasks: seq<Task>, threads: set<string>, thread: string)
    requires thread in threads
    ensures FindTask(thread, DropTasks(tasks, threads)) == None
  {
    if tasks != [] {
      DroppedTask(tasks[..|tasks| - 1], threads, thread);
      FindTaskExtend(DropTasks(tasks[..|tasks| - 1], threads), tasks[|tasks| - 1], thread);
    }
  }

  function RestoredTaskOption(record: Option<Record>): Option<Task> {
    if record.Some? then Some(RestoredTask(record.value)) else None
  }

  lemma {:induction false} AllTasksFind(tasks: seq<Task>, records: seq<Record>, asOf: Instant, thread: string)
    requires DistinctThreads(records)
    ensures FindTask(thread, AllTasks(tasks, records, asOf))
         == Or(FindTask(thread, tasks), RestoredTaskOption(RecordFor(records, thread, asOf)))
  {
    hide FindTask, HasTask;
    if records != [] {
      var init, r := records[..|records| - 1], records[|records| - 1];
      AllTasksFind(tasks, init, asOf, thread);
      var before := AllTasks(tasks, init, asOf);
      TaskIsFound(before, r.thread);
      FindTaskExtend(before, RestoredTask(r), thread);
      if r.thread == thread {
        NoEarlierRecord(records, thread, asOf);
      }
    }
  }

  lemma {:induction false} RetotalledTask(tasks: seq<Task>, touched: set<string>, calls: seq<UsageCall>, thread: string)
    ensures
      var found := FindTask(thread, tasks);
      FindTask(thread, RetotalTasks(tasks, touched, calls))
      == if found.Some? then Some(RetotalTask(found.value, touched, calls)) else None
  {
    hide ThreadTotal;
    var after := RetotalTasks(tasks, touched, calls);
    if tasks != [] {
      RetotalledTask(tasks[1..], touched, calls, thread);
      assert after[1..] == RetotalTasks(tasks[1..], touched, calls);
    }
  }

  /** The details of a record, as the overlay shows them in a task. */
  predicate ShowsRecord(task: Task, r: Record) {
    && task.thread == r.thread && task.parent == r.parent && !task.archived && task.title == r.title
    && task.cwd == r.cwd && task.source == r.source && task.createdAt == r.createdAt && task.updatedAt == r.updatedAt
    && (if r.status == Deleted then task.status == Completed else task.status == TaskStatus.Unknown)
    && task.turnCount == |r.turns|
  }

  lemma ShownTask(env: Environment, d: Rollout, threads: set<string>, l: Tables, shown: seq<Record>, asOf: Instant,
                  thread: string)
    requires Loadable(env, l) && ListsSessions(env, l, shown)
    requires thread in threads && Considered(l, thread, asOf)
    ensures
      var after := Overlaid(Drop(d, threads), shown, asOf);
      var found := FindTask(thread, after.tasks);
      && found.Some? && ShowsRecord(found.value, Shown(env, l.sessions[thread].record))
      && found.value.tokenUsage == ThreadTokens(after.calls, thread)
  {
    hide Loadable, ListsSessions, Overlaid, FindTask, RecordFor, AllTurns, AllTasks, Touched, Sorted, DropTasks,
         RetotalTurns, RetotalTasks, ThreadTotal, ThreadTokens, DropCalls, DropTurns, DropInteractions;
    var dropped := Drop(d, threads);
    var after := Overlaid(dropped, shown, asOf);
    OverlaySort(dropped, shown, asOf);
    LoadedAreDistinct(env, l, shown);
    LoadedRecordFor(env, l, shown, thread, asOf);
    TouchedThreads(shown, asOf, thread);
    DroppedTask(d.tasks, threads, thread);
    AllTasksFind(dropped.tasks, shown, asOf, thread);
    RetotalledTask(AllTasks(dropped.tasks, shown, asOf), Touched(shown, asOf), after.calls, thread);
    TotalsAreSums(after.calls, thread, "");
    RecordThread(env, l, thread);
  }

  lemma RecordThread(env: Environment, l: Tables, thread: string)
    requires Loadable(env, l) && thread in l.sessions
    ensures l.sessions[thread].record.thread == thread
  {
    hide WithinBudget, Valid;
    assert RowLoads(l, thread);
  }

  /** The first of two sources that has a value. */
  predicate Prefers<T(==)>(value: Option<T>, first: Option<T>, second: Option<T>) {
    if first.Some? then value == first else value == second
  }

  /** The latest of the instants there are. */
  predicate Latest(value: Option<Instant>, a: Option<Instant>, b: Option<Instant>) {
    && (value == a || value == b)
    && (a.Some? ==> value.Some? && a.value <= value.value)
    && (b.Some? ==> value.Some? && b.value <= value.value)
  }

  /** What was saved before about the thread, or an empty record. */
  function Earlier(before: Tables, r: Record): Record {
    if r.thread in before.sessions then before.sessions[r.thread].record
    else Record(r.thread, "", None, None, None, None, None, r.capturedAt, None, Pending, [], [], [])
  }

  /** The details that the two captures of one session prove together. */
  predicate MergesDetails(merged: Record, earlier: Record, r: Record) {
    && Prefers(merged.parent, r.parent, earlier.parent)
    && Prefers(merged.cwd, r.cwd, earlier.cwd)
    && Prefers(merged.source, r.source, earlier.source)
    && Prefers(merged.createdAt, r.createdAt, earlier.createdAt)
    && Latest(merged.updatedAt, r.updatedAt, earlier.updatedAt)
    && merged.capturedAt == (if earlier.capturedAt <= r.capturedAt then r.capturedAt else earlier.capturedAt)
  }

  lemma MemberDetails(env: Environment, before: Tables, r: Record, after: Tables)
    requires SavesMember(env, before, r, after)
    ensures MergesDetails(after.sessions[r.thread].record, Earlier(before, r), r)
    ensures after.sessions[r.thread].record.title == if env.redact then "[redacted]" else env.shorten(r.title)
  {
    hide Valid, DistinctKeys, KeyMap, Sorted, MergeTurns, MergeInteractions;
    var merged :| MergesWith(env, before.sessions, Normal(env, r), merged)
                  && SameRecord(merged, after.sessions[r.thread].record);
  }

  /**
   A deleted session comes back as one task, under the details that its captures prove
   together, with the total of its calls, and completed exactly once its deletion is confirmed.
   */
  lemma DeletedTaskIsShown(env: Environment, d: Rollout, before: Tables, operation: string, records: seq<Record>,
                           now: Instant, merged: seq<Record>, states: seq<Tables>, steps: seq<Step>,
                           shownBefore: seq<Record>, shownAfter: seq<Record>, asOf: Instant, i: nat)
    requires Deletes(env, d, before, operation, records, now, merged, states, steps, shownBefore, shownAfter, asOf)
    requires i < |records|
    ensures
      var r, after := records[i], states[|steps|];
      var found := FindTask(r.thread, Overlaid(Drop(d, Threads(records)), shownAfter, asOf).tasks);
      && r.thread in after.sessions && found.Some?
      && var saved := after.sessions[r.thread].record;
      && MergesDetails(saved, Earlier(before, r), r)
      && ShowsRecord(found.value, saved.(title := if env.redact then "[redacted]" else env.shorten(r.title)))
      && found.value.tokenUsage == ThreadTokens(Overlaid(d, shownBefore, asOf).calls, r.thread)
  {
    hide Consistent, Captured, Next, PrepareStep, Overlaid, Drop, ListsSessions, FindTask, ThreadTokens, SavesMember,
         MergesDetails, ShowsRecord, Loadable;
    var after, dropped, thread := states[|steps|], Drop(d, Threads(records)), records[i].thread;
    DeletionSaves(env, d, before, operation, records, now, merged, states, steps, shownBefore, shownAfter, asOf);
    ThreadIsListed(records, i);
    ShownTask(env, d, Threads(records), after, shownAfter, asOf, thread);
    MemberDetails(env, before, records[i], after);
    DeletionKeepsCalls(env, d, before, operation, records, now, merged, states, steps, shownBefore, shownAfter, asOf);
    TokensIgnoreOrder(Overlaid(d, shownBefore, asOf).calls, Overlaid(dropped, shownAfter, asOf).calls, thread, "");
  }
}
